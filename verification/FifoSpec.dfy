/** The queue that src/permanentFIFO.c promises: one history of payloads with three cursors. */
module FifoSpec {
  import opened Options
  import opened RingTable
  import opened Sequences

  /** `written` is everything written since start-up, `read` and `acked` count the payloads read and
      acknowledged, and a crash cannot lose any of the first `durable` payloads. */
  datatype Queue = Queue(written: seq<Payload>, read: nat, acked: nat, durable: nat) {
    predicate Ok() {
      acked <= read <= |written| && acked <= durable <= |written|
    }

    /** A write; `saved` tells whether the disk table had to be saved to make room. */
    function Write(p: Payload, saved: bool): Queue {
      Queue(written + [p], read, acked, if saved then |written| else durable)
    }

    function Read(): (Option<Payload>, Queue) {
      if read < |written| then (Some(written[read]), this.(read := read + 1)) else (None, this)
    }

    function Ack(n: nat): Queue {
      Queue(written, read, n, if durable < n then n else durable)
    }

    function Flush(): Queue {
      this.(durable := |written|)
    }

    function Pending(): seq<Payload>
      requires Ok()
    {
      written[acked..]
    }

    /** What is left of the pending payloads after a crash. */
    function Survivors(): seq<Payload>
      requires Ok()
    {
      written[acked..durable]
    }
  }

  function Start(ps: seq<Payload>): Queue {
    Queue(ps, 0, 0, |ps|)
  }

  /** What a run can do. An acknowledgement names a number of payloads already read. */
  datatype Op =
    | OpWrite(p: Payload, saved: bool)
    | OpRead
    | OpAck(n: nat)
    | OpFlush
    | OpCrash
    | OpStop

  predicate Enabled(q: Queue, op: Op) {
    op.OpAck? ==> q.acked <= op.n <= q.read
  }

  function Apply(q: Queue, op: Op): (r: Queue)
    requires q.Ok() && Enabled(q, op)
    ensures r.Ok()
  {
    match op
    case OpWrite(p, saved) => q.Write(p, saved)
    case OpRead => q.Read().1
    case OpAck(n) => q.Ack(n)
    case OpFlush => q.Flush()
    case OpCrash => Start(q.Survivors())
    case OpStop => Start(q.Pending())
  }

  ghost predicate Legal(q: Queue, ops: seq<Op>)
    requires q.Ok()
    decreases |ops|
  {
    ops != [] ==> Enabled(q, ops[0]) && Legal(Apply(q, ops[0]), ops[1..])
  }

  ghost function Run(q: Queue, ops: seq<Op>): (r: Queue)
    requires q.Ok() && Legal(q, ops)
    ensures r.Ok()
    decreases |ops|
  {
    if ops == [] then q else Run(Apply(q, ops[0]), ops[1..])
  }

  /** The payloads one operation writes, delivers and releases. */
  function WrittenBy(op: Op): seq<Payload> {
    if op.OpWrite? then [op.p] else []
  }

  function DeliveredBy(q: Queue, op: Op): seq<Payload> {
    if op.OpRead? && q.Read().0.Some? then [q.Read().0.value] else []
  }

  function ReleasedBy(q: Queue, op: Op): seq<Payload>
    requires q.Ok() && Enabled(q, op)
  {
    if op.OpAck? then q.written[q.acked..op.n] else []
  }

  /** The same for a whole run, in order. */
  ghost function Written(ops: seq<Op>): seq<Payload> {
    if ops == [] then [] else WrittenBy(ops[0]) + Written(ops[1..])
  }

  ghost function Delivered(q: Queue, ops: seq<Op>): seq<Payload>
    requires q.Ok() && Legal(q, ops)
    decreases |ops|
  {
    if ops == [] then [] else DeliveredBy(q, ops[0]) + Delivered(Apply(q, ops[0]), ops[1..])
  }

  ghost function Released(q: Queue, ops: seq<Op>): seq<Payload>
    requires q.Ok() && Legal(q, ops)
    decreases |ops|
  {
    if ops == [] then [] else ReleasedBy(q, ops[0]) + Released(Apply(q, ops[0]), ops[1..])
  }

  ghost predicate NoRestart(ops: seq<Op>) {
    forall i :: 0 <= i < |ops| ==> !ops[i].OpCrash? && !ops[i].OpStop?
  }

  ghost predicate NoCrash(ops: seq<Op>) {
    forall i :: 0 <= i < |ops| ==> !ops[i].OpCrash?
  }

  lemma StepDelivers(q: Queue, op: Op)
    requires q.Ok() && Enabled(q, op) && !op.OpCrash? && !op.OpStop?
    ensures Apply(q, op).written == q.written + WrittenBy(op)
    ensures q.read <= Apply(q, op).read <= |q.written|
    ensures DeliveredBy(q, op) == q.written[q.read..Apply(q, op).read]
  {
  }

  lemma {:induction false} StepConserves(q: Queue, op: Op)
    requires q.Ok() && Enabled(q, op) && !op.OpCrash?
    ensures ReleasedBy(q, op) + Apply(q, op).Pending() == q.Pending() + WrittenBy(op)
  {
    if op.OpWrite? {
      assert (q.written + [op.p])[q.acked..] == q.written[q.acked..] + [op.p];
    } else if op.OpAck? {
      assert q.written[q.acked..op.n] + q.written[op.n..] == q.written[q.acked..];
    } else {
      assert [] + Apply(q, op).Pending() == q.Pending() == q.Pending() + [];
    }
  }

  /** A run is its first operation followed by the rest. */
  lemma RunUnfolds(q: Queue, ops: seq<Op>)
    requires q.Ok() && Legal(q, ops) && ops != []
    ensures Enabled(q, ops[0]) && Legal(Apply(q, ops[0]), ops[1..])
    ensures Run(q, ops) == Run(Apply(q, ops[0]), ops[1..])
    ensures Written(ops) == WrittenBy(ops[0]) + Written(ops[1..])
    ensures Delivered(q, ops) == DeliveredBy(q, ops[0]) + Delivered(Apply(q, ops[0]), ops[1..])
    ensures Released(q, ops) == ReleasedBy(q, ops[0]) + Released(Apply(q, ops[0]), ops[1..])
  {
  }

  lemma RunOfNothing(q: Queue)
    requires q.Ok()
    ensures Legal(q, []) && Run(q, []) == q && Written([]) == Delivered(q, []) == Released(q, []) == []
  {
  }

  /** Within one life of the queue, under every interleaving, the payloads read are the history from the
      read cursor on, in write order, none skipped and none repeated. */
  lemma {:induction false} ReadsFollowWrites(q: Queue, ops: seq<Op>)
    requires q.Ok() && Legal(q, ops) && NoRestart(ops)
    ensures Run(q, ops).written == q.written + Written(ops)
    ensures q.read <= Run(q, ops).read
    ensures Delivered(q, ops) == Run(q, ops).written[q.read..Run(q, ops).read]
    decreases |ops|
  {
    hide Run, Written, Delivered, Legal, Apply, WrittenBy, DeliveredBy;
    if ops == [] {
      RunOfNothing(q);
      assert q.written + [] == q.written;
    } else {
      RunUnfolds(q, ops);
      var q', r := Apply(q, ops[0]), Run(q, ops);
      StepDelivers(q, ops[0]);
      ReadsFollowWrites(q', ops[1..]);
      assert r.written == q.written + (WrittenBy(ops[0]) + Written(ops[1..]));
      assert q.written[q.read..q'.read] == r.written[q.read..q'.read];
      assert r.written[q.read..q'.read] + r.written[q'.read..r.read] == r.written[q.read..r.read];
    }
  }

  /** Over any number of clean stops and restarts nothing is lost: what was pending and what was written is,
      in order, what was acknowledged followed by what is still pending. */
  lemma {:induction false} NothingLostWithoutCrash(q: Queue, ops: seq<Op>)
    requires q.Ok() && Legal(q, ops) && NoCrash(ops)
    ensures Released(q, ops) + Run(q, ops).Pending() == q.Pending() + Written(ops)
    decreases |ops|
  {
    hide Run, Written, Released, Legal, Apply, WrittenBy, ReleasedBy, Queue.Pending;
    if ops == [] {
      RunOfNothing(q);
      assert q.Pending() + [] == [] + q.Pending();
    } else {
      RunUnfolds(q, ops);
      var q', op, rest := Apply(q, ops[0]), ops[0], ops[1..];
      StepConserves(q, op);
      NothingLostWithoutCrash(q', rest);
      Regroup(ReleasedBy(q, op), Released(q', rest), Run(q', rest).Pending(), q'.Pending(), Written(rest));
      Associate(q.Pending(), WrittenBy(op), Written(rest));
    }
  }

  lemma Regroup(a: seq<Payload>, b: seq<Payload>, c: seq<Payload>, d: seq<Payload>, e: seq<Payload>)
    requires b + c == d + e
    ensures (a + b) + c == (a + d) + e
  {
    Associate(a, b, c);
    Associate(a, d, e);
  }

  /** A crash drops payloads from the end of the pending ones; every other step keeps them all. */
  lemma {:induction false} StepDrops(q: Queue, op: Op, after: seq<Payload>, later: seq<Payload>)
    requires q.Ok() && Enabled(q, op)
    requires Subsequence(after, Apply(q, op).Pending() + later)
    ensures Subsequence(ReleasedBy(q, op) + after, q.Pending() + (WrittenBy(op) + later))
  {
    var kept := Apply(q, op).Pending();
    if op.OpCrash? {
      var lost := q.written[q.durable..];
      calc {
        q.Pending() + (WrittenBy(op) + later);
        (kept + lost) + ([] + later);
        kept + (lost + later);
      }
      SubsequenceInsert(after, kept, lost, later);
      assert ReleasedBy(q, op) + after == after;
    } else {
      calc {
        q.Pending() + (WrittenBy(op) + later);
        (q.Pending() + WrittenBy(op)) + later;
        { StepConserves(q, op); }
        (ReleasedBy(q, op) + kept) + later;
        ReleasedBy(q, op) + (kept + later);
      }
      SubsequencePrepend(ReleasedBy(q, op), after, kept + later);
    }
  }

  /** With crashes too, no acknowledged payload comes back and no order changes: what a run releases and
      leaves pending is what was pending and written, except for payloads dropped at the crashes. */
  lemma {:induction false} CrashesOnlyDrop(q: Queue, ops: seq<Op>)
    requires q.Ok() && Legal(q, ops)
    ensures Subsequence(Released(q, ops) + Run(q, ops).Pending(), q.Pending() + Written(ops))
    decreases |ops|
  {
    hide Run, Written, Released, Legal, Apply, WrittenBy, ReleasedBy, Queue.Pending, Subsequence;
    if ops == [] {
      RunOfNothing(q);
      SubsequenceOfItself(q.Pending());
      assert [] + q.Pending() == q.Pending() == q.Pending() + [];
    } else {
      RunUnfolds(q, ops);
      var q', op, rest := Apply(q, ops[0]), ops[0], ops[1..];
      var after := Released(q', rest) + Run(q', rest).Pending();
      CrashesOnlyDrop(q', rest);
      StepDrops(q, op, after, Written(rest));
      Associate(ReleasedBy(q, op), Released(q', rest), Run(q', rest).Pending());
    }
  }

  /** s can be obtained from t by dropping elements. */
  ghost predicate Subsequence(s: seq<Payload>, t: seq<Payload>) {
    if s == [] then true
    else if t == [] then false
    else (s[0] == t[0] && Subsequence(s[1..], t[1..])) || Subsequence(s, t[1..])
  }

  lemma {:induction false} SubsequenceOfItself(s: seq<Payload>)
    ensures Subsequence(s, s)
  {
    if s != [] {
      SubsequenceOfItself(s[1..]);
    }
  }

  lemma {:induction false} SubsequencePrepend(p: seq<Payload>, s: seq<Payload>, t: seq<Payload>)
    requires Subsequence(s, t)
    ensures Subsequence(p + s, p + t)
  {
    if p == [] {
      assert p + s == s && p + t == t;
    } else {
      SubsequencePrepend(p[1..], s, t);
      assert (p + s)[1..] == p[1..] + s && (p + t)[1..] == p[1..] + t;
    }
  }

  lemma {:induction false} SubsequenceWeaken(s: seq<Payload>, p: seq<Payload>, t: seq<Payload>)
    requires Subsequence(s, t)
    ensures Subsequence(s, p + t)
  {
    if p == [] {
      assert p + t == t;
    } else {
      SubsequenceWeaken(s, p[1..], t);
      assert (p + t)[1..] == p[1..] + t;
    }
  }

  lemma {:induction false} SubsequenceInsert(s: seq<Payload>, a: seq<Payload>, lost: seq<Payload>, b: seq<Payload>)
    requires Subsequence(s, a + b)
    ensures Subsequence(s, a + (lost + b))
    decreases |a|
  {
    if a == [] {
      assert a + b == b && a + (lost + b) == lost + b;
      SubsequenceWeaken(s, lost, b);
    } else {
      assert (a + b)[1..] == a[1..] + b && (a + (lost + b))[1..] == a[1..] + (lost + b);
      if s != [] {
        if s[0] == a[0] && Subsequence(s[1..], a[1..] + b) {
          SubsequenceInsert(s[1..], a[1..], lost, b);
        } else {
          SubsequenceInsert(s, a[1..], lost, b);
        }
      }
    }
  }
}
