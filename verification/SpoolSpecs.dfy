/** What src/transport_cache.c promises over whole runs, from the contracts of its operations: files come out in the order
    of their ids, and none is passed over. */
module SpoolSpecs {
  import opened CacheNames
  import opened FileIds
  import opened Spools

  /** The live files, how many of them were read, and the largest id so far. */
  datatype Spool = Spool(live: seq<Stored>, read: nat, newest: Fid) {
    predicate Ok() {
      && Increasing(live) && read <= |live| && forall x :: x in live ==> !After(x.id, newest)
    }

    /** Still to be read. */
    function Unread(): seq<Stored>
      requires Ok()
    {
      live[read..]
    }
  }

  /** A file is inserted; the next one is asked for, and is in memory or not; files are deleted. Saving and loading
      change nothing. */
  datatype Op = Insert(s: Stored) | Next(inMemory: bool) | Delete(fid: Fid)

  predicate Accepts(q: Spool, op: Op) {
    op.Insert? && After(op.s.id, q.newest)
  }

  predicate Delivers(q: Spool, op: Op) {
    op.Next? && op.inMemory && q.read < |q.live|
  }

  function Apply(q: Spool, op: Op): (r: Spool)
    requires q.Ok()
  {
    match op
    case Insert(s) => if Accepts(q, op) then q.(live := q.live + [s], newest := s.id) else q
    case Next(_) => if Delivers(q, op) then q.(read := q.read + 1) else q
    case Delete(fid) =>
      var rest := Above(q.live, fid);
      var k := |q.live| - |rest|;
      q.(live := rest, read := if q.read < k then 0 else q.read - k)
  }

  function AcceptedBy(q: Spool, op: Op): seq<Stored> {
    if Accepts(q, op) then [op.s] else []
  }

  function DeliveredBy(q: Spool, op: Op): seq<Stored> {
    if Delivers(q, op) then [q.live[q.read]] else []
  }

  /** What a deletion takes away unread. */
  function LostBy(q: Spool, op: Op): seq<Stored>
    requires q.Ok()
  {
    if op.Delete? then Upto(q.Unread(), op.fid) else []
  }

  /** The files up to an id. */
  function Upto(s: seq<Stored>, fid: Fid): seq<Stored> {
    if s == [] then []
    else if After(s[0].id, fid) then Upto(s[1..], fid)
    else [s[0]] + Upto(s[1..], fid)
  }

  lemma {:induction false} SplitAt(s: seq<Stored>, fid: Fid, k: nat)
    requires k <= |s| && forall i :: 0 <= i < |s| ==> (After(s[i].id, fid) <==> i >= k)
    ensures Upto(s, fid) == s[..k] && Above(s, fid) == s[k..]
    decreases |s|
  {
    if s != [] {
      SplitAt(s[1..], fid, if k == 0 then 0 else k - 1);
    }
  }

  lemma PartIncreases(s: seq<Stored>, k: nat)
    requires Increasing(s) && k <= |s|
    ensures Increasing(s[k..])
  {
  }

  /** Deleting takes the first files away, whether they were read or not. */
  lemma AfterDelete(q: Spool, fid: Fid)
    requires q.Ok()
    ensures var r := Apply(q, Delete(fid));
            && r.Ok() && LostBy(q, Delete(fid)) + r.Unread() == q.Unread() && r.Unread() == Above(q.Unread(), fid)
  {
    hide Above, Upto, Increasing;
    var k := AboveIsSuffix(q.live, fid);
    var unread := q.Unread();
    var j := if k < q.read then 0 else k - q.read;
    SplitAt(q.live, fid, k);
    assert forall i :: 0 <= i < |unread| ==> unread[i] == q.live[q.read + i];
    SplitAt(unread, fid, j);
    PartIncreases(q.live, k);
    assert q.live[k..][|q.live[k..]| - |unread[j..]|..] == unread[j..];
  }

  lemma AppliedIsOk(q: Spool, op: Op)
    requires q.Ok()
    ensures Apply(q, op).Ok()
  {
    if op.Delete? {
      AfterDelete(q, op.fid);
    }
  }

  /** Each step keeps every file: what was unread or is accepted is delivered, lost by a deletion, or unread. */
  lemma StepConserves(q: Spool, op: Op)
    requires q.Ok()
    ensures Apply(q, op).Ok()
    ensures DeliveredBy(q, op) + LostBy(q, op) + Apply(q, op).Unread() == q.Unread() + AcceptedBy(q, op)
  {
    hide Above, Upto, Increasing;
    AppliedIsOk(q, op);
    match op
    case Delete(fid) =>
      AfterDelete(q, fid);
      assert [] + LostBy(q, op) == LostBy(q, op);
    case Insert(s) =>
      if Accepts(q, op) {
        assert (q.live + [s])[q.read..] == q.live[q.read..] + [s];
      }
    case Next(_) =>
      if Delivers(q, op) {
        assert [q.live[q.read]] + [] + q.live[q.read + 1..] == q.live[q.read..];
      }
  }

  // Runs.

  function Run(q: Spool, ops: seq<Op>): (r: Spool)
    requires q.Ok()
    ensures r.Ok()
    decreases |ops|
  {
    if ops == [] then q
    else
      AppliedIsOk(q, ops[0]);
      Run(Apply(q, ops[0]), ops[1..])
  }

  function Delivered(q: Spool, ops: seq<Op>): seq<Stored>
    requires q.Ok()
    decreases |ops|
  {
    if ops == [] then []
    else
      AppliedIsOk(q, ops[0]);
      DeliveredBy(q, ops[0]) + Delivered(Apply(q, ops[0]), ops[1..])
  }

  function Accepted(q: Spool, ops: seq<Op>): seq<Stored>
    requires q.Ok()
    decreases |ops|
  {
    if ops == [] then []
    else
      AppliedIsOk(q, ops[0]);
      AcceptedBy(q, ops[0]) + Accepted(Apply(q, ops[0]), ops[1..])
  }

  function Lost(q: Spool, ops: seq<Op>): seq<Stored>
    requires q.Ok()
    decreases |ops|
  {
    if ops == [] then []
    else
      AppliedIsOk(q, ops[0]);
      LostBy(q, ops[0]) + Lost(Apply(q, ops[0]), ops[1..])
  }

  lemma RunUnfolds(q: Spool, ops: seq<Op>)
    requires q.Ok() && ops != []
    ensures Apply(q, ops[0]).Ok()
    ensures Run(q, ops) == Run(Apply(q, ops[0]), ops[1..])
    ensures Delivered(q, ops) == DeliveredBy(q, ops[0]) + Delivered(Apply(q, ops[0]), ops[1..])
    ensures Accepted(q, ops) == AcceptedBy(q, ops[0]) + Accepted(Apply(q, ops[0]), ops[1..])
    ensures Lost(q, ops) == LostBy(q, ops[0]) + Lost(Apply(q, ops[0]), ops[1..])
  {
    hide Apply, Accepts, Delivers, LostBy, DeliveredBy, AcceptedBy;
    AppliedIsOk(q, ops[0]);
  }

  lemma Sums(d: multiset<Stored>, l: multiset<Stored>, u': multiset<Stored>, u: multiset<Stored>, a: multiset<Stored>,
      ds: multiset<Stored>, ls: multiset<Stored>, final: multiset<Stored>, as': multiset<Stored>)
    requires d + l + u' == u + a && ds + ls + final == u' + as'
    ensures (d + ds) + (l + ls) + final == u + (a + as')
  {
    forall x ensures ((d + ds) + (l + ls) + final)[x] == (u + (a + as'))[x] {
      assert (d + l + u')[x] == (u + a)[x] && (ds + ls + final)[x] == (u' + as')[x];
    }
  }

  lemma Regroup(d: seq<Stored>, l: seq<Stored>, u: seq<Stored>, u': seq<Stored>, a: seq<Stored>,
      ds: seq<Stored>, ls: seq<Stored>, final: seq<Stored>, as': seq<Stored>)
    requires d + l + u' == u + a
    requires multiset(ds) + multiset(ls) + multiset(final) == multiset(u') + multiset(as')
    ensures multiset(d + ds) + multiset(l + ls) + multiset(final) == multiset(u) + multiset(a + as')
  {
    assert multiset(d) + multiset(l) + multiset(u') == multiset(d + l + u') == multiset(u + a) == multiset(u) + multiset(a);
    assert multiset(d + ds) == multiset(d) + multiset(ds) && multiset(l + ls) == multiset(l) + multiset(ls);
    assert multiset(a + as') == multiset(a) + multiset(as');
    Sums(multiset(d), multiset(l), multiset(u'), multiset(u), multiset(a), multiset(ds), multiset(ls), multiset(final),
         multiset(as'));
  }

  /** Over any run no file is passed over: the files that were unread or were accepted are, once each, those delivered,
      those deleted unread, and those still unread. */
  lemma {:induction false} NoFileSkipped(q: Spool, ops: seq<Op>)
    requires q.Ok()
    ensures multiset(Delivered(q, ops)) + multiset(Lost(q, ops)) + multiset(Run(q, ops).Unread())
            == multiset(q.Unread()) + multiset(Accepted(q, ops))
    decreases |ops|
  {
    hide Apply, Accepts, Delivers, LostBy, DeliveredBy, AcceptedBy, Run, Delivered, Accepted, Lost, Spool.Ok, Spool.Unread;
    if ops == [] {
      EmptyRun(q);
    } else {
      RunUnfolds(q, ops);
      StepConserves(q, ops[0]);
      var r, rest := Apply(q, ops[0]), ops[1..];
      NoFileSkipped(r, rest);
      Regroup(DeliveredBy(q, ops[0]), LostBy(q, ops[0]), q.Unread(), r.Unread(), AcceptedBy(q, ops[0]),
              Delivered(r, rest), Lost(r, rest), Run(r, rest).Unread(), Accepted(r, rest));
    }
  }

  lemma EmptyRun(q: Spool)
    requires q.Ok()
    ensures Delivered(q, []) == Lost(q, []) == Accepted(q, []) == [] && Run(q, []) == q
  {
  }

  /** All the ids of s are above low, or s is empty. */
  predicate AllAfter(s: seq<Stored>, low: Fid) {
    forall i :: 0 <= i < |s| ==> After(s[i].id, low)
  }

  /** After a step, what is unread is above everything that was below it, and above what was delivered. */
  lemma StepOrders(q: Spool, op: Op, low: Fid)
    requires q.Ok() && AllAfter(q.Unread(), low) && !After(low, q.newest)
    ensures var r := Apply(q, op);
            && r.Ok() && AllAfter(r.Unread(), low) && !After(low, r.newest)
            && (Delivers(q, op) ==>
                  && After(q.live[q.read].id, low)
                  && AllAfter(r.Unread(), q.live[q.read].id) && !After(q.live[q.read].id, r.newest))
  {
    hide Above;
    AppliedIsOk(q, op);
    match op
    case Insert(_) =>
    case Next(_) =>
      if Delivers(q, op) {
        assert q.Unread()[0] == q.live[q.read];
      }
    case Delete(fid) =>
      AfterDelete(q, fid);
      AboveKeeps(q.Unread(), fid);
  }

  /** Over any run the delivered ids strictly increase. */
  lemma {:induction false} DeliveredInOrder(q: Spool, ops: seq<Op>, low: Fid)
    requires q.Ok() && AllAfter(q.Unread(), low) && !After(low, q.newest)
    ensures Increasing(Delivered(q, ops)) && AllAfter(Delivered(q, ops), low)
    decreases |ops|
  {
    hide Apply, Accepts, LostBy, AcceptedBy, Run, Delivered, Accepted, Lost, Spool.Ok, Spool.Unread, Delivers;
    if ops == [] {
      EmptyRun(q);
    } else {
      RunUnfolds(q, ops);
      StepOrders(q, ops[0], low);
      var r, rest := Apply(q, ops[0]), ops[1..];
      if Delivers(q, ops[0]) {
        assert q.read < |q.live| by {
          CanDeliver(q, ops[0]);
        }
        var first := q.live[q.read];
        DeliveredInOrder(r, rest, first.id);
        FirstThenRest(first, Delivered(r, rest), low);
      } else {
        DeliveredInOrder(r, rest, low);
        assert [] + Delivered(r, rest) == Delivered(r, rest);
      }
    }
  }

  lemma CanDeliver(q: Spool, op: Op)
    requires Delivers(q, op)
    ensures q.read < |q.live|
  {
  }

  lemma FirstThenRest(first: Stored, rest: seq<Stored>, low: Fid)
    requires Increasing(rest) && AllAfter(rest, first.id) && After(first.id, low)
    ensures Increasing([first] + rest) && AllAfter([first] + rest, low)
  {
  }
}
