/** Auto-mute of src/InfoLogger.cxx: limits the messages that share a token. Times are in nanoseconds of a steady
    clock. */
module AutoMutes {
  import opened Sequences

  const SECOND := 1_000_000_000

  /** What a call does, in order: a report ends an interval, a message is sent, a warning announces muting. */
  datatype Event =
    | Sent(time: int)
    | Discarded(time: int)
    | Report(time: int, discarded: nat, total: nat, calls: nat)
    | Restored
    | Exceeded(count: nat)

  /** The token: its limits, its counters and the events so far. */
  datatype Token = Token(maxMsg: nat, interval: nat, count: nat, t0: int, t1: int, discarded: nat, total: nat,
                         trace: seq<Event>)
  {
    function Did(e: Event): Token {
      this.(trace := trace + [e])
    }
  }

  /** Whole seconds from t to now reach the interval; durations are truncated. */
  predicate Elapsed(t: int, now: int, interval: nat)
    requires t <= now
  {
    (now - t) / SECOND >= interval
  }

  function Started(k: Token, now: int): Token {
    var c := k.(count := k.count + 1);
    if c.count == 1 then c.(t0 := now, discarded := 0) else c
  }

  predicate EndOfInterval(c: Token, now: int) {
    c.count > 1 && c.t0 <= now && Elapsed(c.t0, now, c.interval)
  }

  /** The call is discarded. */
  predicate Discards(k: Token, now: int) {
    Started(k, now).count > k.maxMsg && !EndOfInterval(Started(k, now), now)
  }

  /** A call of log with the token at time now. */
  function Step(k: Token, now: int): Token {
    var c := Started(k, now);
    if EndOfInterval(c, now) then EndInterval(c, now).Did(Sent(now)).(t1 := now)
    else if c.count > c.maxMsg then
      c.(discarded := c.discarded + 1, total := c.total + 1, t1 := now).Did(Discarded(now))
    else if c.count == c.maxMsg then
      c.Did(Sent(now)).Did(Exceeded(c.count)).(t0 := now, discarded := 0, total := 0, t1 := now)
    else c.Did(Sent(now)).(t1 := now)
  }

  /** The end of an interval: a report, and full logging again if nothing was discarded or nothing came for a while. */
  function EndInterval(c: Token, now: int): Token
    requires c.count > 0
  {
    var r := c.Did(Report(now, c.discarded, c.total, c.count - 1));
    var s := if c.discarded == 0 then r.(count := 1, total := 0)
             else if c.t1 <= now && Elapsed(c.t1, now, c.interval) then r.(count := 1, total := 0).Did(Restored)
             else r;
    s.(discarded := 0, t0 := now)
  }

  class AutoMuteToken {
    const maxMsg: nat
    const interval: nat
    var count: nat
    var t0: int
    var t1: int
    var ndiscarded: nat
    var ndiscardedtotal: nat

    /** What was logged or discarded. */
    var trace: seq<Event>

    ghost function View(): Token
      reads this
    {
      Token(maxMsg, interval, count, t0, t1, ndiscarded, ndiscardedtotal, trace)
    }

    /** Only the limits and the count are initialised: the other fields have any value. */
    constructor (maxMsg: nat, interval: nat, t0: int, t1: int, ndiscarded: nat, ndiscardedtotal: nat)
      ensures View() == Token(maxMsg, interval, 0, t0, t1, ndiscarded, ndiscardedtotal, [])
    {
      this.maxMsg, this.interval, count := maxMsg, interval, 0;
      this.t0, this.t1, this.ndiscarded, this.ndiscardedtotal := t0, t1, ndiscarded, ndiscardedtotal;
      trace := [];
    }

    /** log with a token; false when the message is discarded. */
    method Log(now: int) returns (logged: bool)
      requires count > 0 ==> t0 <= now && t1 <= now
      modifies this
      ensures View() == Step(old(View()), now)
      ensures logged == !Discards(old(View()), now)
    {
      count := count + 1;
      var n := count;
      if n == 1 {
        t0 := now;
        ndiscarded := 0;
      }
      var endOfInterval := n > 1 && (now - t0) / SECOND >= interval;
      if n > maxMsg && !endOfInterval {
        ndiscarded := ndiscarded + 1;
        ndiscardedtotal := ndiscardedtotal + 1;
        t1 := now;
        trace := trace + [Discarded(now)];
        return false;
      }
      if endOfInterval {
        trace := trace + [Report(now, ndiscarded, ndiscardedtotal, n - 1)];
        if ndiscarded == 0 || (now - t1) / SECOND >= interval {
          count := 1;
          if ndiscarded != 0 {
            trace := trace + [Restored];
          }
          ndiscardedtotal := 0;
        }
        ndiscarded := 0;
        t0 := now;
      }
      trace := trace + [Sent(now)];
      if !endOfInterval {
        if n == maxMsg {
          trace := trace + [Exceeded(n)];
          t0 := now;
          ndiscarded := 0;
          ndiscardedtotal := 0;
        }
      }
      t1 := now;
      logged := true;
    }
  }

  // Runs.

  /** Calls at nondecreasing times, none of them before the token was last used. */
  predicate InOrder(k: Token, times: seq<int>) {
    && (forall i, j :: 0 <= i < j < |times| ==> times[i] <= times[j])
    && (k.count > 0 && times != [] ==> k.t0 <= times[0] && k.t1 <= times[0])
  }

  function Run(k: Token, times: seq<int>): Token
    decreases |times|
  {
    if times == [] then k else Run(Step(k, times[0]), times[1..])
  }

  function SentCount(trace: seq<Event>): nat {
    if trace == [] then 0 else SentCount(trace[..|trace| - 1]) + if trace[|trace| - 1].Sent? then 1 else 0
  }

  function DiscardedCount(trace: seq<Event>): nat {
    if trace == [] then 0 else DiscardedCount(trace[..|trace| - 1]) + if trace[|trace| - 1].Discarded? then 1 else 0
  }

  lemma CountDid(k: Token, e: Event)
    ensures SentCount(k.Did(e).trace) == SentCount(k.trace) + if e.Sent? then 1 else 0
    ensures DiscardedCount(k.Did(e).trace) == DiscardedCount(k.trace) + if e.Discarded? then 1 else 0
  {
    assert k.Did(e).trace[..|k.trace|] == k.trace;
  }

  /** The counters after a call. */
  lemma StepCounters(k: Token, now: int)
    ensures var s, c := Step(k, now), Started(k, now);
            var ends := EndOfInterval(c, now);
            && s.maxMsg == k.maxMsg && s.interval == k.interval && s.t1 == now
            && s.t0 == (if c.count == 1 || ends || c.count == c.maxMsg then now else k.t0)
            && (s.count == c.count || (ends && s.count == 1)) && (ends && c.discarded == 0 ==> s.count == 1)
            && (s.discarded == if Discards(k, now) then c.discarded + 1
                               else if ends || c.count == c.maxMsg then 0 else c.discarded)
  {
  }

  /** A call is logged once or discarded once. */
  lemma StepCounts(k: Token, now: int)
    ensures var s := Step(k, now);
            && SentCount(s.trace) == SentCount(k.trace) + (if Discards(k, now) then 0 else 1)
            && DiscardedCount(s.trace) == DiscardedCount(k.trace) + (if Discards(k, now) then 1 else 0)
  {
    hide SentCount, DiscardedCount;
    var c := Started(k, now);
    var r := Report(now, c.discarded, c.total, c.count - 1);
    CountDid(c, r);
    CountDid(c.Did(r), Restored);
    CountDid(EndInterval(c, now), Sent(now));
    CountDid(c, Discarded(now));
    CountDid(c, Sent(now));
    CountDid(c.Did(Sent(now)), Exceeded(c.count));
  }

  /** Over any run, each call is logged or discarded. */
  lemma {:induction false} EveryCallCounted(k: Token, times: seq<int>)
    ensures var r := Run(k, times);
            SentCount(r.trace) + DiscardedCount(r.trace) == SentCount(k.trace) + DiscardedCount(k.trace) + |times|
    decreases |times|
  {
    hide SentCount, DiscardedCount, Step, Discards;
    if times != [] {
      StepCounts(k, times[0]);
      EveryCallCounted(Step(k, times[0]), times[1..]);
    }
  }

  /** Calls from time a on, within less than an interval. */
  predicate Within(a: int, times: seq<int>, interval: nat) {
    forall i :: 0 <= i < |times| ==> a <= times[i] < a + interval * SECOND
  }

  lemma WithinTail(a: int, times: seq<int>, interval: nat)
    requires times != [] && Within(a, times, interval)
    ensures a <= times[0] < a + interval * SECOND && Within(a, times[1..], interval)
  {
  }

  /** An interval cannot end in the span when it started in it. */
  lemma NotElapsed(a: int, t0: int, now: int, interval: nat)
    requires a <= t0 <= now < a + interval * SECOND
    ensures !Elapsed(t0, now, interval)
  {
  }

  /** Once the interval started in the span, only the messages up to the limit are logged. */
  lemma {:induction false} LoggedAfterStart(k: Token, a: int, times: seq<int>)
    requires k.count >= 1 && k.t0 >= a && Within(a, times, k.interval)
    ensures var more := SentCount(Run(k, times).trace) - SentCount(k.trace);
            more <= if k.count < k.maxMsg then k.maxMsg - k.count else 0
    decreases |times|
  {
    hide SentCount, Step, Elapsed, Within;
    if times != [] {
      WithinTail(a, times, k.interval);
      var now := times[0];
      if k.t0 <= now {
        NotElapsed(a, k.t0, now, k.interval);
      }
      StepCounts(k, now);
      StepCounters(k, now);
      LoggedAfterStart(Step(k, now), a, times[1..]);
    }
  }

  /** The most that a span shorter than an interval lets through, after `count` messages were counted. */
  function Most(maxMsg: nat, count: nat): nat {
    maxMsg + if count > 0 && count + 1 < maxMsg then maxMsg - 1 - count else 0
  }

  lemma {:induction false} LoggedInSpan(k: Token, a: int, times: seq<int>)
    requires k.maxMsg >= 1 && Within(a, times, k.interval)
    ensures SentCount(Run(k, times).trace) - SentCount(k.trace) <= Most(k.maxMsg, k.count)
    decreases |times|
  {
    hide SentCount, Step, Elapsed, Within;
    if times != [] {
      WithinTail(a, times, k.interval);
      var now := times[0];
      StepCounts(k, now);
      StepCounters(k, now);
      if Step(k, now).t0 == now {
        LoggedAfterStart(Step(k, now), a, times[1..]);
      } else {
        LoggedInSpan(Step(k, now), a, times[1..]);
      }
    }
  }

  lemma {:induction false} RunSplits(k: Token, times: seq<int>, more: seq<int>)
    ensures Run(k, times + more) == Run(Run(k, times), more)
    decreases |times|
  {
    hide Step;
    if times == [] {
      assert times + more == more;
    } else {
      assert (times + more)[0] == times[0] && (times + more)[1..] == times[1..] + more;
      RunSplits(Step(k, times[0]), times[1..], more);
    }
  }

  /** Any span shorter than the interval, anywhere in a run, lets through at most one message if the limit is one, and
      at most twice the limit minus two otherwise. */
  lemma SpanBound(k: Token, before: seq<int>, a: int, span: seq<int>)
    requires k.maxMsg >= 1 && Within(a, span, k.interval)
    ensures SentCount(Run(k, before + span).trace) - SentCount(Run(k, before).trace)
            <= SpanMost(k.maxMsg)
  {
    hide SentCount, Step, Within;
    RunSplits(k, before, span);
    LimitsStay(k, before);
    LoggedInSpan(Run(k, before), a, span);
  }

  lemma {:induction false} LimitsStay(k: Token, times: seq<int>)
    ensures Run(k, times).maxMsg == k.maxMsg && Run(k, times).interval == k.interval
    decreases |times|
  {
    hide Step;
    if times != [] {
      StepCounters(k, times[0]);
      LimitsStay(Step(k, times[0]), times[1..]);
    }
  }

  /** The most that a span shorter than the interval lets through. */
  function SpanMost(maxMsg: nat): nat
    requires maxMsg >= 1
  {
    if maxMsg == 1 then 1 else 2 * maxMsg - 2
  }

  /** Calls within the limit, before the end of the interval, are all logged. */
  lemma {:induction false} WithinLimit(k: Token, now: int, n: nat)
    requires 0 < k.count && k.count + n <= k.maxMsg && k.t0 <= now && !Elapsed(k.t0, now, k.interval)
    requires 0 < k.interval && k.discarded == 0
    ensures var r := Run(k, Repeat(n, now));
            && SentCount(r.trace) == SentCount(k.trace) + n
            && r.count == k.count + n && r.maxMsg == k.maxMsg && r.interval == k.interval && r.discarded == 0
            && (r.count < r.maxMsg ==> r.t0 == k.t0)
    decreases n
  {
    hide SentCount, Step, Elapsed;
    if n > 0 {
      assert Repeat(n, now)[1..] == Repeat(n - 1, now);
      StepCounts(k, now);
      StepCounters(k, now);
      assert !Elapsed(now, now, k.interval) by {
        NotElapsed(now, now, now, k.interval);
      }
      WithinLimit(Step(k, now), now, n - 1);
    } else {
      assert Repeat(0, now) == [];
    }
  }

  /** The first call of an interval that just ended without discarding anything starts the count over. */
  lemma EndStep(k: Token, now: int)
    requires 0 < k.count < k.maxMsg && k.t0 <= now && Elapsed(k.t0, now, k.interval) && k.discarded == 0
    ensures var r := Step(k, now);
            && SentCount(r.trace) == SentCount(k.trace) + 1
            && r.count == 1 && r.t0 == now && r.discarded == 0 && r.maxMsg == k.maxMsg && r.interval == k.interval
  {
    hide SentCount, Step;
    StepCounts(k, now);
    StepCounters(k, now);
  }

  /** The bound is reached, for every limit and every interval: one call, then all but one of the calls up to the limit at
      the very end of the interval, and the same number again, plus one that ends the interval, right after it. */
  lemma BoundReached(k: Token) returns (before: seq<int>, a: int, span: seq<int>)
    requires k.count == 0 && k.trace == [] && k.maxMsg >= 1 && k.interval >= 1
    ensures Within(a, span, k.interval)
    ensures SentCount(Run(k, before + span).trace) - SentCount(Run(k, before).trace) == SpanMost(k.maxMsg)
  {
    hide SentCount, Step, Elapsed, Within;
    var end := k.interval * SECOND;
    StepCounts(k, 0);
    StepCounters(k, 0);
    assert Run(Step(k, 0), []) == Step(k, 0);
    assert [0][1..] == [];
    if k.maxMsg == 1 {
      before, a, span := [], 0, [0];
      OneWithin(k.interval);
      assert [] + span == span;
    } else {
      var first, second := Repeat(k.maxMsg - 2, end - 1), Repeat(k.maxMsg - 1, end);
      before, a, span := [0], end - 1, first + ([end] + second);
      SpanWithin(end, k.interval, first, second);
      RunSplits(k, before, span);
      var b := Step(k, 0);
      NotElapsed(0, 0, end - 1, k.interval);
      WithinLimit(b, end - 1, k.maxMsg - 2);
      RunSplits(b, first, [end] + second);
      var c := Run(b, first);
      IntervalElapsed(end, k.interval);
      EndStep(c, end);
      NotElapsed(end, end, end, k.interval);
      WithinLimit(Step(c, end), end, k.maxMsg - 1);
      assert ([end] + second)[1..] == second;
    }
  }

  lemma IntervalElapsed(end: int, interval: nat)
    requires end == interval * SECOND
    ensures Elapsed(0, end, interval)
  {
  }

  lemma OneWithin(interval: nat)
    requires interval >= 1
    ensures Within(0, [0], interval)
  {
  }

  lemma SpanWithin(end: int, interval: nat, first: seq<int>, second: seq<int>)
    requires end == interval * SECOND && interval >= 1
    requires (forall i :: 0 <= i < |first| ==> first[i] == end - 1) && forall i :: 0 <= i < |second| ==> second[i] == end
    ensures Within(end - 1, first + ([end] + second), interval)
  {
  }
}
