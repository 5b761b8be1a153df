/** What the reports of auto-mute say, over whole runs. */
module AutoMuteReports {
  import opened AutoMutes
  import opened Options
  import opened Sequences

  /** The messages discarded since the last report. */
  function SinceReport(trace: seq<Event>): nat {
    if trace == [] || trace[|trace| - 1].Report? then 0
    else SinceReport(trace[..|trace| - 1]) + if trace[|trace| - 1].Discarded? then 1 else 0
  }

  /** The time of the last report. */
  function LastReport(trace: seq<Event>): Option<int> {
    if trace == [] then None
    else if trace[|trace| - 1].Report? then Some(trace[|trace| - 1].time)
    else LastReport(trace[..|trace| - 1])
  }

  /** The messages discarded since full logging last started over, or, if it never did, on top of an initial value. */
  function Total(trace: seq<Event>, initial: nat): nat {
    if trace == [] then initial
    else
      match trace[|trace| - 1]
      case Exceeded(_) => 0
      case Restored => 0
      case Discarded(_) => Total(trace[..|trace| - 1], initial) + 1
      case Report(_, discarded, _, _) => if discarded == 0 then 0 else Total(trace[..|trace| - 1], initial)
      case Sent(_) => Total(trace[..|trace| - 1], initial)
  }

  /** Each report gives the exact number of messages discarded since the previous one, at least one interval ago, and
      the running total. */
  predicate ReportsOk(trace: seq<Event>, interval: nat, initial: nat) {
    trace == []
    || var before := trace[..|trace| - 1];
       && ReportsOk(before, interval, initial)
       && match trace[|trace| - 1]
          case Report(time, discarded, total, _) =>
            && discarded == SinceReport(before) && total == Total(before, initial)
            && (LastReport(before).Some? ==> time - LastReport(before).value >= interval * SECOND)
          case _ => true
  }

  lemma DidReports(k: Token, e: Event, interval: nat, initial: nat)
    ensures var t := k.Did(e).trace;
            && SinceReport(t) == (if e.Report? then 0 else SinceReport(k.trace) + if e.Discarded? then 1 else 0)
            && LastReport(t) == (if e.Report? then Some(e.time) else LastReport(k.trace))
            && Total(t, initial) == (match e
                                     case Exceeded(_) => 0
                                     case Restored => 0
                                     case Discarded(_) => Total(k.trace, initial) + 1
                                     case Report(_, discarded, _, _) => if discarded == 0 then 0 else Total(k.trace, initial)
                                     case Sent(_) => Total(k.trace, initial))
            && (ReportsOk(t, interval, initial) <==>
                  && ReportsOk(k.trace, interval, initial)
                  && (e.Report? ==>
                        && e.discarded == SinceReport(k.trace) && e.total == Total(k.trace, initial)
                        && (LastReport(k.trace).Some? ==> e.time - LastReport(k.trace).value >= interval * SECOND)))
  {
    assert k.Did(e).trace[..|k.trace|] == k.trace;
  }

  /** The counters of a token are those of its events. */
  predicate Inv(k: Token, initial: nat) {
    && ReportsOk(k.trace, k.interval, initial)
    && k.total == Total(k.trace, initial)
    && (if k.count == 0 then SinceReport(k.trace) == 0 && LastReport(k.trace) == None
        else
          && k.discarded == SinceReport(k.trace)
          && (k.count < k.maxMsg ==> k.discarded == 0)
          && (LastReport(k.trace).Some? ==> LastReport(k.trace).value <= k.t0))
  }

  lemma ElapsedIs(t: int, now: int, interval: nat)
    requires t <= now && Elapsed(t, now, interval)
    ensures now - t >= interval * SECOND
  {
  }

  lemma StepKeeps(k: Token, now: int, initial: nat)
    requires Inv(k, initial) && (k.count > 0 ==> k.t0 <= now && k.t1 <= now)
    ensures Inv(Step(k, now), initial)
    ensures Step(k, now).t0 <= now && Step(k, now).t1 <= now && Step(k, now).interval == k.interval
    ensures Step(k, now).count > 0
  {
    hide SinceReport, LastReport, Total, ReportsOk, Elapsed;
    var c := Started(k, now);
    var r := Report(now, c.discarded, c.total, c.count - 1);
    if EndOfInterval(c, now) {
      ElapsedIs(c.t0, now, c.interval);
    }
    DidReports(c, r, k.interval, initial);
    DidReports(c.Did(r), Restored, k.interval, initial);
    DidReports(EndInterval(c, now), Sent(now), k.interval, initial);
    DidReports(c, Discarded(now), k.interval, initial);
    DidReports(c, Sent(now), k.interval, initial);
    DidReports(c.Did(Sent(now)), Exceeded(c.count), k.interval, initial);
  }

  lemma {:induction false} RunKeeps(k: Token, times: seq<int>, initial: nat)
    requires Inv(k, initial) && InOrder(k, times)
    ensures ReportsOk(Run(k, times).trace, k.interval, initial)
    decreases |times|
  {
    hide Step, ReportsOk, SinceReport, LastReport, Total;
    if times != [] {
      StepKeeps(k, times[0], initial);
      RunKeeps(Step(k, times[0]), times[1..], initial);
    }
  }

  /** A new token, whose uninitialised fields hold any values. */
  function NewToken(maxMsg: nat, interval: nat, t0: int, t1: int, discarded: nat, total: nat): Token {
    Token(maxMsg, interval, 0, t0, t1, discarded, total, [])
  }

  /** Over any run of a new token: reports are exact and at least one interval apart, but for the initial value of the
      total. */
  lemma ReportsAreExact(maxMsg: nat, interval: nat, t0: int, t1: int, discarded: nat, total: nat, times: seq<int>)
    requires forall i, j :: 0 <= i < j < |times| ==> times[i] <= times[j]
    ensures ReportsOk(Run(NewToken(maxMsg, interval, t0, t1, discarded, total), times).trace, interval, total)
  {
    hide Step;
    RunKeeps(NewToken(maxMsg, interval, t0, t1, discarded, total), times, total);
  }

  /** A report after these events, when `calls` calls were made before it, gives the exact total if and only if it is not
      the first one, or the limit was reached before it, or the uninitialised value happens to be 0. */
  predicate ExactAfter(before: seq<Event>, total: nat, calls: nat, maxMsg: nat, initial: nat) {
    total == Total(before, 0) <==> LastReport(before).Some? || calls >= maxMsg || initial == 0
  }

  predicate TotalsOk(trace: seq<Event>, maxMsg: nat, initial: nat) {
    trace == []
    || var before, e := trace[..|trace| - 1], trace[|trace| - 1];
       TotalsOk(before, maxMsg, initial) && (e.Report? ==> ExactAfter(before, e.total, e.calls, maxMsg, initial))
  }

  /** The total of the token is exact from the first report or the limit on; before, it is the initial value and nothing
      was discarded. */
  predicate TotalInv(k: Token, initial: nat) {
    && TotalsOk(k.trace, k.maxMsg, initial)
    && (k.count == 0 ==> LastReport(k.trace) == None)
    && (0 < k.count < k.maxMsg ==> k.discarded == 0)
    && (if LastReport(k.trace).Some? || k.count >= k.maxMsg then k.total == Total(k.trace, 0)
        else k.total == initial && Total(k.trace, 0) == 0)
  }

  lemma DidTotals(k: Token, e: Event, initial: nat)
    ensures TotalsOk(k.Did(e).trace, k.maxMsg, initial) <==>
              && TotalsOk(k.trace, k.maxMsg, initial)
              && (e.Report? ==> ExactAfter(k.trace, e.total, e.calls, k.maxMsg, initial))
  {
    hide ExactAfter;
    assert k.Did(e).trace[..|k.trace|] == k.trace;
  }

  lemma TotalStepKeeps(k: Token, now: int, initial: nat)
    requires TotalInv(k, initial) && k.maxMsg >= 1
    ensures TotalInv(Step(k, now), initial) && Step(k, now).maxMsg == k.maxMsg
  {
    hide LastReport, Total, TotalsOk, Elapsed, ReportsOk, SinceReport;
    var c := Started(k, now);
    var r := Report(now, c.discarded, c.total, c.count - 1);
    DidReports(c, r, k.interval, 0);
    DidReports(c.Did(r), Restored, k.interval, 0);
    DidReports(EndInterval(c, now), Sent(now), k.interval, 0);
    DidReports(c, Discarded(now), k.interval, 0);
    DidReports(c, Sent(now), k.interval, 0);
    DidReports(c.Did(Sent(now)), Exceeded(c.count), k.interval, 0);
    DidTotals(c, r, initial);
    DidTotals(c.Did(r), Restored, initial);
    DidTotals(EndInterval(c, now), Sent(now), initial);
    DidTotals(c, Discarded(now), initial);
    DidTotals(c, Sent(now), initial);
    DidTotals(c.Did(Sent(now)), Exceeded(c.count), initial);
  }

  lemma {:induction false} TotalRunKeeps(k: Token, times: seq<int>, initial: nat)
    requires TotalInv(k, initial) && k.maxMsg >= 1
    ensures TotalsOk(Run(k, times).trace, k.maxMsg, initial)
    decreases |times|
  {
    hide Step, TotalsOk, LastReport, Total;
    if times != [] {
      TotalStepKeeps(k, times[0], initial);
      TotalRunKeeps(Step(k, times[0]), times[1..], initial);
    }
  }

  lemma {:induction false} TotalsAt(trace: seq<Event>, maxMsg: nat, initial: nat, p: nat)
    requires TotalsOk(trace, maxMsg, initial) && p < |trace| && trace[p].Report?
    ensures ExactAfter(trace[..p], trace[p].total, trace[p].calls, maxMsg, initial)
    decreases |trace|
  {
    hide ExactAfter;
    if p < |trace| - 1 {
      TotalsAt(trace[..|trace| - 1], maxMsg, initial, p);
      assert trace[..|trace| - 1][..p] == trace[..p];
    }
  }

  lemma {:induction false} HasReport(trace: seq<Event>)
    ensures LastReport(trace).Some? <==> exists q :: 0 <= q < |trace| && trace[q].Report?
    decreases |trace|
  {
    if trace != [] {
      var rest := trace[..|trace| - 1];
      HasReport(rest);
      assert forall q :: 0 <= q < |rest| ==> rest[q] == trace[q];
    }
  }

  /** Over any run of a new token with a limit of at least 1: the total a report gives is the number of messages
      discarded since full logging last started over if and only if it is not the first report, or it comes after at
      least as many calls as the limit, or the uninitialised value happens to be 0. */
  lemma TotalExactIff(maxMsg: nat, interval: nat, t0: int, t1: int, discarded: nat, initial: nat, times: seq<int>, p: nat)
    requires maxMsg >= 1
    requires var trace := Run(NewToken(maxMsg, interval, t0, t1, discarded, initial), times).trace;
             p < |trace| && trace[p].Report?
    ensures var trace := Run(NewToken(maxMsg, interval, t0, t1, discarded, initial), times).trace;
            trace[p].total == Total(trace[..p], 0) <==>
              (exists q :: 0 <= q < p && trace[q].Report?) || trace[p].calls >= maxMsg || initial == 0
  {
    hide Run, Total, LastReport, TotalsOk;
    var k := NewToken(maxMsg, interval, t0, t1, discarded, initial);
    var trace := Run(k, times).trace;
    assert TotalInv(k, initial) by {
      NewTotals(k, initial);
    }
    TotalRunKeeps(k, times, initial);
    TotalsAt(trace, maxMsg, initial, p);
    HasReport(trace[..p]);
    assert forall q :: 0 <= q < p ==> trace[..p][q] == trace[q];
  }

  lemma NewTotals(k: Token, initial: nat)
    requires k.trace == [] && k.count == 0 && k.total == initial && k.maxMsg >= 1
    ensures TotalInv(k, initial)
  {
  }

  /** Two messages five seconds apart with the default limits: the report prints the uninitialised total. */
  lemma FirstReportIsUninitialised(t0: int, t1: int, discarded: nat, total: nat)
    ensures Report(5 * SECOND, 0, total, 1) in Run(NewToken(10, 5, t0, t1, discarded, total), [0, 5 * SECOND]).trace
  {
    var k := NewToken(10, 5, t0, t1, discarded, total);
    var first := Step(k, 0);
    assert first.trace == [Sent(0)];
    var second := Step(first, 5 * SECOND);
    assert second.trace[1] == Report(5 * SECOND, 0, total, 1);
    assert [0, 5 * SECOND][1..] == [5 * SECOND] && [5 * SECOND][1..] == [];
    assert Run(second, []) == second;
    assert Run(first, [5 * SECOND]) == second;
  }

  // The ends of intervals.

  /** The time of the last call. */
  function LastCall(trace: seq<Event>): Option<int> {
    if trace == [] then None
    else
      match trace[|trace| - 1]
      case Sent(time) => Some(time)
      case Discarded(time) => Some(time)
      case _ => LastCall(trace[..|trace| - 1])
  }

  /** The running interval started with the first call, with the last report, or when the limit was reached. */
  function IntervalStart(trace: seq<Event>): Option<int> {
    if trace == [] then None
    else
      var rest := trace[..|trace| - 1];
      match trace[|trace| - 1]
      case Report(time, _, _, _) => Some(time)
      case Exceeded(_) => LastCall(rest)
      case Sent(time) => if IntervalStart(rest).Some? then IntervalStart(rest) else Some(time)
      case Discarded(time) => if IntervalStart(rest).Some? then IntervalStart(rest) else Some(time)
      case Restored => IntervalStart(rest)
  }

  lemma DidTimes(k: Token, e: Event)
    ensures var t, u := k.trace, k.Did(e).trace;
            && LastCall(u) == (match e
                               case Sent(time) => Some(time)
                               case Discarded(time) => Some(time)
                               case _ => LastCall(t))
            && IntervalStart(u) == (match e
                                    case Report(time, _, _, _) => Some(time)
                                    case Exceeded(_) => LastCall(t)
                                    case Sent(time) => if IntervalStart(t).Some? then IntervalStart(t) else Some(time)
                                    case Discarded(time) => if IntervalStart(t).Some? then IntervalStart(t) else Some(time)
                                    case Restored => IntervalStart(t))
  {
    assert k.Did(e).trace[..|k.trace|] == k.trace;
  }

  /** The times of the token are those of its events. */
  predicate TimesOk(k: Token) {
    if k.count == 0 then IntervalStart(k.trace) == None
    else IntervalStart(k.trace) == Some(k.t0) && LastCall(k.trace) == Some(k.t1)
  }

  lemma TimesStep(k: Token, now: int)
    requires TimesOk(k)
    ensures TimesOk(Step(k, now)) && LastCall(Step(k, now).trace) == Some(now)
  {
    hide LastCall, IntervalStart, Elapsed;
    var c := Started(k, now);
    var r := Report(now, c.discarded, c.total, c.count - 1);
    DidTimes(c, r);
    DidTimes(c.Did(r), Restored);
    DidTimes(EndInterval(c, now), Sent(now));
    DidTimes(c, Discarded(now));
    DidTimes(c, Sent(now));
    DidTimes(c.Did(Sent(now)), Exceeded(c.count));
  }

  /** After every ordered run of a new token. */
  lemma {:induction false} TimesRun(k: Token, times: seq<int>, initial: nat)
    requires TimesOk(k) && Inv(k, initial) && InOrder(k, times)
    ensures var r := Run(k, times);
            && TimesOk(r) && Inv(r, initial) && (times != [] ==> r.count > 0 && LastCall(r.trace) == Some(times[|times| - 1]))
            && (times != [] ==> r.t0 <= times[|times| - 1] && r.t1 == times[|times| - 1])
            && r.maxMsg == k.maxMsg && r.interval == k.interval
    decreases |times|
  {
    hide Step, ReportsOk, SinceReport, LastReport, Total, TimesOk, IntervalStart;
    if times != [] {
      StepKeeps(k, times[0], initial);
      TimesStep(k, times[0]);
      StepCounters(k, times[0]);
      TimesRun(Step(k, times[0]), times[1..], initial);
      assert Run(Step(k, times[0]), []) == Step(k, times[0]);
    }
  }

  lemma NewTimes(k: Token, initial: nat)
    requires k.trace == [] && k.count == 0 && k.total == initial
    ensures TimesOk(k) && Inv(k, initial)
  {
  }

  /** What the step of a call adds to the events: a report first, exactly at the end of an interval. */
  lemma StepAdds(k: Token, now: int)
    requires k.count > 0 && k.t0 <= now && k.t1 <= now
    ensures var s := Step(k, now);
            && |k.trace| < |s.trace| && k.trace == s.trace[..|k.trace|]
            && (s.trace[|k.trace|].Report? <==> Elapsed(k.t0, now, k.interval))
            && (Elapsed(k.t0, now, k.interval) ==>
                  (Restored in s.trace[|k.trace|..] <==> k.discarded > 0 && Elapsed(k.t1, now, k.interval)))
  {
    hide Elapsed;
    var s := Step(k, now);
    if Elapsed(k.t0, now, k.interval) {
      var r := Report(now, k.discarded, k.total, k.count);
      assert s.trace[|k.trace|..] ==
             if k.discarded > 0 && Elapsed(k.t1, now, k.interval) then [r, Restored, Sent(now)] else [r, Sent(now)];
    }
  }

  /** Calls above the limit before the end of the interval are all discarded. */
  lemma {:induction false} AllDiscarded(k: Token, now: int, n: nat)
    requires k.count >= k.maxMsg && k.count > 0 && k.t0 <= now && !Elapsed(k.t0, now, k.interval)
    ensures SentCount(Run(k, Repeat(n, now)).trace) == SentCount(k.trace)
    decreases n
  {
    hide SentCount, Step, Elapsed;
    if n > 0 {
      assert Repeat(n, now)[1..] == Repeat(n - 1, now);
      StepCounts(k, now);
      StepCounters(k, now);
      AllDiscarded(Step(k, now), now, n - 1);
    } else {
      assert Repeat(0, now) == [];
    }
  }

  /** After the end of an interval full logging is back, so that as many messages as the limit are logged, if nothing was
      discarded in it or if nothing came for an interval; otherwise only the message that ended it is logged. */
  lemma AfterInterval(k: Token, now: int, n: nat)
    requires k.count > 0 && k.maxMsg >= 1 && k.interval >= 1 && k.t0 <= now && k.t1 <= now && Elapsed(k.t0, now, k.interval)
    requires k.count < k.maxMsg ==> k.discarded == 0
    ensures if k.discarded == 0 || Elapsed(k.t1, now, k.interval)
            then SentCount(Run(Step(k, now), Repeat(k.maxMsg - 1, now)).trace) == SentCount(k.trace) + k.maxMsg
            else SentCount(Run(Step(k, now), Repeat(n, now)).trace) == SentCount(k.trace) + 1
  {
    hide SentCount, Elapsed, Run;
    StepCounts(k, now);
    StepCounters(k, now);
    NotElapsed(now, now, now, k.interval);
    var s := Step(k, now);
    if k.discarded == 0 || Elapsed(k.t1, now, k.interval) {
      assert s.count == 1 && s.discarded == 0 && s.t0 == now;
      WithinLimit(s, now, k.maxMsg - 1);
    } else {
      assert s.count == k.count + 1;
      AllDiscarded(s, now, n);
    }
  }

  /** After every run of a new token: a call ends the interval, with a report, exactly when the interval started long enough
      ago; it then reports a return to full logging exactly when messages were discarded since the last report and none came
      for an interval; and full logging is back, for as many messages as the limit, exactly then or when none was discarded. */
  lemma RestoredIff(maxMsg: nat, interval: nat, t0: int, t1: int, discarded: nat, total: nat, times: seq<int>, now: int, n: nat)
    requires maxMsg >= 1 && interval >= 1 && times != [] && times[|times| - 1] <= now
    requires forall i, j :: 0 <= i < j < |times| ==> times[i] <= times[j]
    ensures var k := Run(NewToken(maxMsg, interval, t0, t1, discarded, total), times);
            var s := Step(k, now);
            var quiet := (now - times[|times| - 1]) / SECOND >= interval;
            && IntervalStart(k.trace).Some? && |k.trace| < |s.trace|
            && (s.trace[|k.trace|].Report? <==> (now - IntervalStart(k.trace).value) / SECOND >= interval)
            && (s.trace[|k.trace|].Report? ==>
                  && (Restored in s.trace[|k.trace|..] <==> SinceReport(k.trace) > 0 && quiet)
                  && if SinceReport(k.trace) == 0 || quiet
                     then SentCount(Run(s, Repeat(maxMsg - 1, now)).trace) == SentCount(k.trace) + maxMsg
                     else SentCount(Run(s, Repeat(n, now)).trace) == SentCount(k.trace) + 1)
  {
    hide Run, Step, SentCount, IntervalStart, LastCall, SinceReport, LastReport, Total, ReportsOk;
    var token := NewToken(maxMsg, interval, t0, t1, discarded, total);
    NewTimes(token, total);
    TimesRun(token, times, total);
    var k := Run(token, times);
    StepAdds(k, now);
    if Elapsed(k.t0, now, k.interval) {
      AfterInterval(k, now, n);
    }
  }
}
