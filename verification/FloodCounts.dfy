/** Exactly when the flood protection lets a message through, from what happened alone: the fields of the guard are what its
    events and their times say. */
module FloodCounts {
  import opened FloodGuards
  import opened FloodSpecs

  /** The messages and warnings that arrived in the running interval; the marker is the event that starts intervals. */
  function Arrivals(trace: seq<Event>, marker: Event): nat {
    if trace == [] then 0
    else
      var rest, e := trace[..|trace| - 1], trace[|trace| - 1];
      if e.Restarted? then 0
      else if e == marker then 1
      else Arrivals(rest, marker) + if e.Arrived? then 1 else 0
  }

  /** When the last message or warning arrived. */
  function LastArrival(trace: seq<Event>, start: real): real {
    if trace == [] then start
    else if trace[|trace| - 1].Arrived? then trace[|trace| - 1].time
    else LastArrival(trace[..|trace| - 1], start)
  }

  /** When the running interval started; resets count whole seconds. */
  function StartOf(trace: seq<Event>, marker: Event, start: real): real {
    if trace == [] then start.Floor as real
    else
      var rest, e := trace[..|trace| - 1], trace[|trace| - 1];
      if e.Restarted? then e.time.Floor as real
      else if e == marker then LastArrival(rest, start)
      else StartOf(rest, marker, start)
  }

  /** The arrivals of the last full minute; the one that started the running minute does not belong to it. After a reset
      there is no full minute yet, and it counts as not quiet. */
  function LastFullMinute(trace: seq<Event>): int {
    if trace == [] then MAX_RESET
    else
      var rest, e := trace[..|trace| - 1], trace[|trace| - 1];
      if e.Restarted? then MAX_RESET
      else if e == MinuteStarted then Arrivals(rest, MinuteStarted) - 1
      else LastFullMinute(rest)
  }

  /** The fields are what the events say. */
  predicate CountsOk(f: Flood, start: real) {
    && f.second == Arrivals(f.trace, SecondStarted) && f.minute == Arrivals(f.trace, MinuteStarted)
    && f.secondStart == StartOf(f.trace, SecondStarted, start) && f.minuteStart == StartOf(f.trace, MinuteStarted, start)
    && f.lastMinute == LastFullMinute(f.trace)
  }

  lemma DidCounts(f: Flood, e: Event, start: real)
    ensures var t, u := f.trace, f.Did(e).trace;
            && (forall m :: Arrivals(u, m) == if e.Restarted? then 0 else if e == m then 1
                                              else Arrivals(t, m) + if e.Arrived? then 1 else 0)
            && (forall m :: StartOf(u, m, start) == if e.Restarted? then e.time.Floor as real
                                                    else if e == m then LastArrival(t, start) else StartOf(t, m, start))
            && LastFullMinute(u) == (if e.Restarted? then MAX_RESET
                                     else if e == MinuteStarted then Arrivals(t, MinuteStarted) - 1 else LastFullMinute(t))
            && LastArrival(u, start) == if e.Arrived? then e.time else LastArrival(t, start)
  {
    assert f.Did(e).trace[..|f.trace|] == f.trace;
  }

  /** An event that is neither an arrival nor the start of an interval. */
  lemma SilentCounts(f: Flood, e: Event, start: real)
    requires CountsOk(f, start) && !e.Arrived? && !e.Restarted? && e != SecondStarted && e != MinuteStarted
    ensures CountsOk(f.Did(e), start)
  {
    hide Arrivals, StartOf, LastFullMinute;
    DidCounts(f, e, start);
  }

  lemma SameCounts(f: Flood, g: Flood, start: real)
    requires CountsOk(f, start) && g.trace == f.trace && g.second == f.second && g.minute == f.minute
    requires g.secondStart == f.secondStart && g.minuteStart == f.minuteStart && g.lastMinute == f.lastMinute
    ensures CountsOk(g, start)
  {
    hide Arrivals, StartOf, LastFullMinute;
  }

  lemma CountedCounts(f: Flood, now: real, start: real)
    requires CountsOk(f, start)
    ensures CountsOk(Counted(f, now), start)
  {
    hide Arrivals, StartOf, LastFullMinute, LastArrival;
    var a := f.Did(Arrived(now));
    DidCounts(f, Arrived(now), start);
    var h := a.(secondStart := now, second := 1);
    DidCounts(h, SecondStarted, start);
    var g := if now - a.secondStart > 1.0 then h.Did(SecondStarted) else a.(second := a.second + 1);
    var k := g.(minuteStart := now, lastMinute := g.minute, minute := 1);
    DidCounts(k, MinuteStarted, start);
  }

  lemma WarnedCounts(f: Flood, w: Warning, now: real, start: real)
    requires CountsOk(f, start)
    ensures CountsOk(WarnedBy(f, w, now), start)
  {
    hide CountsOk, Counted;
    CountedCounts(f, now, start);
    SilentCounts(Counted(f, now), Warned(w), start);
  }

  lemma ResumeCounts(f: Flood, msg: string, later: real, start: real)
    requires CountsOk(f, start)
    ensures CountsOk(Resume(f, msg, later), start)
  {
    hide Arrivals, StartOf, LastFullMinute, LastArrival, WarnedBy;
    var g := WarnedBy(f, Resumed(f.stored, f.dropped), later);
    WarnedCounts(f, Resumed(f.stored, f.dropped), later, start);
    var r := Reset(later, g.trace);
    DidCounts(r, Restarted(later), start);
    SilentCounts(r.Did(Restarted(later)), Emitted(msg), start);
  }

  lemma DropCounts(f: Flood, msg: string, later: real, start: real)
    requires CountsOk(f, start)
    ensures CountsOk(DropIt(f, msg, later), start)
  {
    hide CountsOk, Resume;
    ResumeCounts(f, msg, later, start);
    SameCounts(f, f.(dropped := f.dropped + 1), start);
    SilentCounts(f.(dropped := f.dropped + 1), Dropped(msg), start);
  }

  lemma StoreCounts(f: Flood, msg: string, later: real, start: real)
    requires CountsOk(f, start)
    ensures CountsOk(StoreIt(f, msg, later), start)
  {
    hide CountsOk, Resume, DropIt, WarnedBy;
    ResumeCounts(f, msg, later, start);
    SameCounts(f, f.(open := false), start);
    WarnedCounts(f.(open := false), FileFull, later, start);
    var w := WarnedBy(f.(open := false), FileFull, later);
    SameCounts(w, w.(mode := Dropping), start);
    DropCounts(w.(mode := Dropping), msg, later, start);
    SameCounts(f, f.(stored := f.stored + 1), start);
    SilentCounts(f.(stored := f.stored + 1), Stored(msg), start);
  }

  lemma StepCounts(f: Flood, i: Input, start: real)
    requires CountsOk(f, start)
    ensures CountsOk(Step(f, i.msg, i.now, i.later, i.opens), start)
  {
    hide CountsOk, StoreIt, DropIt, WarnedBy, Counted;
    CountedCounts(f, i.now, start);
    var c := Counted(f, i.now);
    var d := c.(stored := 0, dropped := 0, open := i.opens, mode := if i.opens then Storing else Dropping);
    SameCounts(c, d, start);
    WarnedCounts(d, Detected(i.opens), i.later, start);
    var w := WarnedBy(d, Detected(i.opens), i.later);
    StoreCounts(w, i.msg, i.later, start);
    DropCounts(w, i.msg, i.later, start);
    StoreCounts(c, i.msg, i.later, start);
    DropCounts(c, i.msg, i.later, start);
    SilentCounts(c, Emitted(i.msg), start);
  }

  lemma {:induction false} RunCounts(start: real, inputs: seq<Input>)
    ensures CountsOk(Run(Reset(start, []), inputs), start)
    decreases |inputs|
  {
    hide Step;
    if inputs != [] {
      hide CountsOk;
      var rest, i := inputs[..|inputs| - 1], inputs[|inputs| - 1];
      RunCounts(start, rest);
      StepCounts(Run(Reset(start, []), rest), i, start);
    }
  }

  // What becomes of a message.

  /** The arrivals in the second or the minute of a message that arrives now, itself included. */
  function ArrivalsWith(trace: seq<Event>, marker: Event, start: real, now: real): nat {
    if now - StartOf(trace, marker, start) > (if marker == SecondStarted then 1.0 else 60.0) then 1
    else Arrivals(trace, marker) + 1
  }

  /** The arrivals of the last full minute, for a message that arrives now. */
  function FullMinuteBefore(trace: seq<Event>, start: real, now: real): int {
    if now - StartOf(trace, MinuteStarted, start) > 60.0 then Arrivals(trace, MinuteStarted) else LastFullMinute(trace)
  }

  lemma CountedIs(f: Flood, now: real, start: real)
    requires CountsOk(f, start)
    ensures var c := Counted(f, now);
            && c.second == ArrivalsWith(f.trace, SecondStarted, start, now)
            && c.minute == ArrivalsWith(f.trace, MinuteStarted, start, now)
            && c.lastMinute == FullMinuteBefore(f.trace, start, now)
            && f.trace <= c.trace && forall e :: e in Since(f.trace, c.trace) ==> e.Arrived? || e == SecondStarted || e == MinuteStarted
  {
    hide Arrivals, StartOf, LastFullMinute;
  }

  /** Outside of a flood episode a message is emitted at once exactly when its second holds at most MAX_SECOND arrivals and its
      minute at most MAX_MINUTE; otherwise the guard announces a flood. This holds after every run. */
  lemma EmittedAtOnceIff(start: real, inputs: seq<Input>, i: Input)
    requires !Track(Run(Reset(start, []), inputs).trace).on
    ensures var f := Run(Reset(start, []), inputs);
            var g := Step(f, i.msg, i.now, i.later, i.opens);
            && f.trace <= g.trace
            && (if && ArrivalsWith(f.trace, SecondStarted, start, i.now) <= MAX_SECOND
                   && ArrivalsWith(f.trace, MinuteStarted, start, i.now) <= MAX_MINUTE
                then
                  && Emitted(i.msg) in Since(f.trace, g.trace)
                  && forall e :: e in Since(f.trace, g.trace) && (IsMessage(e) || e.Warned?) ==> e == Emitted(i.msg)
                else Warned(Detected(i.opens)) in Since(f.trace, g.trace))
  {
    hide Run, Arrivals, StartOf, LastFullMinute, Track, Counted, ArrivalsWith, Detect;
    var f := Run(Reset(start, []), inputs);
    RunCounts(start, inputs);
    RunKeeps(start, inputs);
    CountedIs(f, i.now, start);
    var c := Counted(f, i.now);
    assert f.mode == Normal;
    if InExcess(c) {
      DetectEvents(c, i.msg, i.later, i.opens);
      SinceBoth(f.trace, c.trace, Detect(c, i.msg, i.later, i.opens).trace);
    } else {
      var g := c.Did(Emitted(i.msg));
      assert Since(c.trace, g.trace) == [Emitted(i.msg)];
      SinceBoth(f.trace, c.trace, g.trace);
    }
  }

  /** What happens to a message inside an episode: it is emitted, after a report, or it is the only message or warning. */
  ghost predicate EpisodeEvents(events: seq<Event>, quiet: bool, storing: bool, episode: Episode, msg: string) {
    if quiet then
      && Warned(Resumed(episode.stored, episode.dropped)) in events
      && forall e :: e in events && IsMessage(e) <==> e == Emitted(msg)
    else forall e :: e in events && (IsMessage(e) || e.Warned?) <==> e == if storing then Stored(msg) else Dropped(msg)
  }

  lemma MoreEvents(a: seq<Event>, b: seq<Event>, quiet: bool, storing: bool, episode: Episode, msg: string)
    requires forall e :: e in a ==> e.Arrived? || e == SecondStarted || e == MinuteStarted
    requires EpisodeEvents(b, quiet, storing, episode, msg)
    ensures EpisodeEvents(a + b, quiet, storing, episode, msg)
  {
  }

  lemma EpisodeStep(c: Flood, msg: string, later: real)
    requires c.mode == Dropping || (c.mode == Storing && c.stored < MAX_FILE)
    ensures var g := if c.mode == Storing then StoreIt(c, msg, later) else DropIt(c, msg, later);
            && c.trace <= g.trace
            && EpisodeEvents(Since(c.trace, g.trace), c.lastMinute < MAX_RESET, c.mode == Storing,
                             Episode(true, c.stored, c.dropped), msg)
  {
    hide Resume;
    if c.lastMinute < MAX_RESET {
      ResumeEvents(c, msg, later);
      ResumeWarns(c, msg, later);
    } else {
      var g := if c.mode == Storing then StoreIt(c, msg, later) else DropIt(c, msg, later);
      var e := if c.mode == Storing then Stored(msg) else Dropped(msg);
      assert g.trace == c.trace + [e];
      assert Since(c.trace, g.trace) == [e];
    }
  }

  /** Inside an episode, unless the file is just full, a message is withheld exactly when the last full minute was not quiet;
      after a quiet one the guard reports what it withheld and the message is emitted. This holds after every run. */
  lemma ResumedIff(start: real, inputs: seq<Input>, i: Input)
    requires var f := Run(Reset(start, []), inputs);
             Track(f.trace).on && (f.mode == Storing ==> Track(f.trace).stored < MAX_FILE)
    ensures var f := Run(Reset(start, []), inputs);
            var g := Step(f, i.msg, i.now, i.later, i.opens);
            && f.mode != Normal && f.trace <= g.trace
            && EpisodeEvents(Since(f.trace, g.trace), FullMinuteBefore(f.trace, start, i.now) < MAX_RESET,
                             f.mode == Storing, Track(f.trace), i.msg)
  {
    hide Run, Arrivals, StartOf, LastFullMinute, Track, Counted, FullMinuteBefore, StoreIt, DropIt, CountsOk, Since,
      EpisodeEvents, TraceOk;
    var f := Run(Reset(start, []), inputs);
    RunCounts(start, inputs);
    RunKeeps(start, inputs);
    CountedIs(f, i.now, start);
    var c, g := Counted(f, i.now), Step(f, i.msg, i.now, i.later, i.opens);
    EpisodeStep(c, i.msg, i.later);
    SinceBoth(f.trace, c.trace, g.trace);
    MoreEvents(Since(f.trace, c.trace), Since(c.trace, g.trace), FullMinuteBefore(f.trace, start, i.now) < MAX_RESET,
               f.mode == Storing, Track(f.trace), i.msg);
  }

  lemma ResumeWarns(f: Flood, msg: string, later: real)
    ensures var g := Resume(f, msg, later);
            f.trace <= g.trace && Warned(Resumed(f.stored, f.dropped)) in Since(f.trace, g.trace)
  {
    hide WarnedBy;
    var w := WarnedBy(f, Resumed(f.stored, f.dropped), later);
    WarnedEvents(f, Resumed(f.stored, f.dropped), later);
    SinceBoth(f.trace, w.trace, Resume(f, msg, later).trace);
  }

  /** When the file is full and the last full minute was not quiet, the guard says so and drops the message, unless the
      minute has turned quiet by the time of that warning. */
  lemma FullFileIff(start: real, inputs: seq<Input>, i: Input)
    requires var f := Run(Reset(start, []), inputs);
             f.mode == Storing && Track(f.trace).stored == MAX_FILE && FullMinuteBefore(f.trace, start, i.now) >= MAX_RESET
    ensures var f := Run(Reset(start, []), inputs);
            var c := Counted(f, i.now);
            var g := Step(f, i.msg, i.now, i.later, i.opens);
            && c.trace <= g.trace
            && var events := Since(c.trace, g.trace);
               && Warned(FileFull) in events
               && forall e :: e in events && IsMessage(e) <==> e == if Quiet(c, i.later) then Emitted(i.msg) else Dropped(i.msg)
  {
    hide Run, Arrivals, StartOf, LastFullMinute, Track, Counted, FullMinuteBefore, Resume, WarnedBy;
    var f := Run(Reset(start, []), inputs);
    RunCounts(start, inputs);
    RunKeeps(start, inputs);
    CountedIs(f, i.now, start);
    var c := Counted(f, i.now);
    var h := c.(open := false);
    var w := WarnedBy(h, FileFull, i.later);
    WarnedEvents(h, FileFull, i.later);
    QuietIs(h, FileFull, i.later);
    var k := w.(mode := Dropping);
    var g := DropIt(k, i.msg, i.later);
    if Quiet(c, i.later) {
      ResumeEvents(k, i.msg, i.later);
    } else {
      assert Since(w.trace, g.trace) == [Dropped(i.msg)];
    }
    SinceBoth(c.trace, w.trace, g.trace);
  }
}
