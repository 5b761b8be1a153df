/** What the flood protection guarantees over whole runs. */
module FloodSpecs {
  import opened FloodGuards
  import opened Sequences

  /** A flood episode: from a detection to the next resumption. */
  datatype Episode = Episode(on: bool, stored: nat, dropped: nat)

  /** The current episode, or the last one, counted from the events alone. */
  function Track(trace: seq<Event>): Episode {
    if trace == [] then Episode(false, 0, 0)
    else
      var e := Track(trace[..|trace| - 1]);
      match trace[|trace| - 1]
      case Warned(Detected(_)) => Episode(true, 0, 0)
      case Warned(Resumed(_, _)) => e.(on := false)
      case Stored(_) => e.(stored := e.stored + 1)
      case Dropped(_) => e.(dropped := e.dropped + 1)
      case _ => e
  }

  /** The event e is right after an episode: user messages are emitted only outside of episodes and withheld only
      inside, the file takes a bounded number of them, and a resumption reports the exact counts. */
  predicate Right(e: Event, episode: Episode) {
    match e
    case Emitted(_) => !episode.on
    case Stored(_) => episode.on && episode.stored < MAX_FILE
    case Dropped(_) => episode.on
    case Warned(Detected(_)) => !episode.on
    case Warned(Resumed(stored, dropped)) => episode == Episode(true, stored, dropped)
    case _ => true
  }

  predicate AllRight(trace: seq<Event>) {
    trace == [] || (AllRight(trace[..|trace| - 1]) && Right(trace[|trace| - 1], Track(trace[..|trace| - 1])))
  }

  /** The number of user messages emitted in the running interval; the marker is the event that starts intervals. */
  function Sent(trace: seq<Event>, marker: Event): nat {
    if trace == [] || trace[|trace| - 1] == marker || trace[|trace| - 1].Restarted? then 0
    else Sent(trace[..|trace| - 1], marker) + if trace[|trace| - 1].Emitted? then 1 else 0
  }

  predicate AllBounded(trace: seq<Event>) {
    trace == []
    || (&& AllBounded(trace[..|trace| - 1])
        && Sent(trace, SecondStarted) <= MAX_SECOND + 1
        && Sent(trace, MinuteStarted) <= MAX_MINUTE + 1)
  }

  /** The user messages, whatever became of them. */
  function Messages(trace: seq<Event>): seq<string> {
    if trace == [] then []
    else
      var before := Messages(trace[..|trace| - 1]);
      match trace[|trace| - 1]
      case Emitted(msg) => before + [msg]
      case Stored(msg) => before + [msg]
      case Dropped(msg) => before + [msg]
      case _ => before
  }

  lemma TrackDid(f: Flood, e: Event)
    ensures var t := Track(f.trace);
            Track(f.Did(e).trace) ==
              match e
              case Warned(Detected(_)) => Episode(true, 0, 0)
              case Warned(Resumed(_, _)) => t.(on := false)
              case Stored(_) => t.(stored := t.stored + 1)
              case Dropped(_) => t.(dropped := t.dropped + 1)
              case _ => t
    ensures AllRight(f.Did(e).trace) <==> AllRight(f.trace) && Right(e, Track(f.trace))
  {
    hide Right;
    assert f.Did(e).trace[..|f.trace|] == f.trace;
  }

  lemma SentDid(f: Flood, e: Event, marker: Event)
    ensures Sent(f.Did(e).trace, marker) ==
            if e == marker || e.Restarted? then 0 else Sent(f.trace, marker) + if e.Emitted? then 1 else 0
  {
    assert f.Did(e).trace[..|f.trace|] == f.trace;
  }

  lemma BoundedDid(f: Flood, e: Event)
    ensures var g := f.Did(e);
            AllBounded(g.trace) <==>
              && AllBounded(f.trace)
              && Sent(g.trace, SecondStarted) <= MAX_SECOND + 1 && Sent(g.trace, MinuteStarted) <= MAX_MINUTE + 1
  {
    hide Sent;
    assert f.Did(e).trace[..|f.trace|] == f.trace;
  }

  lemma MessagesDid(f: Flood, e: Event)
    ensures Messages(f.Did(e).trace) ==
              match e
              case Emitted(msg) => Messages(f.trace) + [msg]
              case Stored(msg) => Messages(f.trace) + [msg]
              case Dropped(msg) => Messages(f.trace) + [msg]
              case _ => Messages(f.trace)
  {
    assert f.Did(e).trace[..|f.trace|] == f.trace;
  }

  // The invariant.

  /** The events so far are right and bounded. */
  predicate TraceOk(f: Flood) {
    && AllRight(f.trace) && AllBounded(f.trace)
    && Sent(f.trace, SecondStarted) <= MAX_SECOND + 1 && Sent(f.trace, MinuteStarted) <= MAX_MINUTE + 1
  }

  /** Emitted messages are counted, but for `slack` of them: the first one after a resumption. */
  predicate Inv(f: Flood, slack: nat) {
    && TraceOk(f)
    && (f.open <==> f.mode == Storing)
    && (f.mode != Normal ==> Track(f.trace) == Episode(true, f.stored, f.dropped) && f.stored <= MAX_FILE)
    && (f.mode == Normal ==>
          && !Track(f.trace).on
          && Sent(f.trace, SecondStarted) <= f.second + slack && Sent(f.trace, MinuteStarted) <= f.minute + slack)
  }

  /** An event that is not about a user message or an episode changes nothing but the intervals. */
  lemma Neutral(f: Flood, e: Event)
    requires e.Arrived? || e == SecondStarted || e == MinuteStarted || e.Restarted? || e == Warned(FileFull)
    ensures Track(f.Did(e).trace) == Track(f.trace) && Messages(f.Did(e).trace) == Messages(f.trace)
    ensures Sent(f.Did(e).trace, SecondStarted) == if e == SecondStarted || e.Restarted? then 0 else Sent(f.trace, SecondStarted)
    ensures Sent(f.Did(e).trace, MinuteStarted) == if e == MinuteStarted || e.Restarted? then 0 else Sent(f.trace, MinuteStarted)
    ensures TraceOk(f) ==> TraceOk(f.Did(e))
  {
    hide Track, AllRight, Sent, AllBounded, Messages;
    TrackDid(f, e);
    SentDid(f, e, SecondStarted);
    SentDid(f, e, MinuteStarted);
    BoundedDid(f, e);
    MessagesDid(f, e);
  }

  /** What the statistics change. */
  lemma CountedOnly(f: Flood, now: real)
    ensures var g := Counted(f, now);
            && Track(g.trace) == Track(f.trace) && Messages(g.trace) == Messages(f.trace)
            && (TraceOk(f) ==> TraceOk(g))
            && (Sent(g.trace, SecondStarted) == 0 || (Sent(g.trace, SecondStarted) == Sent(f.trace, SecondStarted)
                                                      && g.second == f.second + 1))
            && (Sent(g.trace, MinuteStarted) == 0 || (Sent(g.trace, MinuteStarted) == Sent(f.trace, MinuteStarted)
                                                      && g.minute == f.minute + 1))
  {
    hide Track, AllRight, Sent, AllBounded, Messages, TraceOk;
    var newSecond := now - f.secondStart > 1.0;
    var a := f.Did(Arrived(now));
    Neutral(f, Arrived(now));
    var h := if newSecond then a.(secondStart := now, second := 1) else a.(second := a.second + 1);
    SameTrace(a, h);
    Neutral(h, SecondStarted);
    var g := if newSecond then h.Did(SecondStarted) else h;
    var k := g.(minuteStart := now, lastMinute := g.minute, minute := 1);
    SameTrace(g, k);
    SameTrace(g, g.(minute := g.minute + 1));
    Neutral(k, MinuteStarted);
  }

  lemma SameTrace(f: Flood, g: Flood)
    requires f.trace == g.trace
    ensures TraceOk(f) <==> TraceOk(g)
  {
    hide Track, AllRight, Sent, AllBounded;
  }

  lemma CountedKeeps(f: Flood, now: real)
    requires Inv(f, 1)
    ensures Inv(Counted(f, now), 0) && Messages(Counted(f, now).trace) == Messages(f.trace)
  {
    hide Track, Sent, Messages, TraceOk, Counted;
    CountedOnly(f, now);
  }

  /** In an episode, with its exact counts. */
  predicate InEpisode(f: Flood) {
    f.mode != Normal && TraceOk(f) && Track(f.trace) == Episode(true, f.stored, f.dropped) && f.stored <= MAX_FILE
  }

  /** A warning or a withheld message: the events stay right and bounded when it is right. */
  lemma DidKeeps(f: Flood, e: Event)
    requires TraceOk(f) && Right(e, Track(f.trace)) && !e.Emitted?
    ensures TraceOk(f.Did(e))
  {
    hide Track, AllRight, Sent, AllBounded, Right;
    TrackDid(f, e);
    SentDid(f, e, SecondStarted);
    SentDid(f, e, MinuteStarted);
    BoundedDid(f, e);
  }

  /** The first message of an interval in normal operation, or a later one that is counted. */
  lemma EmitKeeps(f: Flood, msg: string)
    requires TraceOk(f) && !Track(f.trace).on
    requires Sent(f.trace, SecondStarted) <= MAX_SECOND && Sent(f.trace, MinuteStarted) <= MAX_MINUTE
    ensures var g := f.Did(Emitted(msg));
            && TraceOk(g) && !Track(g.trace).on && Messages(g.trace) == Messages(f.trace) + [msg]
            && Sent(g.trace, SecondStarted) == Sent(f.trace, SecondStarted) + 1
            && Sent(g.trace, MinuteStarted) == Sent(f.trace, MinuteStarted) + 1
  {
    hide Track, AllRight, Sent, AllBounded, Messages;
    var e := Emitted(msg);
    TrackDid(f, e);
    SentDid(f, e, SecondStarted);
    SentDid(f, e, MinuteStarted);
    BoundedDid(f, e);
    MessagesDid(f, e);
  }

  lemma ResumeKeeps(f: Flood, msg: string, later: real)
    requires InEpisode(f)
    ensures var g := Resume(f, msg, later); Inv(g, 1) && Messages(g.trace) == Messages(f.trace) + [msg]
  {
    hide Track, AllRight, Sent, AllBounded, Messages, TraceOk, Counted;
    CountedOnly(f, later);
    var e := Warned(Resumed(f.stored, f.dropped));
    var c := Counted(f, later);
    DidKeeps(c, e);
    TrackDid(c, e);
    MessagesDid(c, e);
    var r := Reset(later, c.Did(e).trace);
    SameTrace(c.Did(e), r);
    Neutral(r, Restarted(later));
    EmitKeeps(r.Did(Restarted(later)), msg);
  }

  lemma DropKeeps(f: Flood, msg: string, later: real)
    requires InEpisode(f) && f.mode == Dropping && !f.open
    ensures var g := DropIt(f, msg, later); Inv(g, 1) && Messages(g.trace) == Messages(f.trace) + [msg]
  {
    hide Track, AllRight, Sent, AllBounded, Messages, TraceOk, Resume;
    if f.lastMinute < MAX_RESET {
      ResumeKeeps(f, msg, later);
    } else {
      var h := f.(dropped := f.dropped + 1);
      SameTrace(f, h);
      DidKeeps(h, Dropped(msg));
      TrackDid(h, Dropped(msg));
      MessagesDid(h, Dropped(msg));
    }
  }

  lemma StoreKeeps(f: Flood, msg: string, later: real)
    requires InEpisode(f) && f.mode == Storing && f.open
    ensures var g := StoreIt(f, msg, later); Inv(g, 1) && Messages(g.trace) == Messages(f.trace) + [msg]
  {
    hide Track, AllRight, Sent, AllBounded, Messages, TraceOk, Resume, DropIt, Counted;
    if f.lastMinute < MAX_RESET {
      ResumeKeeps(f, msg, later);
    } else if f.stored >= MAX_FILE {
      var h := f.(open := false);
      SameTrace(f, h);
      CountedOnly(h, later);
      Neutral(Counted(h, later), Warned(FileFull));
      var k := WarnedBy(h, FileFull, later).(mode := Dropping);
      SameTrace(WarnedBy(h, FileFull, later), k);
      DropKeeps(k, msg, later);
    } else {
      var h := f.(stored := f.stored + 1);
      SameTrace(f, h);
      DidKeeps(h, Stored(msg));
      TrackDid(h, Stored(msg));
      MessagesDid(h, Stored(msg));
    }
  }

  lemma DetectKeeps(f: Flood, msg: string, later: real, opens: bool)
    requires TraceOk(f) && !Track(f.trace).on
    ensures var g := Detect(f, msg, later, opens); Inv(g, 1) && Messages(g.trace) == Messages(f.trace) + [msg]
  {
    hide Track, AllRight, Sent, AllBounded, Messages, TraceOk, DropIt, StoreIt, Counted;
    var h := f.(stored := 0, dropped := 0, open := opens, mode := if opens then Storing else Dropping);
    var e := Warned(Detected(opens));
    SameTrace(f, h);
    CountedOnly(h, later);
    var c := Counted(h, later);
    DidKeeps(c, e);
    TrackDid(c, e);
    MessagesDid(c, e);
    if opens {
      StoreKeeps(c.Did(e), msg, later);
    } else {
      DropKeeps(c.Did(e), msg, later);
    }
  }

  lemma StepKeeps(f: Flood, msg: string, now: real, later: real, opens: bool)
    requires Inv(f, 1)
    ensures var g := Step(f, msg, now, later, opens); Inv(g, 1) && Messages(g.trace) == Messages(f.trace) + [msg]
  {
    hide Track, AllRight, Sent, AllBounded, Messages, TraceOk, DropIt, StoreIt, Counted, Detect;
    CountedKeeps(f, now);
    var g := Counted(f, now);
    match g.mode
    case Storing => StoreKeeps(g, msg, later);
    case Dropping => DropKeeps(g, msg, later);
    case Normal =>
      if InExcess(g) {
        DetectKeeps(g, msg, later, opens);
      } else {
        EmitKeeps(g, msg);
      }
  }

  /** A user message, the time when it is pushed, that of the warnings it causes, and whether the flood file opens. */
  datatype Input = Input(msg: string, now: real, later: real, opens: bool)

  function Run(f: Flood, inputs: seq<Input>): Flood {
    if inputs == [] then f
    else
      var i := inputs[|inputs| - 1];
      Step(Run(f, inputs[..|inputs| - 1]), i.msg, i.now, i.later, i.opens)
  }

  function Pushed(inputs: seq<Input>): (r: seq<string>)
    ensures |r| == |inputs| && forall k :: 0 <= k < |r| ==> r[k] == inputs[k].msg
  {
    seq(|inputs|, k requires 0 <= k < |inputs| => inputs[k].msg)
  }

  lemma StartKeeps(now: real)
    ensures Inv(Reset(now, []), 1) && Messages(Reset(now, []).trace) == []
  {
  }

  /** Over any run, whatever the times: each message is exactly one of emitted, stored or dropped, in order; messages
      are withheld only in episodes, of which each stores at most MAX_FILE and reports its exact counts when it ends;
      at most MAX_SECOND + 1 and MAX_MINUTE + 1 messages are emitted in a counting interval; and there is an open file
      exactly while messages are stored. */
  lemma {:induction false} RunKeeps(start: real, inputs: seq<Input>)
    ensures var f := Run(Reset(start, []), inputs);
            && Messages(f.trace) == Pushed(inputs)
            && AllRight(f.trace) && AllBounded(f.trace)
            && (f.open <==> f.mode == Storing)
            && Inv(f, 1)
    decreases |inputs|
  {
    hide Track, AllRight, Sent, AllBounded, Messages, Step, Pushed;
    if inputs == [] {
      StartKeeps(start);
    } else {
      var rest := inputs[..|inputs| - 1];
      var i := inputs[|inputs| - 1];
      RunKeeps(start, rest);
      StepKeeps(Run(Reset(start, []), rest), i.msg, i.now, i.later, i.opens);
      assert Pushed(inputs) == Pushed(rest) + [i.msg];
    }
  }

  // The announcement of a flood and what follows it.

  /** The last full minute had fewer than MAX_RESET messages, as seen when a warning is issued at time later. */
  predicate Quiet(f: Flood, later: real) {
    (if later - f.minuteStart > 60.0 then f.minute else f.lastMinute) < MAX_RESET
  }

  predicate IsMessage(e: Event) {
    e.Emitted? || e.Stored? || e.Dropped?
  }

  /** What happened since the trace was `before`. */
  function Since(before: seq<Event>, trace: seq<Event>): seq<Event> {
    if before <= trace then trace[|before|..] else []
  }

  lemma SinceBoth(a: seq<Event>, b: seq<Event>, c: seq<Event>)
    requires a <= b <= c
    ensures a <= c && Since(a, c) == Since(a, b) + Since(b, c)
  {
  }

  /** A warning adds itself and perhaps interval starts. */
  lemma WarnedEvents(f: Flood, w: Warning, now: real)
    ensures var g := WarnedBy(f, w, now);
            && f.trace <= g.trace && Warned(w) in Since(f.trace, g.trace)
            && forall e :: e in Since(f.trace, g.trace) ==> !IsMessage(e)
  {
    var g := WarnedBy(f, w, now);
    assert Since(f.trace, g.trace)[|g.trace| - 1 - |f.trace|] == Warned(w);
  }

  lemma ResumeEvents(f: Flood, msg: string, later: real)
    ensures var g := Resume(f, msg, later);
            && f.trace <= g.trace
            && forall e :: e in Since(f.trace, g.trace) && IsMessage(e) <==> e == Emitted(msg)
  {
    hide WarnedBy;
    var w := WarnedBy(f, Resumed(f.stored, f.dropped), later);
    WarnedEvents(f, Resumed(f.stored, f.dropped), later);
    var g := Resume(f, msg, later);
    assert g.trace == w.trace + [Restarted(later), Emitted(msg)];
    assert Since(w.trace, g.trace) == [Restarted(later), Emitted(msg)];
    SinceBoth(f.trace, w.trace, g.trace);
  }

  /** The message that reveals a flood is announced as the first one to be stored or dropped, and the announcement is
      true exactly when the last full minute was not quiet: otherwise that message is emitted after all. This holds at
      the end of every run in which no flood is going on. */
  lemma WithheldIff(start: real, inputs: seq<Input>, i: Input)
    requires Run(Reset(start, []), inputs).mode == Normal
    requires InExcess(Counted(Run(Reset(start, []), inputs), i.now))
    ensures var f := Run(Reset(start, []), inputs);
            var c := Counted(f, i.now);
            var g := Step(f, i.msg, i.now, i.later, i.opens);
            && c.trace <= g.trace
            && var events := Since(c.trace, g.trace);
               && Warned(Detected(i.opens)) in events
               && (Emitted(i.msg) in events <==> Quiet(c, i.later))
               && ((if i.opens then Stored(i.msg) else Dropped(i.msg)) in events <==> !Quiet(c, i.later))
  {
    hide Run;
    DetectEvents(Counted(Run(Reset(start, []), inputs), i.now), i.msg, i.later, i.opens);
  }

  lemma DetectEvents(c: Flood, msg: string, later: real, opens: bool)
    ensures var g := Detect(c, msg, later, opens);
            && c.trace <= g.trace
            && var events := Since(c.trace, g.trace);
               && Warned(Detected(opens)) in events
               && (Emitted(msg) in events <==> Quiet(c, later))
               && ((if opens then Stored(msg) else Dropped(msg)) in events <==> !Quiet(c, later))
  {
    hide WarnedBy, Resume;
    var d := c.(stored := 0, dropped := 0, open := opens, mode := if opens then Storing else Dropping);
    var w := WarnedBy(d, Detected(opens), later);
    var g := Detect(c, msg, later, opens);
    WarnedEvents(d, Detected(opens), later);
    QuietIs(d, Detected(opens), later);
    if Quiet(c, later) {
      ResumeEvents(w, msg, later);
      assert g == Resume(w, msg, later);
    } else {
      var e := if opens then Stored(msg) else Dropped(msg);
      assert g.trace == w.trace + [e];
      assert Since(w.trace, g.trace) == [e];
    }
    SinceBoth(c.trace, w.trace, g.trace);
  }

  lemma QuietIs(f: Flood, w: Warning, later: real)
    ensures WarnedBy(f, w, later).lastMinute < MAX_RESET <==> Quiet(f, later)
  {
  }

  lemma RunMore(f: Flood, inputs: seq<Input>, i: Input)
    ensures Run(f, inputs + [i]) == Step(Run(f, inputs), i.msg, i.now, i.later, i.opens)
  {
    hide Step;
    assert (inputs + [i])[..|inputs|] == inputs;
  }

  /** k messages right after the start are counted and emitted. */
  lemma {:induction false} EarlyMessages(start: real, i: Input, k: nat)
    requires k < MAX_RESET && i.now == start
    ensures var f := Run(Reset(start, []), Repeat(k, i));
            && f == Reset(start, f.trace).(second := k, minute := k)
    decreases k
  {
    hide Step;
    if k > 0 {
      EarlyMessages(start, i, k - 1);
      var f := Run(Reset(start, []), Repeat(k - 1, i));
      assert Repeat(k, i) == Repeat(k - 1, i) + [i];
      RunMore(Reset(start, []), Repeat(k - 1, i), i);
      NormalStep(f, i);
    } else {
      assert Repeat(0, i) == [];
    }
  }

  /** A message that is not in excess is counted and emitted. */
  lemma NormalStep(f: Flood, i: Input)
    requires f.mode == Normal && !InExcess(Counted(f, i.now))
    ensures Step(f, i.msg, i.now, i.later, i.opens) == Counted(f, i.now).Did(Emitted(i.msg))
  {
  }

  /** The first messages of a burst, at one moment of a new minute. */
  lemma {:induction false} Burst(f: Flood, before: seq<Input>, start: real, i: Input, n: nat)
    requires f == Run(Reset(start, []), before) && f.mode == Normal && f.minute < MAX_RESET
    requires i.now - f.secondStart > 1.0 && i.now - f.minuteStart > 60.0 && 0 < n <= MAX_SECOND
    ensures var g := Run(Reset(start, []), before + Repeat(n, i));
            g == Flood(n, n, f.minute, i.now, i.now, Normal, f.open, f.stored, f.dropped, g.trace)
    decreases n
  {
    hide Step, Run;
    var rest := before + Repeat(n - 1, i);
    assert before + Repeat(n, i) == rest + [i];
    RunMore(Reset(start, []), rest, i);
    if n > 1 {
      Burst(f, before, start, i, n - 1);
    } else {
      assert rest == before;
    }
    NormalStep(Run(Reset(start, []), rest), i);
  }

  /** A run with a false announcement: fewer than MAX_RESET messages in the first minute, then MAX_SECOND + 1 at once. The
      last one makes the guard announce that messages will be stored, and is emitted itself. */
  lemma FalseAnnouncement(start: real, k: nat, now: real, msg: string)
    requires k < MAX_RESET && now - start.Floor as real > 60.0
    ensures var early, burst := Input("early", start, start, true), Input(msg, now, now, true);
            var before := Repeat(k, early) + Repeat(MAX_SECOND, burst);
            var f, g := Run(Reset(start, []), before), Run(Reset(start, []), before + [burst]);
            && f.trace <= g.trace
            && Warned(Detected(true)) in Since(f.trace, g.trace) && Emitted(msg) in Since(f.trace, g.trace)
            && Stored(msg) !in Since(f.trace, g.trace)
  {
    hide Run, Step, Detect;
    var early, burst := Input("early", start, start, true), Input(msg, now, now, true);
    EarlyMessages(start, early, k);
    Burst(Run(Reset(start, []), Repeat(k, early)), Repeat(k, early), start, burst, MAX_SECOND);
    var before := Repeat(k, early) + Repeat(MAX_SECOND, burst);
    RunMore(Reset(start, []), before, burst);
    WithheldIff(start, before, burst);
  }
}
