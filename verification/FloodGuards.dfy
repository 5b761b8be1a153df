/** Message flood protection of src/InfoLogger.cxx: messages in excess are stored in a local file, then dropped. */
module FloodGuards {
  /** flood_maxmsg_sec, flood_maxmsg_min, flood_maxmsg_file and flood_maxmsg_reset */
  const MAX_SECOND := 500
  const MAX_MINUTE := 1000
  const MAX_FILE := 1000
  const MAX_RESET := 10

  /** floodMode: 0, 1 and 2 */
  datatype Mode = Normal | Storing | Dropping

  datatype Warning = Detected(storing: bool) | FileFull | Resumed(stored: nat, dropped: nat)

  /** What the guard does, in order. User messages are emitted, stored or dropped; its own warnings are always emitted.
      What it counts is recorded as well: the arrival of each message or warning, after it the starts of counting intervals,
      and resets, which start both intervals over. */
  datatype Event =
    | Emitted(msg: string) | Stored(msg: string) | Dropped(msg: string)
    | Warned(warning: Warning)
    | Arrived(time: real) | SecondStarted | MinuteStarted | Restarted(time: real)

  /** The fields of the guard and everything it did. */
  datatype Flood = Flood(second: nat, minute: nat, lastMinute: nat, secondStart: real, minuteStart: real,
                         mode: Mode, open: bool, stored: nat, dropped: nat, trace: seq<Event>)
  {
    function Did(e: Event): Flood {
      this.(trace := trace + [e])
    }
  }

  // What one message does.

  /** Counts a message in the running intervals. */
  function Counted(f: Flood, now: real): (g: Flood)
    ensures g.mode == f.mode && g.open == f.open && g.stored == f.stored && g.dropped == f.dropped
  {
    var a := f.Did(Arrived(now));
    var g := if now - a.secondStart > 1.0 then a.(secondStart := now, second := 1).Did(SecondStarted)
             else a.(second := a.second + 1);
    if now - g.minuteStart > 60.0
    then g.(minuteStart := now, lastMinute := g.minute, minute := 1).Did(MinuteStarted)
    else g.(minute := g.minute + 1)
  }

  /** A warning of the guard goes through the same statistics. */
  function WarnedBy(f: Flood, w: Warning, now: real): (g: Flood)
    ensures g.mode == f.mode && g.open == f.open && g.stored == f.stored && g.dropped == f.dropped
  {
    Counted(f, now).Did(Warned(w))
  }

  /** floodReset; time() counts whole seconds. */
  function Reset(now: real, trace: seq<Event>): Flood {
    Flood(0, 0, MAX_RESET, now.Floor as real, now.Floor as real, Normal, false, 0, 0, trace)
  }

  predicate InExcess(f: Flood) {
    f.second > MAX_SECOND || f.minute > MAX_MINUTE
  }

  /** Normal operation is resumed before the message is emitted. */
  function Resume(f: Flood, msg: string, later: real): Flood {
    var g := WarnedBy(f, Resumed(f.stored, f.dropped), later);
    Reset(later, g.trace).Did(Restarted(later)).Did(Emitted(msg))
  }

  function DropIt(f: Flood, msg: string, later: real): Flood {
    if f.lastMinute < MAX_RESET then Resume(f, msg, later) else f.(dropped := f.dropped + 1).Did(Dropped(msg))
  }

  function StoreIt(f: Flood, msg: string, later: real): Flood {
    if f.lastMinute < MAX_RESET then Resume(f, msg, later)
    else if f.stored >= MAX_FILE then DropIt(WarnedBy(f.(open := false), FileFull, later).(mode := Dropping), msg, later)
    else f.(stored := f.stored + 1).Did(Stored(msg))
  }

  function Detect(f: Flood, msg: string, later: real, opens: bool): Flood {
    var g := WarnedBy(f.(stored := 0, dropped := 0, open := opens, mode := if opens then Storing else Dropping),
                      Detected(opens), later);
    if opens then StoreIt(g, msg, later) else DropIt(g, msg, later)
  }

  /** A user message at time now; the warnings it causes are issued at time later, and the file opens or not. */
  function Step(f: Flood, msg: string, now: real, later: real, opens: bool): Flood {
    var g := Counted(f, now);
    match g.mode
    case Normal => if InExcess(g) then Detect(g, msg, later, opens) else g.Did(Emitted(msg))
    case Storing => StoreIt(g, msg, later)
    case Dropping => DropIt(g, msg, later)
  }

  class FloodGuard {
    var floodStatMsgsSec: nat
    var floodStatMsgsMin: nat
    var floodStatMsgsLastmin: nat
    var floodStatTimeLastsec: real
    var floodStatTimeLastmin: real
    var floodMode: Mode
    var floodFileOpen: bool
    var floodFileMsg: nat
    var floodFileMsgDrop: nat

    /** Everything that was sent, stored or dropped. */
    var trace: seq<Event>

    ghost function View(): Flood
      reads this
    {
      Flood(floodStatMsgsSec, floodStatMsgsMin, floodStatMsgsLastmin, floodStatTimeLastsec, floodStatTimeLastmin,
            floodMode, floodFileOpen, floodFileMsg, floodFileMsgDrop, trace)
    }

    constructor (now: real)
      ensures View() == Reset(now, [])
    {
      floodStatMsgsSec, floodStatMsgsMin, floodStatMsgsLastmin := 0, 0, MAX_RESET;
      floodStatTimeLastsec, floodStatTimeLastmin := now.Floor as real, now.Floor as real;
      floodMode, floodFileOpen, floodFileMsg, floodFileMsgDrop := Normal, false, 0, 0;
      trace := [];
    }

    method FloodReset(now: real)
      modifies this
      ensures View() == Reset(now, old(trace)).Did(Restarted(now))
    {
      floodStatMsgsSec := 0;
      floodStatMsgsMin := 0;
      floodStatMsgsLastmin := MAX_RESET;
      floodStatTimeLastsec := now.Floor as real;
      floodStatTimeLastmin := now.Floor as real;
      floodMode := Normal;
      floodFileOpen := false;
      floodFileMsg := 0;
      floodFileMsgDrop := 0;
      trace := trace + [Restarted(now)];
    }

    /** The message statistics of pushMessage. */
    method Count(now: real)
      modifies this
      ensures View() == Counted(old(View()), now)
    {
      trace := trace + [Arrived(now)];
      if now - floodStatTimeLastsec > 1.0 {
        floodStatTimeLastsec := now;
        floodStatMsgsSec := 1;
        trace := trace + [SecondStarted];
      } else {
        floodStatMsgsSec := floodStatMsgsSec + 1;
      }
      if now - floodStatTimeLastmin > 60.0 {
        floodStatTimeLastmin := now;
        floodStatMsgsLastmin := floodStatMsgsMin;
        floodStatMsgsMin := 1;
        trace := trace + [MinuteStarted];
      } else {
        floodStatMsgsMin := floodStatMsgsMin + 1;
      }
    }

    /** pushMessage with noFlood set. */
    method Warn(w: Warning, now: real)
      modifies this
      ensures View() == WarnedBy(old(View()), w, now)
    {
      Count(now);
      trace := trace + [Warned(w)];
    }

    /** pushMessage of a user message, from the message statistics on. */
    method Push(msg: string, now: real, later: real, opens: bool)
      modifies this
      ensures View() == Step(old(View()), msg, now, later, opens)
    {
      hide Counted, WarnedBy, Reset, Resume;
      Count(now);
      label switch: {
        if floodMode == Normal {
          if !(floodStatMsgsSec > MAX_SECOND || floodStatMsgsMin > MAX_MINUTE) {
            break switch;
          }
          floodFileMsg := 0;
          floodFileMsgDrop := 0;
          floodFileOpen := opens;
          if !floodFileOpen {
            floodMode := Dropping;
            Warn(Detected(false), later);
          } else {
            floodMode := Storing;
            Warn(Detected(true), later);
          }
        }
        if floodMode == Storing {
          if floodStatMsgsLastmin < MAX_RESET {
            break switch;
          }
          if floodFileMsg >= MAX_FILE {
            floodFileOpen := false;
            Warn(FileFull, later);
            floodMode := Dropping;
          } else {
            trace := trace + [Stored(msg)];
            floodFileMsg := floodFileMsg + 1;
            return;
          }
        }
        if floodStatMsgsLastmin < MAX_RESET {
          break switch;
        }
        floodFileMsgDrop := floodFileMsgDrop + 1;
        trace := trace + [Dropped(msg)];
        return;
      }
      EmitMessage(msg, later);
    }

    /** Normal operation resumes before a message that is neither stored nor dropped. */
    method EmitMessage(msg: string, later: real)
      modifies this
      ensures View() == if old(floodMode) == Normal then old(View()).Did(Emitted(msg)) else Resume(old(View()), msg, later)
    {
      hide Counted, WarnedBy, Reset;
      if floodMode != Normal {
        Warn(Resumed(floodFileMsg, floodFileMsgDrop), later);
        FloodReset(later);
      }
      trace := trace + [Emitted(msg)];
    }
  }
}
