/** A transport client seen from outside: its window over the permanent FIFO and what it can do. The class of module
    TransportClient makes these steps, and the protocol is built from them. */
module ClientSteps {
  import opened AckLines
  import opened Options

  /** Items low+1, ..., written are in the permanent FIFO of the client; those up to acked are acknowledged to it, and
      those in (acked, taken] are in the window, of which the first `index` were started on the current link. The
      current file is the one being sent; `ending` says that only its end line is missing. */
  datatype Cl = Cl(low: nat, written: nat, acked: nat, taken: nat, index: nat, ackId: nat, link: Option<nat>,
                   current: Option<nat>, ending: bool)

  datatype ClStep =
    | ClWrite          // TR_client_send_msg
    | ClConnect(k: nat)
    | ClDisconnect
    | ClStart          // the next file becomes the current one
    | ClDrop           // its data is sent: it is not the current file any more
    | ClFinish         // its last byte is sent
    | ClAck(id: nat)   // an acknowledgement line is read
    | ClRemove         // an acknowledged file leaves the window: permFIFO_ack

  predicate Can(cl: Cl, step: ClStep) {
    match step
    case ClWrite => true
    case ClConnect(_) => cl.link.None?
    case ClDisconnect => true
    case ClStart => cl.link.Some? && cl.current.None? && cl.acked + cl.index < cl.written
    case ClDrop => cl.link.Some? && cl.current.Some? && !cl.ending
    case ClFinish => cl.link.Some? && cl.current.Some? && cl.ending
    case ClAck(_) => cl.link.Some?
    case ClRemove =>
      cl.acked < cl.taken && (cl.current != Some(cl.acked + 1) || cl.ending) && cl.acked + 1 <= cl.ackId
  }

  function Do(cl: Cl, step: ClStep): Cl {
    match step
    case ClWrite => cl.(written := cl.written + 1)
    case ClConnect(k) => cl.(link := Some(k), index := 0, current := None, ending := false)
    case ClDisconnect => cl.(link := None, index := 0, current := None, ending := false)
    case ClStart =>
      var id := cl.acked + cl.index + 1;
      cl.(index := cl.index + 1, current := Some(id), ending := false, taken := if cl.taken < id then id else cl.taken)
    case ClDrop => cl.(ending := true)
    case ClFinish => cl.(current := None, ending := false)
    case ClAck(id) => cl.(ackId := id)
    case ClRemove => cl.(acked := cl.acked + 1, index := if cl.index == 0 then 0 else cl.index - 1)
  }

  /** A client that has just opened its permanent FIFO. */
  predicate New(cl: Cl) {
    && cl.low == cl.acked == cl.taken <= cl.written && cl.index == 0 && cl.ackId == 0
    && cl.link.None? && cl.current.None? && !cl.ending
  }

  predicate CanAll(cl: Cl, steps: seq<ClStep>)
    decreases |steps|
  {
    steps == [] || (CanAll(cl, steps[..|steps| - 1]) && Can(DoAll(cl, steps[..|steps| - 1]), steps[|steps| - 1]))
  }

  function DoAll(cl: Cl, steps: seq<ClStep>): Cl
    decreases |steps|
  {
    if steps == [] then cl else Do(DoAll(cl, steps[..|steps| - 1]), steps[|steps| - 1])
  }

  lemma OneMore(cl: Cl, steps: seq<ClStep>, step: ClStep)
    ensures DoAll(cl, steps + [step]) == Do(DoAll(cl, steps), step)
    ensures CanAll(cl, steps + [step]) <==> CanAll(cl, steps) && Can(DoAll(cl, steps), step)
  {
    hide Can, Do;
    assert (steps + [step])[..|steps|] == steps;
  }

  lemma {:induction false} Joined(cl: Cl, s: seq<ClStep>, t: seq<ClStep>)
    ensures DoAll(cl, s + t) == DoAll(DoAll(cl, s), t)
    ensures CanAll(cl, s + t) <==> CanAll(cl, s) && CanAll(DoAll(cl, s), t)
    decreases |t|
  {
    hide Can, Do;
    if t == [] {
      assert s + t == s;
    } else {
      var rest, step := t[..|t| - 1], t[|t| - 1];
      Joined(cl, s, rest);
      OneMore(cl, s + rest, step);
      assert s + t == (s + rest) + [step];
    }
  }

  /** The lines this server sends as acknowledgements. */
  predicate FromServer(lines: seq<string>) {
    forall i :: 0 <= i < |lines| && ParseAck(lines[i]).Some? ==>
      ParseAck(lines[i]).value.0 >= 0 && ParseAck(lines[i]).value.1 == 1
  }

  /** The acknowledgements among the lines. */
  function AckSteps(lines: seq<string>): seq<ClStep> {
    if lines == [] then []
    else
      AckSteps(lines[..|lines| - 1]) +
      match ParseAck(lines[|lines| - 1])
      case Some((id, _)) => if id >= 0 then [ClAck(id)] else []
      case None => []
  }

  /** Reading them leaves the client with the last one. */
  lemma {:induction false} AcksRead(cl: Cl, lines: seq<string>, start: (int, int))
    requires FromServer(lines) && cl.link.Some? && cl.ackId == AckId(start.0, start.1)
    ensures CanAll(cl, AckSteps(lines))
    ensures var ack := LastAck(lines, start);
            && DoAll(cl, AckSteps(lines)) == cl.(ackId := AckId(ack.0, ack.1))
            && (ack == start || (ack.0 >= 0 && ack.1 == 1))
  {
    hide ParseAck;
    if lines != [] {
      var rest := lines[..|lines| - 1];
      AcksRead(cl, rest, start);
      match ParseAck(lines[|lines| - 1])
      case Some(ack) => OneMore(cl, AckSteps(rest), ClAck(ack.0));
      case None => assert AckSteps(rest) + [] == AckSteps(rest);
    }
  }

  /** The minor id of an acknowledgement of this server, 0 before the first one. */
  function AckId(minId: int, majId: int): nat {
    if majId == 1 && minId >= 0 then minId else 0
  }
}
