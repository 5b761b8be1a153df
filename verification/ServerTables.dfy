/** The connection table of src/transport_server.c. Each operation does to the table what the matching protocol step
    does to the slots. */
module ServerTables {
  import opened AckLines
  import opened ClientSteps
  import opened Options
  import opened Protocol
  import opened ProtocolProgress

  /** TR_SERVER_ACK_MAX_FILES */
  const ACK_MAX_FILES := 20

  /** The major id of all the files of the permanent FIFO. */
  const MAJOR_ID := 1

  class ServerTable {
    const cxTable: array<Slot>
    var cxCounter: nat

    /** The lines sent, with the connection. */
    var sent: seq<(nat, string)>

    /** The table is the one of the protocol state n. */
    ghost predicate Is(n: Net)
      reads this, cxTable
    {
      && cxTable[..] == n.slots && cxCounter == |n.accepted|
      && forall s :: 0 <= s < |n.slots| && n.slots[s].socket.Some? ==> n.slots[s].socket.value < |n.conns|
    }

    constructor (size: nat)
      ensures cxTable.Length == size && cxCounter == 0 && sent == [] && fresh(cxTable)
      ensures forall s :: 0 <= s < size ==> cxTable[s] == Slot(None, -1, 0, 0)
    {
      cxTable := new Slot[size](_ => Slot(None, -1, 0, 0));
      cxCounter, sent := 0, [];
    }

    /** TR_server_connection_close */
    method ConnectionClose(s: nat, ghost n: Net)
      requires Is(n) && s < cxTable.Length
      modifies cxTable
      ensures Enabled(n, Close(s)) && Is(Apply(n, Close(s)))
      ensures cxTable[s].socket == None && cxTable[s].cxId == -1
      ensures forall t :: 0 <= t < cxTable.Length && t != s ==> cxTable[t] == old(cxTable[t])
    {
      cxTable[s] := cxTable[s].(socket := None, cxId := -1);
    }

    /** A new connection takes the first free slot; without one it is refused. */
    method AcceptConnection(sock: nat, ghost n: Net) returns (s: nat)
      requires Is(n) && sock < |n.conns| && sock !in n.accepted
      modifies this, cxTable
      ensures s <= cxTable.Length && forall t :: 0 <= t < s ==> n.slots[t].socket.Some?
      ensures if s < cxTable.Length then Enabled(n, Accept(s, sock)) && Is(Apply(n, Accept(s, sock))) else Is(n)
      ensures sent == old(sent)
      // Its identifier was never used before.
      ensures s < cxTable.Length ==>
                cxTable[s] == Slot(Some(sock), old(cxCounter), 0, 0) && cxCounter == old(cxCounter) + 1
      ensures forall t :: 0 <= t < cxTable.Length && t != s ==> cxTable[t] == old(cxTable[t])
    {
      s := 0;
      while s < cxTable.Length
        invariant s <= cxTable.Length && Is(n) && sent == old(sent) && cxTable[..] == old(cxTable[..])
        invariant cxCounter == old(cxCounter)
        invariant forall t :: 0 <= t < s ==> n.slots[t].socket.Some?
      {
        if cxTable[s].socket.None? {
          cxTable[s] := Slot(Some(sock), cxCounter, 0, 0);
          cxCounter := cxCounter + 1;
          return;
        }
        s := s + 1;
      }
    }

    /** TR_server_acknowledge_files; sends tells whether the socket takes the line. */
    method AcknowledgeFiles(s: nat, minNumber: nat, sends: bool, ghost n: Net)
      requires Is(n) && s < cxTable.Length
      modifies this`sent, cxTable
      ensures if n.slots[s].socket.Some? && n.slots[s].nonAcknowledged > minNumber && sends
              then
                && Enabled(n, SendAck(s)) && Is(Apply(n, SendAck(s)))
                && sent == old(sent) + [(n.slots[s].socket.value, AckLine(n.slots[s].ackFile, MAJOR_ID) + "\n")]
              else Is(n) && sent == old(sent)
    {
      if cxTable[s].socket.Some? {
        if cxTable[s].nonAcknowledged > minNumber {
          if sends {
            sent := sent + [(cxTable[s].socket.value, AckLine(cxTable[s].ackFile, MAJOR_ID) + "\n")];
            cxTable[s] := cxTable[s].(nonAcknowledged := 0);
          }
        }
      }
    }

    /** TR_server_ack_file for the file at the head of the queue: its connection, if it still has the slot, is due an
        acknowledgement, which is sent at once when many are due. */
    method AckFile(slot: nat, sender: nat, id: nat, sends: bool, ghost n: Net)
      requires Is(n) && Enabled(n, Process) && n.queue[0].slot == slot && n.queue[0].cxId == sender && n.queue[0].id == id
      modifies this`sent, cxTable
      ensures var m := Apply(n, Process);
              if m.slots[slot].socket.Some? && m.slots[slot].nonAcknowledged > ACK_MAX_FILES && sends
              then
                && Enabled(m, SendAck(slot)) && Is(Apply(m, SendAck(slot)))
                && sent == old(sent) + [(m.slots[slot].socket.value, AckLine(m.slots[slot].ackFile, MAJOR_ID) + "\n")]
              else Is(m) && sent == old(sent)
    {
      if cxTable[slot].cxId == sender {
        if id > cxTable[slot].ackFile {
          cxTable[slot] := cxTable[slot].(ackFile := id, nonAcknowledged := cxTable[slot].nonAcknowledged + 1);
        }
      }
      AcknowledgeFiles(slot, ACK_MAX_FILES, sends, Apply(n, Process));
    }
  }

  /** AckFile acknowledges at once, if the socket takes the line, exactly when 21 files of the connection were processed
      since the last acknowledgement: p is the number of those up to it. */
  lemma AckedAtOnce(n: Net, run: seq<Action>, s: nat) returns (p: nat)
    requires Initial(n) && Legal(n, run)
    requires s < |AfterRun(n, run).slots| && AfterRun(n, run).slots[s].socket.Some?
    ensures var m := AfterRun(n, run);
            CountsFrom(m, s, p)
            && (m.slots[s].nonAcknowledged > ACK_MAX_FILES <==> m.conns[m.slots[s].socket.value].done - p >= 21)
  {
    p := AckIsDue(n, run, s);
  }

  /** The client takes the line that AcknowledgeFiles sends for an acknowledgement of that id. */
  lemma SentLineIsRead(id: nat)
    ensures FromServer([AckLine(id, MAJOR_ID)]) && AckSteps([AckLine(id, MAJOR_ID)]) == [ClAck(id)]
  {
    hide ParseAck, AckLine;
    AckReadBack(id, MAJOR_ID);
    var line := AckLine(id, MAJOR_ID);
    assert [line][..0] == [];
    assert AckSteps([line]) == AckSteps([]) + [ClAck(id)];
  }
}
