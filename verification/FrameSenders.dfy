/** The sending half of a connection in TR_client_state_machine (src/transport_client.c): the variables of the loop
    that frames files into a send buffer, and TR_buffer_send, which may take only part of it. */
module FrameSenders {
  import opened Options
  import opened Framing
  import opened Sequences

  class FrameSender {
    var currentFile: Option<Frame>
    var currentBlob: Option<seq<char>>
    var fileTransfertInit: bool
    var fileTransfertDeinit: bool

    // send_buf
    var value: seq<char>
    var start: nat
    var stop: nat

    /** The bytes sent and the files started on this connection. */
    ghost var wire: seq<char>
    ghost var started: seq<Frame>

    function Unsent(): seq<char>
      requires start <= stop <= |value|
      reads this
    {
      value[start..stop]
    }

    /** The bytes of the started files that have not been put in the send buffer yet. */
    ghost function Remaining(): seq<char>
      reads this
    {
      if currentFile.None? then (if fileTransfertDeinit then "END\n" else [])
      else if !fileTransfertInit then Bytes(currentFile.value)
      else (if currentBlob.Some? then currentBlob.value else []) + "END\n"
    }

    /** How often the buffer can be refilled for the current file. */
    function Refills(): nat
      reads this
    {
      if currentFile.None? then 0 else if !fileTransfertInit then 3 else if currentBlob.Some? then 2 else 1
    }

    /** What was sent, what is about to be sent and what remains are exactly the frames of the started files. */
    ghost predicate Valid()
      reads this
    {
      && start <= stop <= |value|
      && wire + Unsent() + Remaining() == Stream(started)
      && (currentFile.Some? ==>
            && fileTransfertDeinit && started != [] && started[|started| - 1] == currentFile.value
            && (!fileTransfertInit ==> start == stop))
    }

    /** All that is still to be sent of the started files. */
    ghost function Owed(): seq<char>
      requires Valid()
      reads this
    {
      Unsent() + Remaining()
    }

    /** The bytes in the send buffer, after an empty one was filled again. */
    ghost function Refilled(): seq<char>
      requires Valid()
      reads this
    {
      if currentFile.None? || start < stop then Unsent()
      else if !fileTransfertInit then Header(currentFile.value)
      else if currentBlob.Some? then currentBlob.value
      else []
    }

    /** Nothing is being sent and nothing of the last file is missing. */
    predicate Idle()
      reads this
    {
      currentFile.None? && start == stop && !fileTransfertDeinit
    }

    constructor ()
      ensures Valid() && Idle() && wire == [] && started == []
    {
      currentFile, currentBlob := None, None;
      fileTransfertInit, fileTransfertDeinit := false, false;
      value, start, stop := [], 0, 0;
      wire, started := [], [];
    }

    /** The variables as they are set for a new connection. */
    method Reset()
      modifies this
      ensures Valid() && Idle() && wire == [] && started == []
    {
      currentFile, currentBlob := None, None;
      fileTransfertInit, fileTransfertDeinit := false, false;
      value, start, stop := [], 0, 0;
      wire, started := [], [];
    }

    /** The next file becomes the current one. */
    method Begin(f: Frame)
      requires Valid() && Idle()
      modifies this
      ensures Valid() && currentFile == Some(f) && fileTransfertDeinit && started == old(started) + [f] && wire == old(wire)
    {
      hide Bytes, Stream;
      StreamAppend(started, f);
      assert wire + [] + [] == wire;
      currentFile := Some(f);
      fileTransfertInit, fileTransfertDeinit := false, true;
      started := started + [f];
      assert wire + Unsent() + Bytes(f) == wire + Bytes(f);
    }

    /** The data of the last file is sent: only its end line is missing. */
    method Finish()
      requires Valid() && currentFile.None? && start == stop && fileTransfertDeinit
      modifies this`value, this`start, this`stop, this`fileTransfertDeinit
      ensures Valid() && !fileTransfertDeinit && currentFile.None? && !Idle()
      ensures start < stop && Unsent() == "END\n" && Owed() == old(Owed())
    {
      hide Bytes, Stream;
      assert wire + Unsent() + Remaining() == wire + "END\n";
      fileTransfertDeinit := false;
      value, start, stop := "END\n", 0, 4;
      assert Unsent() == "END\n" && [] + "END\n" == "END\n" && "END\n" + [] == "END\n";
    }

    /** The send buffer is empty: fill it with the header of the current file, then its data, then drop the file. */
    method Refill()
      requires Valid() && currentFile.Some? && start == stop
      modifies this
      ensures Valid() && wire == old(wire) && started == old(started)
      ensures currentFile == old(currentFile) || currentFile.None?
      ensures !Idle() && fileTransfertDeinit == old(fileTransfertDeinit)
      ensures Unsent() == old(Refilled()) && Owed() == old(Owed()) && Refills() < old(Refills())
    {
      hide Bytes, Stream;
      assert Unsent() == [];
      NothingBetween(wire, Remaining());
      var f := currentFile.value;
      if !fileTransfertInit {
        FillHeader(f);
      } else if currentBlob.Some? {
        FillData(currentBlob.value);
      } else {
        currentFile := None;
        assert Unsent() == [] && [] + "END\n" == "END\n";
      }
    }

    method FillData(data: seq<char>)
      requires Valid() && currentFile.Some? && start == stop && fileTransfertInit && currentBlob == Some(data)
      modifies this`value, this`start, this`stop, this`currentBlob
      ensures Valid() && Unsent() == data && Owed() == old(Owed()) && currentBlob.None?
    {
      hide Bytes, Stream;
      ghost var rest := data + "END\n";
      assert Owed() == rest && wire + rest == Stream(started) by {
        assert Unsent() == [] && Remaining() == rest;
        NothingBetween(wire, rest);
      }
      value, start, stop := data, 0, |data|;
      currentBlob := None;
      assert Unsent() == data;
      assert Remaining() == "END\n" by {
        NothingBetween(wire, "END\n");
      }
      Associate(wire, data, "END\n");
    }

    method FillHeader(f: Frame)
      requires start <= stop <= |value| && wire + Bytes(f) == Stream(started)
      requires currentFile == Some(f) && fileTransfertDeinit && started != [] && started[|started| - 1] == f
      modifies this`value, this`start, this`stop, this`currentBlob, this`fileTransfertInit
      ensures Valid() && Unsent() == Header(f) && Owed() == Bytes(f) && Refills() == 2
    {
      hide Stream, Header;
      var header := Header(f);
      value, start, stop := header, 0, |header|;
      currentBlob := Some(f.data);
      fileTransfertInit := true;
      assert Unsent() == header;
      assert Bytes(f) == header + (f.data + "END\n");
      Associate(wire, header, f.data + "END\n");
    }

    /** TR_buffer_send when the socket takes `taken` bytes. */
    method Send(taken: nat)
      requires Valid() && taken <= stop - start
      modifies this`start, this`wire
      ensures Valid() && wire == old(wire + Unsent()[..taken]) && start == old(start) + taken
      ensures Owed() == old(Owed())[taken..]
    {
      hide Bytes, Stream;
      ghost var sent := Unsent()[..taken];
      ghost var before := wire;
      wire := wire + sent;
      start := start + taken;
      assert Unsent() == old(Unsent())[taken..] && Remaining() == old(Remaining());
      TakenOff(old(Unsent()), Remaining(), taken);
      Associate(before, sent, Unsent());
    }

    method RefillIfEmpty()
      requires Valid()
      modifies this
      ensures Valid() && wire == old(wire) && started == old(started)
      ensures currentFile == old(currentFile) || currentFile.None?
      ensures Idle() == old(Idle()) && fileTransfertDeinit == old(fileTransfertDeinit)
      ensures Unsent() == old(Refilled()) && Owed() == old(Owed())
      ensures Refills() < old(Refills()) || (Refills() == old(Refills()) && (old(currentFile.Some? || start < stop) ==> start < stop))
    {
      hide Bytes, Stream;
      if currentFile.Some? && start == stop {
        Refill();
      }
    }

    /** The socket takes what it can, up to `limit` bytes. */
    method SendSome(limit: nat)
      requires Valid()
      modifies this`start, this`wire
      ensures Valid() && old(wire) <= wire && (old(Idle()) ==> Idle())
      ensures var n := if limit < |old(Unsent())| then limit else |old(Unsent())|;
              wire == old(wire) + old(Unsent())[..n] && Owed() == old(Owed())[n..]
      ensures Refills() == old(Refills()) && |Owed()| <= |old(Owed())|
      ensures limit > 0 && old(start < stop) ==> |Owed()| < |old(Owed())|
    {
      hide Bytes, Stream;
      Send(if limit < stop - start then limit else stop - start);
    }

    lemma BufferOk()
      requires Valid()
      ensures start <= stop
    {
    }

    /** The current file is the last one started. */
    lemma CurrentIsStarted()
      requires Valid() && currentFile.Some?
      ensures !Idle() && started != [] && started[|started| - 1] == currentFile.value
    {
      hide Bytes, Stream;
    }

    /** Something is being sent only of a started file. */
    lemma BusyHasStarted()
      requires Valid() && !Idle()
      ensures started != []
    {
      assert |wire + Unsent() + Remaining()| > 0;
    }

    /** Whatever was sent so far is the beginning of the frames of the started files. */
    lemma WireWhenIdle()
      requires Valid() && Idle()
      ensures wire == Stream(started)
    {
      hide Stream;
      assert Unsent() == [] && wire + [] + [] == wire;
    }

    lemma WireIsPrefix()
      requires Valid()
      ensures wire <= Stream(started)
    {
    }
  }

  /** Over one connection the server queues the first of the started files, however the sender's partial writes and
      the server's reads cut the stream; and all of them once the sender is idle and everything has arrived. */
  lemma {:induction false} ServerQueuesStarted(sender: FrameSender, p: Parser, received: seq<char>) returns (n: nat)
    requires sender.Valid() && received <= sender.wire
    requires p.open && p.phase == Begin && p.pending == []
    requires forall f :: f in sender.started ==> Sendable(f) && Receivable(f)
    ensures n <= |sender.started| && FeedAll(p, received).files == p.files + sender.started[..n]
    ensures sender.Idle() && received == sender.wire && p.room >= |sender.started| ==> n == |sender.started|
  {
    hide FeedAll, Sendable, Receivable;
    sender.WireIsPrefix();
    n := CutStreamReceived(p, sender.started, received);
    if sender.Idle() && received == sender.wire && p.room >= |sender.started| {
      assert sender.wire + [] + [] == sender.wire;
      StreamReceived(p, sender.started);
      n := |sender.started|;
      assert sender.started[..n] == sender.started;
    }
  }
}
