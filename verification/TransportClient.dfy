/** The connected state of TR_client_state_machine (src/transport_client.c) in message mode: a window of files read
    from the permanent FIFO and not yet acknowledged, sent one after the other. */
module TransportClient {
  import opened AckLines
  import opened ClientSteps
  import opened FileIds
  import opened Options
  import opened RingTable
  import opened PermFifos
  import opened FifoSpec
  import opened FileQueues
  import opened Framing
  import opened FrameSenders
  import opened Text

  /** The window holds, as files, exactly the items of the permanent FIFO that were read and not acknowledged. */
  ghost predicate IsWindow(name: string, low: nat, a: Queue, q: seq<Frame>) {
    && a.Ok() && |q| == a.read - a.acked
    && forall k :: 0 <= k < |q| ==> q[k] == Frame(name, low + a.acked + 1 + k, 1, a.written[a.acked + k])
  }

  /** The first `index` files of the window are the last ones started on this connection, in increasing order;
      nothing from the rest of the window was started. `first` is the id of the first file of the window. */
  ghost predicate IsSent(name: string, first: nat, q: seq<Frame>, index: int, started: seq<Frame>) {
    && 0 <= index <= |q| && index <= |started|
    && q[..index] == started[|started| - index..]
    && (forall i, j :: 0 <= i < j < |started| ==> started[i].minId < started[j].minId)
    && (forall i :: 0 <= i < |started| ==>
          0 < started[i].minId < first + index && started[i].source == name && started[i].data != [])
  }

  lemma WindowSize(name: string, low: nat, a: Queue, q: seq<Frame>)
    requires IsWindow(name, low, a, q)
    ensures |q| == a.read - a.acked && a.read <= |a.written|
  {
  }

  lemma NothingTaken(name: string, low: nat, a: Queue)
    requires a.Ok() && a.read == 0
    ensures IsWindow(name, low, a, [])
  {
  }

  lemma NothingSent(name: string, first: nat, q: seq<Frame>)
    ensures IsSent(name, first, q, 0, [])
  {
  }

  lemma WindowShrinks(name: string, low: nat, a: Queue, q: seq<Frame>)
    requires IsWindow(name, low, a, q) && q != []
    ensures q[0].minId == low + a.acked + 1 && q[0].majId == 1
    ensures IsWindow(name, low, a.Ack(a.acked + 1), q[1..])
  {
  }

  lemma WindowGrows(name: string, low: nat, a: Queue, q: seq<Frame>)
    requires IsWindow(name, low, a, q) && a.read < |a.written|
    ensures IsWindow(name, low, a.Read().1, q + [Frame(name, low + a.read + 1, 1, a.written[a.read])])
  {
  }

  lemma WindowIgnoresWrites(name: string, low: nat, a: Queue, q: seq<Frame>, p: Payload, saved: bool)
    requires IsWindow(name, low, a, q)
    ensures IsWindow(name, low, a.Write(p, saved), q)
  {
  }

  /** Removing the head: the index follows, or stays at 0 if nothing of the window was started. */
  lemma SentShrinks(name: string, first: nat, q: seq<Frame>, index: int, started: seq<Frame>)
    requires IsSent(name, first, q, index, started) && q != []
    ensures IsSent(name, first + 1, q[1..], if index == 0 then 0 else index - 1, started)
  {
    if index > 0 {
      assert q[1..][..index - 1] == q[..index][1..];
    } else {
      assert q[1..][..0] == started[|started|..];
    }
  }

  lemma SentStays(name: string, first: nat, q: seq<Frame>, index: int, started: seq<Frame>, f: Frame)
    requires IsSent(name, first, q, index, started)
    ensures IsSent(name, first, q + [f], index, started)
  {
    assert (q + [f])[..index] == q[..index];
  }

  /** Starting the file at the index. */
  lemma SentGrows(name: string, low: nat, a: Queue, q: seq<Frame>, index: int, started: seq<Frame>)
    requires IsWindow(name, low, a, q) && IsSent(name, low + a.acked + 1, q, index, started) && index < |q|
    requires [] !in a.written
    ensures IsSent(name, low + a.acked + 1, q, index + 1, started + [q[index]])
  {
    assert q[..index + 1] == q[..index] + [q[index]];
    assert (started + [q[index]])[|started| - index..] == started[|started| - index..] + [q[index]];
  }

  ghost function ClOf(low: nat, a: Queue, index: nat, ackId: nat, link: nat, current: Option<nat>, ending: bool): Cl {
    Cl(low, low + |a.written|, low + a.acked, low + a.read, index, ackId, Some(link), current, ending)
  }

  /** The id of the last started file, until its end line is sent. */
  function CurrentOf(started: seq<Frame>, idle: bool): Option<nat> {
    var n := |started|;
    if idle || n == 0 || started[n - 1].minId < 0 then None else Some(started[n - 1].minId)
  }

  /** The last of the started files is the one before the index. */
  lemma LastStarted(name: string, low: nat, a: Queue, q: seq<Frame>, index: nat, started: seq<Frame>)
    requires IsWindow(name, low, a, q) && IsSent(name, low + a.acked + 1, q, index, started) && index > 0
    ensures index <= |q| && started != [] && started[|started| - 1] == q[index - 1]
    ensures started[|started| - 1].minId == low + a.acked + index
  {
    assert q[..index][index - 1] == started[|started| - index..][index - 1];
  }

  /** The loop that removes acknowledged files goes on exactly as long as the step is possible. */
  lemma GuardIsCan(name: string, low: nat, a: Queue, q: seq<Frame>, index: nat, started: seq<Frame>, idle: bool,
      currentFile: Option<Frame>, ackMin: int, ackMaj: int, link: nat)
    requires IsWindow(name, low, a, q) && IsSent(name, low + a.acked + 1, q, index, started)
    requires currentFile.Some? ==> index > 0 && !idle && started != [] && started[|started| - 1] == currentFile.value
    requires (ackMaj == 1 && ackMin >= 0) || (ackMaj == 0 && ackMin == 0)
    ensures var cl := ClOf(low, a, index, AckId(ackMin, ackMaj), link, CurrentOf(started, idle), currentFile.None? && !idle);
            Can(cl, ClRemove) <==>
              q != [] && Some(q[0]) != currentFile && !After(Fid(q[0].majId, q[0].minId), Fid(ackMaj, ackMin))
  {
    if q != [] {
      WindowAt(name, low, a, q, 0);
      WindowShrinks(name, low, a, q);
    }
    if currentFile.Some? {
      LastStarted(name, low, a, q, index, started);
    }
    hide IsSent;
  }

  lemma NewClient(low: nat, a: Queue, link: nat)
    requires a.Ok() && a.read == 0
    ensures New(Do(ClOf(low, a, 0, 0, link, None, false), ClDisconnect))
  {
  }

  /** Is one of the lines the request to shut down? Its last letter is not compared. */
  predicate AsksToClose(lines: seq<string>) {
    exists i :: 0 <= i < |lines| && "CLOS" <= lines[i]
  }

  class Client {
    const name: string
    const fifo: PermFifo
    const inputQueue: FileQueue<Frame>
    const sender: FrameSender
    var ackMin: int
    var ackMaj: int
    var currentFileIndex: int
    var serverShutdownRequest: bool

    /** The current connection. */
    ghost var link: nat

    /** The client as its steps describe it. */
    ghost function AsClient(): Cl
      reads this, sender, fifo, fifo.tableClient, fifo.tableClient.items, fifo.tableDisk, fifo.tableDisk.items
      requires fifo.Valid()
    {
      ClOf(fifo.low, fifo.Abs(), Index(), AckId(ackMin, ackMaj), link, CurrentOf(sender.started, sender.Idle()),
           sender.currentFile.None? && !sender.Idle())
    }

    function Index(): nat
      reads this
    {
      if currentFileIndex < 0 then 0 else currentFileIndex
    }

    /** The last acknowledgement is one of this server, or there was none. */
    predicate AckOk()
      reads this
    {
      (ackMaj == 1 && ackMin >= 0) || (ackMaj == 0 && ackMin == 0)
    }

    ghost predicate Shape()
      reads this, inputQueue, inputQueue.data, sender, fifo, fifo.Repr()
    {
      && fifo.Valid() && inputQueue.Valid() && sender.Valid()
      && this !in fifo.Repr() && inputQueue !in fifo.Repr() && inputQueue.data !in fifo.Repr() && sender !in fifo.Repr()
    }

    ghost predicate Valid()
      reads this, inputQueue, inputQueue.data, sender, fifo, fifo.Repr()
    {
      && Shape()
      && IsWindow(name, fifo.low, fifo.Abs(), inputQueue.contents)
      && IsSent(name, fifo.low + fifo.Abs().acked + 1, inputQueue.contents, currentFileIndex, sender.started)
      && 0 <= currentFileIndex && (sender.currentFile.Some? ==> currentFileIndex > 0)
    }

    /** There is a file to send: one in the window that was not started on this connection, or an item of the permanent FIFO
        and room for it in the window. */
    ghost predicate HasNext()
      requires fifo.Valid()
      reads this, inputQueue, fifo, fifo.tableClient, fifo.tableClient.items, fifo.tableDisk, fifo.tableDisk.items
    {
      || currentFileIndex < |inputQueue.contents|
      || (|inputQueue.contents| < inputQueue.size && fifo.Abs().read < |fifo.Abs().written|)
    }

    /** The files not started on this connection. */
    ghost function Left(): int
      requires fifo.Valid()
      reads this, fifo, fifo.tableClient, fifo.tableClient.items, fifo.tableDisk, fifo.tableDisk.items
    {
      |fifo.Abs().written| - fifo.Abs().acked - currentFileIndex
    }

    /** TR_client_start, given the opened permanent FIFO. */
    constructor (name: string, fifo: PermFifo, size: nat)
      requires fifo.Valid() && fifo.Abs().read == 0
      ensures Valid() && this.name == name && this.fifo == fifo && inputQueue.size == size
      ensures AckOk() && New(Do(AsClient(), ClDisconnect))
    {
      hide PermFifo.Valid, PermFifo.Abs, FileQueue.Valid, FrameSender.Valid, IsWindow, IsSent, ClOf, New, Do, AckId;
      this.name, this.fifo, link := name, fifo, 0;
      inputQueue := new FileQueue(size, Frame("", -1, -1, []));
      sender := new FrameSender();
      ackMin, ackMaj, currentFileIndex, serverShutdownRequest := 0, 0, 0, false;
      new;
      StartsNew();
    }

    lemma StartsNew()
      requires fifo.Valid() && inputQueue.Valid() && sender.Valid()
      requires this !in fifo.Repr() && inputQueue !in fifo.Repr() && inputQueue.data !in fifo.Repr() && sender !in fifo.Repr()
      requires fifo.Abs().read == 0 && inputQueue.contents == [] && sender.Idle() && sender.started == []
      requires currentFileIndex == ackMin == ackMaj == 0
      ensures Valid() && AckOk() && New(Do(AsClient(), ClDisconnect))
    {
      hide PermFifo.Valid, PermFifo.Abs, FileQueue.Valid, FrameSender.Valid, IsWindow, IsSent;
      NothingTaken(name, fifo.low, fifo.Abs());
      NothingSent(name, fifo.low + fifo.Abs().acked + 1, []);
      NewClient(fifo.low, fifo.Abs(), link);
    }

    /** Entering STATE_CONNECTED: a new connection starts again from the oldest file not acknowledged. */
    method Connect(ghost k: nat)
      requires Valid()
      modifies this`currentFileIndex, this`link, sender
      ensures Valid() && sender.Idle() && sender.wire == [] && sender.started == [] && currentFileIndex == 0
      ensures AsClient() == Do(Do(old(AsClient()), ClDisconnect), ClConnect(k))
    {
      hide PermFifo.Valid, PermFifo.Abs, IsWindow, IsSent, FileQueue.Valid, FrameSender.Valid;
      NothingSent(name, fifo.low + fifo.Abs().acked + 1, inputQueue.contents);
      sender.Reset();
      currentFileIndex, link := 0, k;
    }

    /** TR_client_send_msg */
    method SendMsg(msg: seq<char>, now: int) returns (rc: int)
      requires Valid() && '\0' in msg
      modifies fifo.Repr()
      ensures Valid() && rc == 0
      // The string joins the FIFO with its NUL, without what is behind it.
      ensures forall n :: 0 <= n < |msg| && msg[n] == '\0' && '\0' !in msg[..n] ==>
                fifo.Abs().written == old(fifo.Abs().written) + [msg[..n + 1]]
      ensures fifo.Abs().read == old(fifo.Abs().read) && fifo.Abs().acked == old(fifo.Abs().acked)
      ensures AsClient() == Do(old(AsClient()), ClWrite)
    {
      hide PermFifo.Valid, PermFifo.Abs, IsWindow, PayloadOf, FileQueue.Valid, FrameSender.Valid;
      ghost var a := fifo.Abs();
      ghost var saved;
      rc, saved := fifo.Write(msg, 0, now);
      WindowIgnoresWrites(name, fifo.low, a, inputQueue.contents, PayloadOf(msg, 0), saved);
    }

    /** Removes acknowledged files from the window and acknowledges them to the permanent FIFO. Whatever the server
        claims, only files of the window are acknowledged, in order, and never the current one. */
    method RemoveAcknowledged() returns (ghost steps: seq<ClStep>)
      requires Valid()
      modifies this`currentFileIndex, inputQueue, inputQueue.data, fifo.Repr()
      ensures Valid() && fifo.low == old(fifo.low)
      ensures fifo.Abs().written == old(fifo.Abs().written) && fifo.Abs().read == old(fifo.Abs().read)
      ensures old(fifo.Abs().acked) <= fifo.Abs().acked
      ensures fifo.Abs().acked > old(fifo.Abs().acked) ==> !After(Fid(1, fifo.low + fifo.Abs().acked), Fid(ackMaj, ackMin))
      ensures inputQueue.contents != [] ==>
                Some(inputQueue.contents[0]) == sender.currentFile
                || After(Fid(inputQueue.contents[0].majId, inputQueue.contents[0].minId), Fid(ackMaj, ackMin))
      ensures Left() <= old(Left())
      // As many removals as the steps allow.
      ensures forall step :: step in steps ==> step == ClRemove
      ensures AckOk() ==>
                && CanAll(old(AsClient()), steps) && AsClient() == DoAll(old(AsClient()), steps)
                && !Can(AsClient(), ClRemove)
    {
      hide PermFifo.Valid, PermFifo.Abs, IsWindow, IsSent, FileQueue.Valid, FrameSender.Valid, CanAll, DoAll, Can, Do,
        ClOf, CurrentOf, AckId;
      steps := [];
      NoSteps(AsClient());
      while true
        invariant forall step :: step in steps ==> step == ClRemove
        invariant Shape() && fifo.low == old(fifo.low)
        invariant AckOk() ==> CanAll(old(AsClient()), steps) && AsClient() == DoAll(old(AsClient()), steps)
        invariant IsWindow(name, fifo.low, fifo.Abs(), inputQueue.contents)
        invariant IsSent(name, fifo.low + fifo.Abs().acked + 1, inputQueue.contents, Index(), sender.started)
        invariant sender.currentFile.Some? ==> currentFileIndex > 0
        invariant fifo.Abs().written == old(fifo.Abs().written) && fifo.Abs().read == old(fifo.Abs().read)
        invariant old(fifo.Abs().acked) <= fifo.Abs().acked && Left() == old(Left())
        invariant fifo.Abs().acked > old(fifo.Abs().acked) ==> !After(Fid(1, fifo.low + fifo.Abs().acked), Fid(ackMaj, ackMin))
        decreases |inputQueue.contents|
      {
        GuardHolds();
        var theFile := inputQueue.ReadIndex(0);
        if theFile.None? || theFile == sender.currentFile {
          break;
        }
        if After(Fid(theFile.value.majId, theFile.value.minId), Fid(ackMaj, ackMin)) {
          break;
        }
        OneMore(old(AsClient()), steps, ClRemove);
        RemoveHead(theFile.value);
        steps := steps + [ClRemove];
      }
      if currentFileIndex < 0 {
        currentFileIndex := 0;
      }
    }

    /** One turn of that loop. */
    method RemoveHead(theFile: Frame)
      requires Shape() && IsWindow(name, fifo.low, fifo.Abs(), inputQueue.contents)
      requires IsSent(name, fifo.low + fifo.Abs().acked + 1, inputQueue.contents, Index(), sender.started)
      requires sender.currentFile.Some? ==> currentFileIndex > 0
      requires inputQueue.contents != [] && inputQueue.contents[0] == theFile && Some(theFile) != sender.currentFile
      modifies this`currentFileIndex, inputQueue, inputQueue.data, fifo.Repr()
      ensures Shape() && IsWindow(name, fifo.low, fifo.Abs(), inputQueue.contents) && fifo.low == old(fifo.low)
      ensures IsSent(name, fifo.low + fifo.Abs().acked + 1, inputQueue.contents, Index(), sender.started)
      ensures sender.currentFile.Some? ==> currentFileIndex > 0
      ensures fifo.Abs() == old(fifo.Abs()).Ack(old(fifo.Abs().acked) + 1)
      ensures theFile.minId == fifo.low + fifo.Abs().acked && theFile.majId == 1
      ensures currentFileIndex == old(currentFileIndex) - 1
      ensures |inputQueue.contents| < |old(inputQueue.contents)|
      ensures AsClient() == Do(old(AsClient()), ClRemove)
    {
      hide PermFifo.Valid, PermFifo.Abs, IsWindow, IsSent, FileQueue.Valid, FrameSender.Valid, CurrentOf, AckId;
      ghost var a, q, index := fifo.Abs(), inputQueue.contents, Index();
      WindowShrinks(name, fifo.low, a, q);
      SentShrinks(name, fifo.low + a.acked + 1, q, index, sender.started);
      CurrentIsLater(fifo.low + a.acked + 1);
      var _ := inputQueue.Read();
      fifo.AckAllowed(a.acked + 1);
      var _ := fifo.Ack(theFile.minId);
      currentFileIndex := currentFileIndex - 1;
    }

    lemma GuardHolds()
      requires Shape() && IsWindow(name, fifo.low, fifo.Abs(), inputQueue.contents)
      requires IsSent(name, fifo.low + fifo.Abs().acked + 1, inputQueue.contents, Index(), sender.started)
      requires sender.currentFile.Some? ==> currentFileIndex > 0
      ensures AckOk() ==>
                (Can(AsClient(), ClRemove) <==>
                   && inputQueue.contents != [] && Some(inputQueue.contents[0]) != sender.currentFile
                   && !After(Fid(inputQueue.contents[0].majId, inputQueue.contents[0].minId), Fid(ackMaj, ackMin)))
    {
      hide PermFifo.Valid, PermFifo.Abs, IsWindow, IsSent, FileQueue.Valid, FrameSender.Valid, Can, After, ClOf, CurrentOf;
      if sender.currentFile.Some? {
        sender.CurrentIsStarted();
      }
      if AckOk() {
        GuardIsCan(name, fifo.low, fifo.Abs(), inputQueue.contents, Index(), sender.started, sender.Idle(),
                   sender.currentFile, ackMin, ackMaj, link);
      }
    }

    /** The current file is not the head of the window, unless it is its only started file. */
    lemma CurrentIsLater(first: nat)
      requires sender.Valid() && inputQueue.contents != [] && Some(inputQueue.contents[0]) != sender.currentFile
      requires IsSent(name, first, inputQueue.contents, Index(), sender.started)
      requires sender.currentFile.Some? ==> currentFileIndex > 0
      ensures sender.currentFile.Some? ==> currentFileIndex > 1
    {
      if sender.currentFile.Some? {
        var q, started := inputQueue.contents, sender.started;
        assert q[..currentFileIndex][0] == started[|started| - currentFileIndex..][0];
      }
    }

    /** The file at the index, after moving one there from the permanent FIFO if there is none and there is room. */
    method FindFile() returns (file: Option<Frame>)
      requires Valid()
      modifies inputQueue, inputQueue.data, fifo.Repr()
      ensures Valid() && fifo.low == old(fifo.low)
      ensures file.Some? == old(HasNext()) && (file.None? ==> !HasNext())
      ensures fifo.Abs().written == old(fifo.Abs().written) && fifo.Abs().acked == old(fifo.Abs().acked)
      ensures file == if currentFileIndex < |inputQueue.contents| then Some(inputQueue.contents[currentFileIndex]) else None
      ensures var next := fifo.Abs().acked + currentFileIndex + 1;
              fifo.Abs().read == if file.Some? && old(fifo.Abs().read) < next then next else old(fifo.Abs().read)
    {
      hide PermFifo.Valid, PermFifo.Abs, IsWindow, FileQueue.Valid, FrameSender.Valid;
      WindowSize(name, fifo.low, fifo.Abs(), inputQueue.contents);
      file := inputQueue.ReadIndex(currentFileIndex);
      var full := inputQueue.IsFull();
      if file.None? && !full {
        ghost var a, q := fifo.Abs(), inputQueue.contents;
        var rc, item := fifo.Read();
        if rc == 0 {
          var f := Frame(name, item.id, 1, item.data);
          WindowGrows(name, fifo.low, a, q);
          SentStays(name, fifo.low + a.acked + 1, q, currentFileIndex, sender.started, f);
          var ok := inputQueue.Write(f);
          file := Some(f);
        }
      }
    }

    /** An idle sender starts the next file, from the window or else from the permanent FIFO, if there is one. */
    method StartNext() returns (ghost steps: seq<ClStep>)
      requires Valid() && sender.Idle()
      modifies this`currentFileIndex, inputQueue, inputQueue.data, fifo.Repr(), sender
      ensures Valid() && fifo.low == old(fifo.low) && sender.wire == old(sender.wire)
      ensures fifo.Abs().written == old(fifo.Abs().written) && fifo.Abs().acked == old(fifo.Abs().acked)
      ensures if old(HasNext()) then
                && steps == [ClStart] && sender.currentFile.Some? && sender.fileTransfertDeinit
                && sender.started == old(sender.started) + [sender.currentFile.value]
                && sender.currentFile.value.minId == fifo.low + fifo.Abs().acked + currentFileIndex
                && currentFileIndex == old(currentFileIndex) + 1
              else
                && steps == [] && sender.Idle() && sender.started == old(sender.started) && !HasNext()
                && currentFileIndex == old(currentFileIndex)
      ensures CanAll(old(AsClient()), steps) && AsClient() == DoAll(old(AsClient()), steps)
    {
      hide PermFifo.Valid, PermFifo.Abs, IsWindow, IsSent, FileQueue.Valid, FrameSender.Valid, CanAll, DoAll, HasNext;
      steps := [];
      NoSteps(AsClient());
      var file := FindFile();
      if file.Some? {
        steps := [ClStart];
        OneStep(old(AsClient()), ClStart);
        ghost var a, q := fifo.Abs(), inputQueue.contents;
        fifo.NoEmptyPayload();
        SentGrows(name, fifo.low, a, q, currentFileIndex, sender.started);
        WindowAt(name, fifo.low, a, q, currentFileIndex);
        currentFileIndex := currentFileIndex + 1;
        sender.Begin(file.value);
      }
    }

    /** Picks the next file when nothing is being sent; or, when the data of the last one is sent, its end line. */
    method NextFile() returns (ghost steps: seq<ClStep>)
      requires Valid()
      modifies this`currentFileIndex, inputQueue, inputQueue.data, fifo.Repr(), sender
      ensures Valid() && fifo.low == old(fifo.low) && sender.wire == old(sender.wire)
      ensures fifo.Abs().written == old(fifo.Abs().written) && fifo.Abs().acked == old(fifo.Abs().acked)
      ensures steps == if old(sender.Idle() && HasNext()) then [ClStart] else []
      // An idle sender starts the next file if there is one.
      ensures if old(sender.Idle() && HasNext()) then
                && sender.currentFile.Some? && sender.started == old(sender.started) + [sender.currentFile.value]
                && sender.currentFile.value.minId == fifo.low + fifo.Abs().acked + currentFileIndex
                && currentFileIndex == old(currentFileIndex) + 1
              else sender.started == old(sender.started) && currentFileIndex == old(currentFileIndex)
      ensures old(sender.Idle()) ==> if old(HasNext()) then sender.fileTransfertDeinit else sender.Idle() && !HasNext()
      // One that only owes the end line gets it ready, and any other one goes on.
      ensures !old(sender.Idle()) ==>
                && (sender.currentFile.Some? || sender.start < sender.stop)
                && sender.Owed() == old(sender.Owed()) && sender.Refills() == old(sender.Refills())
      ensures CanAll(old(AsClient()), steps) && AsClient() == DoAll(old(AsClient()), steps)
    {
      hide PermFifo.Valid, PermFifo.Abs, IsWindow, IsSent, FileQueue.Valid, FrameSender.Valid, CanAll, DoAll, HasNext,
        FrameSender.Owed;
      steps := [];
      NoSteps(AsClient());
      sender.BufferOk();
      if sender.currentFile.None? && sender.start == sender.stop {
        if !sender.fileTransfertDeinit {
          steps := StartNext();
        } else {
          sender.Finish();
        }
      }
    }

    /** One turn of the sending loop: the command lines received, then at most `limit` bytes to the socket.
        False stands for leaving the loop on a socket error. What it does are steps of a protocol client. */
    method Iterate(commands: seq<string>, limit: nat, fails: bool) returns (go: bool, ghost steps: seq<ClStep>)
      requires Valid()
      modifies this`ackMin, this`ackMaj, this`serverShutdownRequest, this`currentFileIndex, inputQueue, inputQueue.data, fifo.Repr(), sender
      ensures Valid() && old(sender.wire) <= sender.wire && old(sender.started) <= sender.started
      ensures fifo.low == old(fifo.low) && fifo.Abs().written == old(fifo.Abs().written)
      ensures old(fifo.Abs().acked) <= fifo.Abs().acked
      ensures (ackMin, ackMaj) == LastAck(commands, (old(ackMin), old(ackMaj)))
      ensures serverShutdownRequest <==> old(serverShutdownRequest) || AsksToClose(commands)
      ensures fifo.Abs().acked > old(fifo.Abs().acked) ==> !After(Fid(1, fifo.low + fifo.Abs().acked), Fid(ackMaj, ackMin))
      ensures old(AckOk()) && FromServer(commands) ==>
                AckOk() && CanAll(old(AsClient()), steps) && AsClient() == DoAll(old(AsClient()), steps)
      // Unless the socket fails or takes nothing, a turn brings the sender on: a file is started, bytes are sent, or the buffer
      // is filled again. A sender stays idle only when there is no file to send.
      ensures go == !fails
      ensures old(sender.Idle()) && sender.Idle() ==> !HasNext() && Left() <= old(Left())
      ensures go && limit > 0 && !(old(sender.Idle()) && sender.Idle()) ==>
                || Left() < old(Left())
                || (Left() == old(Left())
                    && (|sender.Owed()| < |old(sender.Owed())|
                        || (|sender.Owed()| == |old(sender.Owed())| && sender.Refills() < old(sender.Refills()))))
    {
      hide PermFifo.Valid, PermFifo.Abs, IsWindow, IsSent, FileQueue.Valid, FrameSender.Valid, After;
      hide CanAll, DoAll, Can, Do, FromServer, LastAck, AckId, ClOf, CurrentOf, AsksToClose, HasNext;
      hide FrameSender.Owed, FrameSender.Refilled, FrameSender.Refills, FrameSender.Unsent;
      ghost var before := AsClient();
      ghost var read := ReadCommands(commands);
      ghost var removed := RemoveAcknowledged();
      ghost var started := NextFile();
      ghost var sent;
      go, sent := Transmit(limit, fails);
      steps := read + removed + started + sent;
      Joined(before, read, removed);
      Joined(before, read + removed, started);
      Joined(before, read + removed + started, sent);
    }

    /** Refills the empty send buffer, then sends. */
    method Transmit(limit: nat, fails: bool) returns (go: bool, ghost steps: seq<ClStep>)
      requires Valid()
      modifies sender
      ensures Valid() && old(sender.wire) <= sender.wire && old(sender.started) == sender.started && go == !fails
      ensures old(sender.Idle()) ==> sender.Idle()
      ensures old(sender.fileTransfertDeinit) ==> !sender.Idle()
      // Unless the socket fails, the first bytes of the buffer are sent, as many as it takes.
      ensures var buffer := old(sender.Refilled());
              sender.wire == old(sender.wire) + if fails then [] else buffer[..if limit < |buffer| then limit else |buffer|]
      ensures go && limit > 0 && old(sender.currentFile.Some? || sender.start < sender.stop) ==>
                || |sender.Owed()| < |old(sender.Owed())|
                || (|sender.Owed()| == |old(sender.Owed())| && sender.Refills() < old(sender.Refills()))
      ensures CanAll(old(AsClient()), steps) && AsClient() == DoAll(old(AsClient()), steps)
    {
      hide PermFifo.Valid, PermFifo.Abs, IsWindow, IsSent, FileQueue.Valid, FrameSender.Valid, CanAll, DoAll, CurrentOf,
        FrameSender.Owed, FrameSender.Refilled, FrameSender.Refills, FrameSender.Unsent;
      ghost var low, a, index, ackId, started := fifo.low, fifo.Abs(), Index(), AckId(ackMin, ackMaj), sender.started;
      if !sender.Idle() {
        sender.BusyHasStarted();
        LastIsPositive(name, low + a.acked + 1, inputQueue.contents, currentFileIndex, started);
      }
      ghost var file, idle := sender.currentFile, sender.Idle();
      sender.RefillIfEmpty();
      ghost var refilled := RefillStep(low, a, index, ackId, link, started, file, sender.currentFile, idle);
      ghost var before := old(AsClient());
      assert CanAll(before, refilled) && AsClient() == DoAll(before, refilled);
      go := !fails;
      if go {
        sender.SendSome(limit);
      }
      ghost var finished := SendStep(low, a, index, ackId, link, started, sender.currentFile, idle, sender.Idle());
      steps := refilled + finished;
      Joined(before, refilled, finished);
    }

    /** The lines received from the server: acknowledgements, and the request to shut down, which is only noted. */
    method ReadCommands(commands: seq<string>) returns (ghost steps: seq<ClStep>)
      requires fifo.Valid()
      modifies this`ackMin, this`ackMaj, this`serverShutdownRequest
      ensures fifo.Valid() && (ackMin, ackMaj) == LastAck(commands, (old(ackMin), old(ackMaj)))
      ensures serverShutdownRequest <==> old(serverShutdownRequest) || AsksToClose(commands)
      ensures old(AckOk()) && FromServer(commands) ==>
                AckOk() && CanAll(old(AsClient()), steps) && AsClient() == DoAll(old(AsClient()), steps)
    {
      hide ParseAck, PermFifo.Valid, PermFifo.Abs, CanAll, DoAll, CurrentOf, AckSteps, FromServer;
      steps := AckSteps(commands);
      if AckOk() && FromServer(commands) {
        AcksRead(AsClient(), commands, (ackMin, ackMaj));
      }
      for i := 0 to |commands|
        invariant (ackMin, ackMaj) == LastAck(commands[..i], (old(ackMin), old(ackMaj)))
        invariant serverShutdownRequest <==> old(serverShutdownRequest) || AsksToClose(commands[..i])
      {
        assert commands[..i + 1][..i] == commands[..i];
        var ack := ParseAck(commands[i]);
        if ack.Some? {
          ackMin, ackMaj := ack.value.0, ack.value.1;
        }
        if "CLOS" <= commands[i] {
          serverShutdownRequest := true;
        }
      }
      assert commands[..|commands|] == commands;
    }
  }

  lemma OneStep(cl: Cl, step: ClStep)
    ensures CanAll(cl, [step]) <==> Can(cl, step)
    ensures DoAll(cl, [step]) == Do(cl, step)
  {
    hide Can, Do;
    NoSteps(cl);
    OneMore(cl, [], step);
    assert [] + [step] == [step];
  }

  /** Filling the send buffer can make the current file one that lacks only its end line. */
  lemma RefillStep(low: nat, a: Queue, index: nat, ackId: nat, link: nat, started: seq<Frame>, file: Option<Frame>,
      newFile: Option<Frame>, idle: bool) returns (steps: seq<ClStep>)
    requires file.Some? ==> !idle
    requires idle || (started != [] && started[|started| - 1].minId > 0)
    requires newFile == file || newFile.None?
    ensures var c := ClOf(low, a, index, ackId, link, CurrentOf(started, idle), file.None? && !idle);
            && CanAll(c, steps)
            && DoAll(c, steps) == ClOf(low, a, index, ackId, link, CurrentOf(started, idle), newFile.None? && !idle)
  {
    hide CanAll, DoAll;
    var c := ClOf(low, a, index, ackId, link, CurrentOf(started, idle), file.None? && !idle);
    steps := if newFile == file then [] else [ClDrop];
    NoSteps(c);
    OneStep(c, ClDrop);
  }

  /** Sending can complete the end line. */
  lemma SendStep(low: nat, a: Queue, index: nat, ackId: nat, link: nat, started: seq<Frame>, file: Option<Frame>,
      idle: bool, nowIdle: bool) returns (steps: seq<ClStep>)
    requires (idle ==> nowIdle) && (nowIdle ==> file.None?)
    requires idle || (started != [] && started[|started| - 1].minId > 0)
    ensures var c := ClOf(low, a, index, ackId, link, CurrentOf(started, idle), file.None? && !idle);
            && CanAll(c, steps)
            && DoAll(c, steps) == ClOf(low, a, index, ackId, link, CurrentOf(started, nowIdle), file.None? && !nowIdle)
  {
    hide CanAll, DoAll;
    var c := ClOf(low, a, index, ackId, link, CurrentOf(started, idle), file.None? && !idle);
    steps := if nowIdle == idle then [] else [ClFinish];
    NoSteps(c);
    OneStep(c, ClFinish);
  }

  lemma LastIsPositive(name: string, first: nat, q: seq<Frame>, index: int, started: seq<Frame>)
    requires IsSent(name, first, q, index, started) && started != []
    ensures started[|started| - 1].minId > 0
  {
  }

  lemma NoSteps(cl: Cl)
    ensures CanAll(cl, []) && DoAll(cl, []) == cl
  {
  }

  lemma WindowAt(name: string, low: nat, a: Queue, q: seq<Frame>, k: nat)
    requires IsWindow(name, low, a, q) && k < |q|
    ensures q[k].minId == low + a.acked + 1 + k
  {
  }

  /** End to end over one connection: whatever prefix of the client's bytes reaches a server connection ready for a
      file, the server queues a prefix of the files the client started, unchanged, in increasing
      order of their ids. */
  lemma {:induction false} ConnectionDelivers(c: Client, p: Parser, received: seq<char>) returns (n: nat)
    requires c.Valid() && IsWord(c.name)
    requires forall f :: f in c.sender.started ==> Sendable(f) && HeaderFits(f)
    requires received <= c.sender.wire && p.open && p.phase == Begin && p.pending == []
    ensures n <= |c.sender.started| && FeedAll(p, received).files == p.files + c.sender.started[..n]
    ensures forall i, j :: 0 <= i < j < n ==> c.sender.started[i].minId < c.sender.started[j].minId
  {
    hide PermFifo.Valid, PermFifo.Abs, IsWindow, FileQueue.Valid, FrameSender.Valid, IsWord, Sendable, HeaderFits, FeedAll;
    forall f | f in c.sender.started ensures Sendable(f) && Receivable(f) {
      assert f.source == c.name && f.data != [];
    }
    n := ServerQueuesStarted(c.sender, p, received);
  }

  lemma LeftIsNat(c: Client)
    requires c.Valid()
    ensures c.Left() >= 0
  {
    hide PermFifo.Valid, PermFifo.Abs, FileQueue.Valid, FrameSender.Valid;
  }

  /** Every item of the window was started on this connection when none of it is left. */
  lemma AllStarted(c: Client, k: nat)
    requires c.Valid() && c.sender.Idle() && !c.HasNext() && c.fifo.Abs().acked <= k < c.fifo.Abs().read
    ensures k < |c.fifo.Abs().written|
    ensures Frame(c.name, c.fifo.low + k + 1, 1, c.fifo.Abs().written[k]) in c.sender.started
  {
    hide PermFifo.Valid, PermFifo.Abs, FileQueue.Valid, FrameSender.Valid;
    var q, i := c.inputQueue.contents, k - c.fifo.Abs().acked;
    assert q[i] == Frame(c.name, c.fifo.low + k + 1, 1, c.fifo.Abs().written[k]);
    assert q[..c.currentFileIndex][i] == q[i];
    assert q[i] in c.sender.started[|c.sender.started| - c.currentFileIndex..];
  }

  /** Enough turns of the loop, each of which sends a little, put all the files there are on the wire, complete: those of the
      window, which then is full or holds everything written and not acknowledged. */
  method SendPending(c: Client, limit: nat)
    requires c.Valid() && limit > 0
    modifies c, c.inputQueue, c.inputQueue.data, c.fifo.Repr(), c.sender
    ensures c.Valid() && c.sender.Idle() && c.sender.wire == Stream(c.sender.started) && old(c.sender.wire) <= c.sender.wire
    ensures c.fifo.low == old(c.fifo.low) && c.fifo.Abs().written == old(c.fifo.Abs().written)
    ensures old(c.fifo.Abs().acked) <= c.fifo.Abs().acked <= c.fifo.Abs().read <= |c.fifo.Abs().written|
    ensures forall k :: c.fifo.Abs().acked <= k < c.fifo.Abs().read ==>
              Frame(c.name, c.fifo.low + k + 1, 1, c.fifo.Abs().written[k]) in c.sender.started
    ensures c.fifo.Abs().read == |c.fifo.Abs().written| || c.fifo.Abs().read - c.fifo.Abs().acked >= c.inputQueue.size
  {
    hide PermFifo.Valid, PermFifo.Abs, FileQueue.Valid, FrameSender.Valid, IsWindow, IsSent, After, Stream;
    hide Client.AsClient, FrameSender.Owed, FrameSender.Refills;
    var done := false;
    while !done
      invariant c.Valid() && old(c.sender.wire) <= c.sender.wire
      invariant c.fifo.low == old(c.fifo.low) && c.fifo.Abs().written == old(c.fifo.Abs().written)
      invariant old(c.fifo.Abs().acked) <= c.fifo.Abs().acked
      invariant done ==> c.sender.Idle() && !c.HasNext()
      decreases !done, c.Left(), |c.sender.Owed()|, c.sender.Refills()
    {
      LeftIsNat(c);
      var idle := c.sender.Idle();
      var _, steps := c.Iterate([], limit, false);
      done := idle && c.sender.Idle();
    }
    c.sender.WireWhenIdle();
    WindowSize(c.name, c.fifo.low, c.fifo.Abs(), c.inputQueue.contents);
    forall k | c.fifo.Abs().acked <= k < c.fifo.Abs().read
      ensures Frame(c.name, c.fifo.low + k + 1, 1, c.fifo.Abs().written[k]) in c.sender.started
    {
      AllStarted(c, k);
    }
  }

  /** The whole way of one message: given to the client, sent in small pieces, and parsed by a server that has room, it is
      queued with exactly its text, unless an acknowledgement for it was there already. */
  method MessageArrives(c: Client, s: string, rest: seq<char>, limit: nat, now: int, ghost p: Parser) returns (ghost id: nat)
    requires c.Valid() && limit > 0 && '\0' !in s && IsWord(c.name) && '\0' !in c.name
    requires |c.fifo.Abs().written| - c.fifo.Abs().acked < c.inputQueue.size
    requires p.open && p.phase == Begin && p.pending == []
    modifies c, c.inputQueue, c.inputQueue.data, c.fifo.Repr(), c.sender
    ensures c.Valid() && c.fifo.Abs().written == old(c.fifo.Abs().written) + [s + "\0"]
    ensures id == c.fifo.low + |c.fifo.Abs().written|
    ensures id <= c.fifo.low + c.fifo.Abs().acked || Frame(c.name, id, 1, s + "\0") in c.sender.started
    ensures p.room >= |c.sender.started| && (forall f :: f in c.sender.started ==> HeaderFits(f)) ==>
              FeedAll(p, c.sender.wire).files == p.files + c.sender.started
  {
    hide PermFifo.Valid, PermFifo.Abs, FileQueue.Valid, FrameSender.Valid, IsWindow, IsSent, After, Stream, FeedAll, IsWord;
    hide HeaderFits, Client.AsClient, Client.HasNext, Client.Left;
    var data := s + "\0" + rest;
    assert data[|s|] == '\0' && data[..|s|] == s && data[..|s| + 1] == s + "\0";
    var _ := c.SendMsg(data, now);
    SendPending(c, limit);
    id := c.fifo.low + |c.fifo.Abs().written|;
    assert c.fifo.Abs().read == |c.fifo.Abs().written|;
    assert c.fifo.Abs().written[|c.fifo.Abs().written| - 1] == s + "\0";
    if p.room >= |c.sender.started| && forall f :: f in c.sender.started ==> HeaderFits(f) {
      StartedAreOwn(c);
      StreamReceived(p, c.sender.started);
      assert c.sender.started[..|c.sender.started|] == c.sender.started;
    }
  }

  lemma StartedAreOwn(c: Client)
    requires c.Valid()
    ensures forall f :: f in c.sender.started ==> f.source == c.name && f.data != []
  {
    hide PermFifo.Valid, PermFifo.Abs, FileQueue.Valid, FrameSender.Valid, IsWindow;
  }
}
