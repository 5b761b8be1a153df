/** The transmit and acknowledge protocol between many clients (src/transport_client.c) and one server
    (src/transport_server.c, src/infoLoggerServer.cxx): windows, cumulative acknowledgements, disconnections,
    reconnections that send again from the oldest file not acknowledged, and connection slots that are reused.

    The unit is a whole file: modules Framing and ServerConnection show that a cut byte stream carries a prefix of
    the files sent. Ids are those of the permanent FIFO; all files have the same major id. */
module Protocol {
  import opened ClientSteps
  import opened Options

  /** A TCP connection: the files completely sent, how many of them the server has queued, and how many of these it
      has processed; the acknowledgements the server has sent and how many of them the client has read. */
  datatype Conn = Conn(client: nat, frames: seq<nat>, delivered: nat, done: nat, ackLog: seq<nat>, ackRead: nat) {
    /** The id of the last file processed. */
    function Last(): nat
      requires done <= |frames|
    {
      if done == 0 then 0 else frames[done - 1]
    }
  }

  /** An entry of the server's connection table. cxId is -1 when the slot is free. */
  datatype Slot = Slot(socket: Option<nat>, cxId: int, ackFile: nat, nonAcknowledged: nat)

  /** A received file in the output queue: sender_magic, sender and id, and its position on its connection. */
  datatype Entry = Entry(slot: nat, cxId: nat, id: nat, pos: nat)

  /** accepted[cxId] is the connection that got this identifier; processed and received record (client, id). */
  datatype Net = Net(
    clients: seq<Cl>, conns: seq<Conn>, slots: seq<Slot>, accepted: seq<nat>, queue: seq<Entry>,
    processed: set<(nat, nat)>, received: seq<(nat, nat)>)

  datatype Action =
    | Write(c: nat)            // TR_client_send_msg
    | Connect(c: nat)
    | Disconnect(c: nat)
    | Start(c: nat)            // the next file becomes the current one
    | Drop(c: nat)             // only its end line is missing
    | Finish(c: nat)           // its last byte is sent
    | ReadAck(c: nat)          // an acknowledgement line is read
    | Remove(c: nat)           // an acknowledged file leaves the window: permFIFO_ack
    | Accept(s: nat, k: nat)
    | Close(s: nat)
    | Receive(s: nat)          // a file is pushed to the output queue
    | Process                  // TR_server_get_file, dispatch, TR_server_ack_file
    | SendAck(s: nat)          // TR_server_acknowledge_files

  predicate Enabled(n: Net, a: Action) {
    match a
    case Write(c) => c < |n.clients| && Can(n.clients[c], ClWrite)
    case Connect(c) => c < |n.clients| && Can(n.clients[c], ClConnect(|n.conns|))
    case Disconnect(c) => c < |n.clients| && Can(n.clients[c], ClDisconnect)
    case Start(c) => c < |n.clients| && Can(n.clients[c], ClStart)
    case Drop(c) => c < |n.clients| && Can(n.clients[c], ClDrop)
    case Finish(c) => c < |n.clients| && Can(n.clients[c], ClFinish) && n.clients[c].link.value < |n.conns|
    case ReadAck(c) =>
      c < |n.clients| && n.clients[c].link.Some? && n.clients[c].link.value < |n.conns|
      && var k := n.conns[n.clients[c].link.value]; k.ackRead < |k.ackLog|
    case Remove(c) => c < |n.clients| && Can(n.clients[c], ClRemove)
    case Accept(s, k) =>
      s < |n.slots| && k < |n.conns| && n.slots[s].socket.None? && k !in n.accepted
    case Close(s) => s < |n.slots|
    case Receive(s) =>
      s < |n.slots| && n.slots[s].socket.Some? && n.slots[s].socket.value < |n.conns| && n.slots[s].cxId >= 0
      && var k := n.conns[n.slots[s].socket.value]; k.delivered < |k.frames|
    case Process => n.queue != [] && n.queue[0].slot < |n.slots| && n.queue[0].cxId < |n.accepted|
                    && n.accepted[n.queue[0].cxId] < |n.conns|
    case SendAck(s) =>
      s < |n.slots| && n.slots[s].socket.Some? && n.slots[s].socket.value < |n.conns| && n.slots[s].nonAcknowledged > 0
  }

  function ByClient(n: Net, c: nat, step: ClStep): Net
    requires c < |n.clients|
  {
    n.(clients := n.clients[c := Do(n.clients[c], step)])
  }

  function Apply(n: Net, a: Action): Net
    requires Enabled(n, a)
  {
    match a
    case Write(c) => ByClient(n, c, ClWrite)
    case Connect(c) => ByClient(n, c, ClConnect(|n.conns|)).(conns := n.conns + [Conn(c, [], 0, 0, [], 0)])
    case Disconnect(c) => ByClient(n, c, ClDisconnect)
    case Start(c) => ByClient(n, c, ClStart)
    case Drop(c) => ByClient(n, c, ClDrop)
    case Finish(c) =>
      var k := n.clients[c].link.value;
      var sent := n.conns[k].(frames := n.conns[k].frames + [n.clients[c].current.value]);
      ByClient(n, c, ClFinish).(conns := n.conns[k := sent])
    case ReadAck(c) =>
      var k := n.clients[c].link.value;
      var conn := n.conns[k];
      ByClient(n, c, ClAck(conn.ackLog[conn.ackRead])).(conns := n.conns[k := conn.(ackRead := conn.ackRead + 1)])
    case Remove(c) => ByClient(n, c, ClRemove)
    case Accept(s, k) =>
      n.(slots := n.slots[s := Slot(Some(k), |n.accepted|, 0, 0)], accepted := n.accepted + [k])
    case Close(s) =>
      n.(slots := n.slots[s := n.slots[s].(socket := None, cxId := -1)])
    case Receive(s) =>
      var k := n.slots[s].socket.value;
      var conn := n.conns[k];
      var id := conn.frames[conn.delivered];
      n.(conns := n.conns[k := conn.(delivered := conn.delivered + 1)],
         queue := n.queue + [Entry(s, n.slots[s].cxId, id, conn.delivered)],
         received := n.received + [(conn.client, id)])
    case Process =>
      var e := n.queue[0];
      var slot := n.slots[e.slot];
      var k := n.accepted[e.cxId];
      n.(queue := n.queue[1..],
         conns := n.conns[k := n.conns[k].(done := n.conns[k].done + 1)],
         processed := n.processed + {(n.conns[k].client, e.id)},
         slots := if slot.cxId == e.cxId && e.id > slot.ackFile
                  then n.slots[e.slot := slot.(ackFile := e.id, nonAcknowledged := slot.nonAcknowledged + 1)]
                  else n.slots)
    case SendAck(s) =>
      var slot := n.slots[s];
      var conn := n.conns[slot.socket.value];
      n.(conns := n.conns[slot.socket.value := conn.(ackLog := conn.ackLog + [slot.ackFile])],
         slots := n.slots[s := slot.(nonAcknowledged := 0)])
  }

  // What every step keeps.

  /** The server has processed every item of client c up to x. */
  ghost predicate Below(n: Net, c: nat, x: nat)
    requires c < |n.clients|
  {
    forall i :: n.clients[c].low < i <= x ==> (c, i) in n.processed
  }

  ghost predicate ClientOk(n: Net, c: nat)
    requires c < |n.clients|
  {
    var cl := n.clients[c];
    && cl.low <= cl.acked && cl.acked + cl.index <= cl.taken <= cl.written
    && Below(n, c, cl.acked) && Below(n, c, cl.ackId)
    && (cl.current.Some? ==>
          && cl.link.Some? && cl.low < cl.current.value
          && (if cl.ending && cl.index == 0 then cl.current.value <= cl.acked
              else cl.index > 0 && cl.current.value == cl.acked + cl.index))
    && match cl.link
       case None => cl.index == 0
       case Some(k) =>
         && k < |n.conns| && n.conns[k].client == c
         && (forall i :: cl.acked < i <= cl.acked + cl.index ==> i in n.conns[k].frames || cl.current == Some(i))
         && forall j :: 0 <= j < |n.conns[k].frames| ==>
              n.conns[k].frames[j] <= cl.acked + cl.index && (cl.current.Some? ==> n.conns[k].frames[j] < cl.current.value)
  }

  /** Position j of connection k is waiting among the first `upto` entries of the queue. */
  ghost predicate Queued(n: Net, upto: nat, k: nat, j: nat)
    requires upto <= |n.queue|
  {
    exists b :: 0 <= b < upto && n.queue[b].cxId < |n.accepted| && n.accepted[n.queue[b].cxId] == k && n.queue[b].pos == j
  }

  ghost predicate ConnOk(n: Net, k: nat)
    requires k < |n.conns|
  {
    var conn := n.conns[k];
    && conn.client < |n.clients| && conn.done <= conn.delivered <= |conn.frames| && conn.ackRead <= |conn.ackLog|
    && (k !in n.accepted ==> conn.ackLog == [] && conn.delivered == 0)
    && (forall i, j :: 0 <= i < j < |conn.frames| ==> conn.frames[i] < conn.frames[j])
    // Everything before a file was sent before it, on this connection, or is processed.
    && (forall j, i :: 0 <= j < |conn.frames| && n.clients[conn.client].low < i < conn.frames[j] ==>
          i in conn.frames[..j] || (conn.client, i) in n.processed)
    && (forall j :: 0 <= j < |conn.frames| ==> conn.frames[j] > n.clients[conn.client].low)
    && (forall j :: 0 <= j < conn.delivered ==> (conn.client, conn.frames[j]) in n.received)
    && (forall j :: 0 <= j < conn.done ==> (conn.client, conn.frames[j]) in n.processed)
    && (forall j :: conn.done <= j < conn.delivered ==> Queued(n, |n.queue|, k, j))
    // Acknowledgements name files of this connection, in increasing order.
    && (forall i :: 0 <= i < |conn.ackLog| ==>
          conn.ackLog[i] in conn.frames[..conn.done] && Below(n, conn.client, conn.ackLog[i]))
    && (forall i, j :: 0 <= i < j < |conn.ackLog| ==> conn.ackLog[i] < conn.ackLog[j])
  }

  ghost predicate SlotOk(n: Net, s: nat)
    requires s < |n.slots|
  {
    var slot := n.slots[s];
    match slot.socket
    case None => slot.cxId == -1
    case Some(k) =>
      && k < |n.conns| && 0 <= slot.cxId < |n.accepted| && n.accepted[slot.cxId] == k
      && n.conns[k].client < |n.clients| && n.conns[k].done <= |n.conns[k].frames|
      // The acknowledgement due names the last file processed on this very connection.
      && slot.ackFile == n.conns[k].Last()
      && Below(n, n.conns[k].client, slot.ackFile)
      && (slot.nonAcknowledged > 0 ==> n.conns[k].done > 0)
      && forall i :: 0 <= i < |n.conns[k].ackLog| ==>
           if slot.nonAcknowledged > 0 then n.conns[k].ackLog[i] < slot.ackFile else n.conns[k].ackLog[i] <= slot.ackFile
  }

  ghost predicate EntryOk(n: Net, a: nat)
    requires a < |n.queue|
  {
    var e := n.queue[a];
    && e.slot < |n.slots| && e.cxId < |n.accepted| && n.accepted[e.cxId] < |n.conns|
    && var conn := n.conns[n.accepted[e.cxId]];
    && conn.client < |n.clients|
    && conn.done <= e.pos < conn.delivered <= |conn.frames| && e.id == conn.frames[e.pos]
    && (forall j :: conn.done <= j < e.pos ==> Queued(n, a, n.accepted[e.cxId], j))
    && (forall b :: 0 <= b < a && n.queue[b].cxId == e.cxId ==> n.queue[b].pos != e.pos)
    && forall s :: 0 <= s < |n.slots| && n.slots[s].cxId == e.cxId ==> s == e.slot
  }

  /** The ids received from a client fill a range from its first one, at every moment: so the first receptions
      are in order. */
  ghost predicate InOrder(n: Net, received: seq<(nat, nat)>) {
    && (forall m :: 0 <= m < |received| ==>
          received[m].0 < |n.clients| && n.clients[received[m].0].low < received[m].1)
    && forall m, i :: 0 <= m < |received| && received[m].0 < |n.clients| && n.clients[received[m].0].low < i < received[m].1 ==>
         (received[m].0, i) in received[..m]
  }

  ghost predicate Accepted(n: Net) {
    && (forall x :: 0 <= x < |n.accepted| ==> n.accepted[x] < |n.conns|)
    && (forall x, y :: 0 <= x < y < |n.accepted| ==> n.accepted[x] != n.accepted[y])
    && (forall s, t :: 0 <= s < t < |n.slots| && n.slots[s].socket.Some? && n.slots[t].socket.Some? ==>
          n.slots[s].cxId != n.slots[t].cxId)
  }

  ghost predicate Inv(n: Net) {
    && (forall c :: 0 <= c < |n.clients| ==> ClientOk(n, c))
    && (forall k :: 0 <= k < |n.conns| ==> ConnOk(n, k))
    && (forall s :: 0 <= s < |n.slots| ==> SlotOk(n, s))
    && (forall a :: 0 <= a < |n.queue| ==> EntryOk(n, a))
    && Accepted(n)
    && InOrder(n, n.received)
    && (forall x :: x in n.processed ==> x in n.received)
  }

  // Frames: what a step leaves alone stays in order.

  /** Nothing is forgotten. */
  ghost predicate Extends(n: Net, m: Net) {
    && |m.clients| == |n.clients| && |m.slots| == |n.slots|
    && (forall c :: 0 <= c < |n.clients| ==> m.clients[c].low == n.clients[c].low)
    && n.processed <= m.processed && n.received <= m.received && n.accepted <= m.accepted
    && |n.conns| <= |m.conns|
    && (forall k :: 0 <= k < |n.conns| ==>
          && m.conns[k].client == n.conns[k].client && n.conns[k].frames <= m.conns[k].frames
          && n.conns[k].delivered <= m.conns[k].delivered <= |m.conns[k].frames|
          && n.conns[k].done <= m.conns[k].done)
  }

  lemma BelowExtends(n: Net, m: Net, c: nat, x: nat)
    requires Extends(n, m) && c < |n.clients| && Below(n, c, x)
    ensures Below(m, c, x)
  {
  }

  lemma ClientFrame(n: Net, m: Net, c: nat)
    requires Extends(n, m) && c < |n.clients| && m.clients[c] == n.clients[c] && ClientOk(n, c)
    requires var l := n.clients[c].link; l.Some? && l.value < |n.conns| ==> m.conns[l.value].frames == n.conns[l.value].frames
    ensures ClientOk(m, c)
  {
    hide Below;
    BelowExtends(n, m, c, n.clients[c].acked);
    BelowExtends(n, m, c, n.clients[c].ackId);
  }

  lemma QueuedFrame(n: Net, m: Net, upto: nat, k: nat, j: nat)
    requires Extends(n, m) && n.queue <= m.queue && upto <= |n.queue| && Queued(n, upto, k, j)
    ensures Queued(m, upto, k, j) && Queued(m, |m.queue|, k, j)
  {
    var b :| 0 <= b < upto && n.queue[b].cxId < |n.accepted| && n.accepted[n.queue[b].cxId] == k && n.queue[b].pos == j;
    assert m.queue[b] == n.queue[b];
  }

  lemma ConnFrame(n: Net, m: Net, k: nat)
    requires Extends(n, m) && n.queue <= m.queue && k < |n.conns| && ConnOk(n, k)
    requires m.conns[k].frames == n.conns[k].frames && m.conns[k].delivered == n.conns[k].delivered
    requires m.conns[k].done == n.conns[k].done
    requires m.conns[k].ackLog == n.conns[k].ackLog
    requires m.conns[k].ackRead == n.conns[k].ackRead || m.conns[k].ackRead <= |n.conns[k].ackLog|
    ensures ConnOk(m, k)
  {
    hide Below, Queued;
    var conn := n.conns[k];
    forall i | 0 <= i < |conn.ackLog| ensures Below(m, conn.client, conn.ackLog[i]) {
      BelowExtends(n, m, conn.client, conn.ackLog[i]);
    }
    forall j | conn.done <= j < conn.delivered ensures Queued(m, |m.queue|, k, j) {
      QueuedFrame(n, m, |n.queue|, k, j);
    }
    forall j | 0 <= j < conn.delivered ensures (conn.client, conn.frames[j]) in m.received {
      assert (conn.client, conn.frames[j]) in n.received;
    }
  }

  lemma SlotFrame(n: Net, m: Net, s: nat)
    requires Extends(n, m) && s < |n.slots| && m.slots[s] == n.slots[s] && SlotOk(n, s)
    requires n.slots[s].socket.Some? ==>
               && m.conns[n.slots[s].socket.value].ackLog == n.conns[n.slots[s].socket.value].ackLog
               && m.conns[n.slots[s].socket.value].done == n.conns[n.slots[s].socket.value].done
    ensures SlotOk(m, s)
  {
    hide Below;
    if n.slots[s].socket.Some? {
      BelowExtends(n, m, n.conns[n.slots[s].socket.value].client, n.slots[s].ackFile);
    }
  }

  /** A slot keeps its connection identifier, loses it, or gets a new one. */
  ghost predicate SlotsKeepIds(n: Net, m: Net) {
    && |m.slots| == |n.slots|
    && forall s :: 0 <= s < |n.slots| ==> m.slots[s].cxId == n.slots[s].cxId || m.slots[s].cxId in {-1, |n.accepted|}
  }

  lemma EntryFrame(n: Net, m: Net, a: nat)
    requires Extends(n, m) && n.queue <= m.queue && a < |n.queue| && EntryOk(n, a)
    requires n.queue[a].cxId < |n.accepted| && n.accepted[n.queue[a].cxId] < |n.conns| ==>
               m.conns[n.accepted[n.queue[a].cxId]].done == n.conns[n.accepted[n.queue[a].cxId]].done
    requires SlotsKeepIds(n, m)
    ensures EntryOk(m, a)
  {
    hide Queued;
    var e, k := n.queue[a], n.accepted[n.queue[a].cxId];
    assert forall b :: 0 <= b <= a ==> m.queue[b] == n.queue[b];
    forall j | n.conns[k].done <= j < e.pos ensures Queued(m, a, k, j) {
      QueuedFrame(n, m, a, k, j);
    }
  }

  /** All but client c0, connection k0 and slot s0 are left alone; acknowledgements are added at most to the
      connection of slot s0. */
  ghost predicate Untouched(n: Net, m: Net, c0: int, k0: int, s0: int) {
    && Extends(n, m) && n.queue <= m.queue && SlotsKeepIds(n, m)
    && |m.clients| == |n.clients| && |m.slots| == |n.slots| && |n.conns| <= |m.conns|
    && (forall c :: 0 <= c < |n.clients| && c != c0 ==>
          && m.clients[c] == n.clients[c]
          && var l := n.clients[c].link; l.Some? && l.value < |n.conns| ==> m.conns[l.value].frames == n.conns[l.value].frames)
    && (forall k :: 0 <= k < |n.conns| ==> m.conns[k].done == n.conns[k].done)
    && (forall k :: 0 <= k < |n.conns| && k != k0 ==> m.conns[k] == n.conns[k])
    && (forall s :: 0 <= s < |n.slots| && s != s0 ==>
          && m.slots[s] == n.slots[s]
          && (n.slots[s].socket.Some? && n.slots[s].socket.value < |n.conns| ==>
                m.conns[n.slots[s].socket.value].ackLog == n.conns[n.slots[s].socket.value].ackLog))
  }

  lemma Frame(n: Net, m: Net, c0: int, k0: int, s0: int)
    requires Inv(n) && Untouched(n, m, c0, k0, s0)
    ensures forall c :: 0 <= c < |n.clients| && c != c0 ==> ClientOk(m, c)
    ensures forall k :: 0 <= k < |n.conns| && k != k0 ==> ConnOk(m, k)
    ensures forall s :: 0 <= s < |n.slots| && s != s0 ==> SlotOk(m, s)
    ensures forall a :: 0 <= a < |n.queue| ==> EntryOk(m, a)
  {
    hide Extends, ClientOk, ConnOk, EntryOk, Below, Queued, InOrder, Accepted;
    forall c | 0 <= c < |n.clients| && c != c0 ensures ClientOk(m, c) {
      assert ClientOk(n, c);
      ClientFrame(n, m, c);
    }
    forall k | 0 <= k < |n.conns| && k != k0 ensures ConnOk(m, k) {
      assert ConnOk(n, k);
      ConnFrame(n, m, k);
    }
    forall s | 0 <= s < |n.slots| && s != s0 ensures SlotOk(m, s) {
      assert SlotOk(n, s);
      SlotFrame(n, m, s);
    }
    forall a | 0 <= a < |n.queue| ensures EntryOk(m, a) {
      assert EntryOk(n, a);
      EntryFrame(n, m, a);
    }
  }

  lemma DeliveredWasSent(n: Net)
    requires Inv(n)
    ensures forall k :: 0 <= k < |n.conns| ==> n.conns[k].delivered <= |n.conns[k].frames|
  {
    forall k | 0 <= k < |n.conns| ensures n.conns[k].delivered <= |n.conns[k].frames| {
      assert ConnOk(n, k);
    }
  }

  // The steps of a client.

  lemma WriteKeeps(n: Net, c: nat)
    requires Inv(n) && Enabled(n, Write(c))
    ensures Inv(Apply(n, Write(c)))
  {
    var m := Apply(n, Write(c));
    DeliveredWasSent(n);
    Frame(n, m, c, -1, -1);
    assert ClientOk(n, c);
    assert ClientOk(m, c);
  }

  lemma ConnectKeeps(n: Net, c: nat)
    requires Inv(n) && Enabled(n, Connect(c))
    ensures Inv(Apply(n, Connect(c)))
  {
    var m := Apply(n, Connect(c));
    DeliveredWasSent(n);
    Frame(n, m, c, -1, -1);
    assert ClientOk(n, c);
    assert ClientOk(m, c);
    assert ConnOk(m, |n.conns|);
  }

  lemma DisconnectKeeps(n: Net, c: nat)
    requires Inv(n) && Enabled(n, Disconnect(c))
    ensures Inv(Apply(n, Disconnect(c)))
  {
    var m := Apply(n, Disconnect(c));
    DeliveredWasSent(n);
    Frame(n, m, c, -1, -1);
    assert ClientOk(n, c);
    assert ClientOk(m, c);
  }

  lemma StartKeeps(n: Net, c: nat)
    requires Inv(n) && Enabled(n, Start(c))
    ensures Inv(Apply(n, Start(c)))
  {
    var m := Apply(n, Start(c));
    DeliveredWasSent(n);
    Frame(n, m, c, -1, -1);
    assert ClientOk(n, c);
    assert ClientOk(m, c);
  }

  lemma DropKeeps(n: Net, c: nat)
    requires Inv(n) && Enabled(n, Drop(c))
    ensures Inv(Apply(n, Drop(c)))
  {
    var m := Apply(n, Drop(c));
    DeliveredWasSent(n);
    Frame(n, m, c, -1, -1);
    assert ClientOk(n, c);
    assert ClientOk(m, c);
  }

  lemma RemoveKeeps(n: Net, c: nat)
    requires Inv(n) && Enabled(n, Remove(c))
    ensures Inv(Apply(n, Remove(c)))
  {
    var m := Apply(n, Remove(c));
    DeliveredWasSent(n);
    Frame(n, m, c, -1, -1);
    assert ClientOk(n, c);
    assert ClientOk(m, c);
  }

  lemma ReadAckClient(n: Net, c: nat)
    requires Inv(n) && Enabled(n, ReadAck(c))
    ensures ClientOk(Apply(n, ReadAck(c)), c)
    ensures ConnOk(n, n.clients[c].link.value)
  {
    hide Queued, InOrder, Accepted, SlotOk, EntryOk;
    assert ClientOk(n, c) && ConnOk(n, n.clients[c].link.value);
  }

  lemma ReadAckKeeps(n: Net, c: nat)
    requires Inv(n) && Enabled(n, ReadAck(c))
    ensures Inv(Apply(n, ReadAck(c)))
  {
    hide ClientOk, ConnOk, SlotOk, EntryOk, Below, Queued, InOrder, Accepted;
    var m := Apply(n, ReadAck(c));
    var k := n.clients[c].link.value;
    DeliveredWasSent(n);
    ReadAckClient(n, c);
    Frame(n, m, c, k, -1);
    ConnFrame(n, m, k);
    SameOrder(n, m);
  }

  /** What does not depend on clients, connections and the queue. */
  lemma SameOrder(n: Net, m: Net)
    requires Extends(n, m) && Accepted(n) && InOrder(n, n.received)
    requires m.accepted == n.accepted && m.slots == n.slots && m.received == n.received
    ensures Accepted(m) && InOrder(m, m.received)
  {
  }

  /** A file was completely sent; everything before it was sent earlier or is processed. */
  lemma ConnGrows(n: Net, m: Net, k: nat, id: nat)
    requires Extends(n, m) && n.queue <= m.queue && k < |n.conns| && ConnOk(n, k)
    requires m.conns[k] == n.conns[k].(frames := n.conns[k].frames + [id])
    requires id > n.clients[n.conns[k].client].low && forall j :: 0 <= j < |n.conns[k].frames| ==> n.conns[k].frames[j] < id
    requires forall i :: n.clients[n.conns[k].client].low < i < id ==>
               i in n.conns[k].frames || (n.conns[k].client, i) in n.processed
    ensures ConnOk(m, k)
  {
    hide Below, Queued;
    var conn, frames := n.conns[k], m.conns[k].frames;
    forall j, i | 0 <= j < |frames| && m.clients[conn.client].low < i < frames[j]
      ensures i in frames[..j] || (conn.client, i) in m.processed
    {
      if j < |conn.frames| {
        assert frames[..j] == conn.frames[..j] && conn.frames[j] == frames[j];
      } else {
        assert frames[..j] == conn.frames;
      }
    }
    forall i | 0 <= i < |conn.ackLog| ensures Below(m, conn.client, conn.ackLog[i]) {
      BelowExtends(n, m, conn.client, conn.ackLog[i]);
    }
    assert frames[..conn.done] == conn.frames[..conn.done];
    forall j | 0 <= j < conn.delivered
      ensures (conn.client, frames[j]) in m.received
      ensures j >= conn.done ==> Queued(m, |m.queue|, k, j)
    {
      assert frames[j] == conn.frames[j] && (conn.client, conn.frames[j]) in n.received;
      if j >= conn.done {
        QueuedFrame(n, m, |n.queue|, k, j);
      }
    }
  }

  lemma FinishClient(n: Net, c: nat)
    requires Inv(n) && Enabled(n, Finish(c))
    ensures ClientOk(Apply(n, Finish(c)), c)
    ensures forall d :: 0 <= d < |n.clients| && d != c ==> n.clients[d].link != n.clients[c].link
  {
    hide Queued, InOrder, Accepted, SlotOk, EntryOk;
    assert ClientOk(n, c) && ConnOk(n, n.clients[c].link.value);
    forall d | 0 <= d < |n.clients| && d != c ensures n.clients[d].link != n.clients[c].link {
      assert ClientOk(n, d);
    }
  }

  lemma FinishConn(n: Net, c: nat, k: nat)
    requires Inv(n) && Enabled(n, Finish(c)) && k == n.clients[c].link.value
    requires Extends(n, Apply(n, Finish(c)))
    ensures ConnOk(Apply(n, Finish(c)), k)
  {
    hide Queued, InOrder, Accepted, SlotOk, EntryOk;
    assert ClientOk(n, c) && ConnOk(n, k);
    ConnGrows(n, Apply(n, Finish(c)), k, n.clients[c].current.value);
  }

  lemma FinishKeeps(n: Net, c: nat)
    requires Inv(n) && Enabled(n, Finish(c))
    ensures Inv(Apply(n, Finish(c)))
  {
    hide ClientOk, ConnOk, SlotOk, EntryOk, Below, Queued, InOrder, Accepted;
    var m := Apply(n, Finish(c));
    DeliveredWasSent(n);
    FinishClient(n, c);
    Frame(n, m, c, n.clients[c].link.value, -1);
    FinishConn(n, c, n.clients[c].link.value);
    SameOrder(n, m);
  }

  // The steps of the server.

  lemma AcceptKeeps(n: Net, s: nat, k: nat)
    requires Inv(n) && Enabled(n, Accept(s, k))
    ensures Inv(Apply(n, Accept(s, k)))
  {
    var m := Apply(n, Accept(s, k));
    DeliveredWasSent(n);
    Frame(n, m, -1, -1, s);
    assert ConnOk(n, k);
    assert SlotOk(m, s);
    forall t | 0 <= t < |n.slots| && n.slots[t].socket.Some? ensures n.slots[t].cxId < |n.accepted| {
      assert SlotOk(n, t);
    }
  }

  lemma CloseKeeps(n: Net, s: nat)
    requires Inv(n) && Enabled(n, Close(s))
    ensures Inv(Apply(n, Close(s)))
  {
    var m := Apply(n, Close(s));
    DeliveredWasSent(n);
    Frame(n, m, -1, -1, s);
    assert SlotOk(m, s);
  }

  lemma SendAckParts(n: Net, s: nat)
    requires Inv(n) && Enabled(n, SendAck(s)) && Extends(n, Apply(n, SendAck(s)))
    ensures SlotOk(Apply(n, SendAck(s)), s) && ConnOk(Apply(n, SendAck(s)), n.slots[s].socket.value)
  {
    hide InOrder, EntryOk, ClientOk;
    var k := n.slots[s].socket.value;
    assert SlotOk(n, s) && ConnOk(n, k);
    AckLogGrows(n, Apply(n, SendAck(s)), k, n.slots[s].ackFile);
  }

  lemma OneSlotPerConn(n: Net, s: nat)
    requires Inv(n) && s < |n.slots| && n.slots[s].socket.Some?
    ensures forall t :: 0 <= t < |n.slots| && t != s ==> n.slots[t].socket != n.slots[s].socket
    ensures forall t :: 0 <= t < |n.slots| && t != s ==> n.slots[t].cxId != n.slots[s].cxId
  {
    hide InOrder, EntryOk, ClientOk, ConnOk, Below, Queued;
    assert SlotOk(n, s);
    forall t | 0 <= t < |n.slots| && t != s
      ensures n.slots[t].socket != n.slots[s].socket && n.slots[t].cxId != n.slots[s].cxId
    {
      assert SlotOk(n, t);
    }
  }

  lemma SendAckKeeps(n: Net, s: nat)
    requires Inv(n) && Enabled(n, SendAck(s))
    ensures Inv(Apply(n, SendAck(s)))
  {
    hide ClientOk, ConnOk, SlotOk, EntryOk, Below, Queued, InOrder;
    var m := Apply(n, SendAck(s));
    DeliveredWasSent(n);
    OneSlotPerConn(n, s);
    Frame(n, m, -1, n.slots[s].socket.value, s);
    SendAckParts(n, s);
    ClientsSame(n, m);
  }

  lemma ClientsSame(n: Net, m: Net)
    requires m.clients == n.clients && m.received == n.received && InOrder(n, n.received)
    ensures InOrder(m, m.received)
  {
  }

  lemma AckLogGrows(n: Net, m: Net, k: nat, ack: nat)
    requires Extends(n, m) && n.queue <= m.queue && k < |n.conns| && ConnOk(n, k) && k in n.accepted
    requires m.conns[k] == n.conns[k].(ackLog := n.conns[k].ackLog + [ack])
    requires ack in n.conns[k].frames[..n.conns[k].done] && Below(n, n.conns[k].client, ack)
    requires forall i :: 0 <= i < |n.conns[k].ackLog| ==> n.conns[k].ackLog[i] < ack
    ensures ConnOk(m, k)
  {
    hide Below, Queued;
    var conn := n.conns[k];
    forall i | 0 <= i < |conn.ackLog + [ack]| ensures Below(m, conn.client, (conn.ackLog + [ack])[i]) {
      BelowExtends(n, m, conn.client, (conn.ackLog + [ack])[i]);
    }
    forall j | 0 <= j < conn.delivered
      ensures (conn.client, conn.frames[j]) in m.received
      ensures j >= conn.done ==> Queued(m, |m.queue|, k, j)
    {
      assert (conn.client, conn.frames[j]) in n.received;
      if j >= conn.done {
        QueuedFrame(n, m, |n.queue|, k, j);
      }
    }
  }

  /** The next file of connection k, in slot s, joins the queue. */
  lemma ConnDelivers(n: Net, m: Net, s: nat, k: nat)
    requires Inv(n) && Enabled(n, Receive(s)) && k == n.slots[s].socket.value && m == Apply(n, Receive(s))
    requires Extends(n, m)
    ensures ConnOk(m, k)
  {
    hide Below, InOrder, Accepted, EntryOk, ClientOk;
    assert ConnOk(n, k) && SlotOk(n, s);
    var conn := n.conns[k];
    var id := conn.frames[conn.delivered];
    assert m.queue[|n.queue|] == Entry(s, n.slots[s].cxId, id, conn.delivered);
    assert m.received[|n.received|] == (conn.client, id);
    forall i | 0 <= i < |conn.ackLog| ensures Below(m, conn.client, conn.ackLog[i]) {
      BelowExtends(n, m, conn.client, conn.ackLog[i]);
    }
    assert Queued(m, |m.queue|, k, conn.delivered);
    forall j | 0 <= j < conn.delivered
      ensures (conn.client, conn.frames[j]) in m.received
      ensures j >= conn.done ==> Queued(m, |m.queue|, k, j)
    {
      assert (conn.client, conn.frames[j]) in n.received;
      if j >= conn.done {
        QueuedFrame(n, m, |n.queue|, k, j);
      }
    }
  }

  lemma NewEntry(n: Net, m: Net, s: nat, k: nat)
    requires Inv(n) && Enabled(n, Receive(s)) && k == n.slots[s].socket.value && m == Apply(n, Receive(s))
    requires Extends(n, m)
    ensures EntryOk(m, |n.queue|)
  {
    hide Below, InOrder, ClientOk, Accepted;
    OneSlotPerConn(n, s);
    assert ConnOk(n, k) && SlotOk(n, s);
    var conn := n.conns[k];
    assert m.queue[|n.queue|] == Entry(s, n.slots[s].cxId, conn.frames[conn.delivered], conn.delivered);
    forall j | conn.done <= j < conn.delivered ensures Queued(m, |n.queue|, k, j) {
      QueuedFrame(n, m, |n.queue|, k, j);
    }
    forall b | 0 <= b < |n.queue| && m.queue[b].cxId == n.slots[s].cxId ensures m.queue[b].pos != conn.delivered {
      assert EntryOk(n, b) && m.queue[b] == n.queue[b];
    }
  }

  lemma ReceiveKeeps(n: Net, s: nat)
    requires Inv(n) && Enabled(n, Receive(s))
    ensures Inv(Apply(n, Receive(s)))
  {
    hide ClientOk, SlotOk, EntryOk, Below, Queued, InOrder, ConnOk;
    var m := Apply(n, Receive(s));
    var k := n.slots[s].socket.value;
    DeliveredWasSent(n);
    Frame(n, m, -1, k, -1);
    ConnDelivers(n, m, s, k);
    NewEntry(n, m, s, k);
    assert ConnOk(n, k);
    ReceivedInOrder(n, m, k);
  }

  lemma ReceivedInOrder(n: Net, m: Net, k: nat)
    requires k < |n.conns| && ConnOk(n, k) && n.conns[k].delivered < |n.conns[k].frames| && m.clients == n.clients
    requires m.received == n.received + [(n.conns[k].client, n.conns[k].frames[n.conns[k].delivered])]
    requires InOrder(n, n.received) && forall x :: x in n.processed ==> x in n.received
    ensures InOrder(m, m.received)
  {
    hide Below, Queued;
    var conn := n.conns[k];
    forall l, i | 0 <= l < |m.received| && m.received[l].0 < |n.clients| && n.clients[m.received[l].0].low < i < m.received[l].1
      ensures (m.received[l].0, i) in m.received[..l]
    {
      if l < |n.received| {
        assert m.received[l] == n.received[l] && m.received[..l] == n.received[..l];
      } else {
        assert m.received[..l] == n.received;
        if i in conn.frames[..conn.delivered] {
          var j :| 0 <= j < conn.delivered && conn.frames[j] == i;
        }
      }
    }
  }

  /** The head of the queue leaves it, processed: it is the next file of its connection. */
  ghost predicate HeadLeaves(n: Net, m: Net, k: nat) {
    && n.queue != [] && EntryOk(n, 0) && k == n.accepted[n.queue[0].cxId]
    && Extends(n, m) && m.queue == n.queue[1..] && m.accepted == n.accepted
    && m.conns == n.conns[k := n.conns[k].(done := n.conns[k].done + 1)]
    && m.clients == n.clients && m.received == n.received
    && (n.conns[k].client, n.queue[0].id) in m.processed
  }

  lemma HeadIsNext(n: Net, m: Net, k: nat)
    requires HeadLeaves(n, m, k)
    ensures n.queue[0].pos == n.conns[k].done
  {
    var done := n.conns[k].done;
    assert !Queued(n, 0, k, done);
  }

  lemma QueuedShift(n: Net, m: Net, k0: nat, upto: nat, k: nat, j: nat)
    requires HeadLeaves(n, m, k0) && 0 < upto <= |n.queue| && Queued(n, upto, k, j)
    ensures (k == k0 && j == n.queue[0].pos) || Queued(m, upto - 1, k, j)
  {
    hide Extends;
    var b :| 0 <= b < upto && n.queue[b].cxId < |n.accepted| && n.accepted[n.queue[b].cxId] == k && n.queue[b].pos == j;
    if b > 0 {
      assert m.queue[b - 1] == n.queue[b];
    }
  }

  lemma ConnAfterProcess(n: Net, m: Net, k0: nat, k: nat)
    requires HeadLeaves(n, m, k0) && k < |n.conns| && ConnOk(n, k)
    ensures ConnOk(m, k)
  {
    HeadIsNext(n, m, k0);
    hide Below, Queued;
    var conn := n.conns[k];
    forall i | 0 <= i < |conn.ackLog| ensures Below(m, conn.client, conn.ackLog[i]) {
      BelowExtends(n, m, conn.client, conn.ackLog[i]);
    }
    forall i | 0 <= i < |conn.ackLog| ensures conn.ackLog[i] in conn.frames[..m.conns[k].done] {
      assert conn.ackLog[i] in conn.frames[..conn.done];
    }
    forall j | m.conns[k].done <= j < conn.delivered ensures Queued(m, |m.queue|, k, j) {
      QueuedShift(n, m, k0, |n.queue|, k, j);
    }
  }

  lemma EntryAfterProcess(n: Net, m: Net, k0: nat, a: nat)
    requires HeadLeaves(n, m, k0) && 0 < a < |n.queue| && EntryOk(n, a) && SlotsKeepIds(n, m)
    requires forall x, y :: 0 <= x < y < |n.accepted| ==> n.accepted[x] != n.accepted[y]
    ensures EntryOk(m, a - 1)
  {
    HeadIsNext(n, m, k0);
    hide Queued;
    var e, k := n.queue[a], n.accepted[n.queue[a].cxId];
    assert m.queue[a - 1] == e;
    assert k == k0 ==> n.queue[0].cxId == e.cxId;
    var before := a - 1;
    forall j | m.conns[k].done <= j < e.pos ensures Queued(m, before, k, j) {
      QueuedShift(n, m, k0, a, k, j);
    }
    forall b | 0 <= b < a - 1 && m.queue[b].cxId == e.cxId ensures m.queue[b].pos != e.pos {
      assert m.queue[b] == n.queue[b + 1];
    }
  }

  /** Everything up to the id of the head of the queue is processed with it. */
  lemma HeadIsComplete(n: Net, m: Net, k: nat)
    requires HeadLeaves(n, m, k) && ConnOk(n, k)
    ensures Below(m, n.conns[k].client, n.queue[0].id)
    ensures (n.conns[k].client, n.queue[0].id) in n.received
  {
    HeadIsNext(n, m, k);
    var conn, e := n.conns[k], n.queue[0];
    forall i | m.clients[conn.client].low < i <= e.id ensures (conn.client, i) in m.processed {
      if i < e.id && i in conn.frames[..e.pos] {
        var j :| 0 <= j < e.pos && conn.frames[j] == i;
      }
    }
    assert (conn.client, conn.frames[e.pos]) in n.received;
  }

  lemma SlotAfterProcess(n: Net, m: Net, k: nat, s: nat)
    requires HeadLeaves(n, m, k) && ConnOk(n, k) && s < |n.slots| && SlotOk(n, s)
    requires Below(m, n.conns[k].client, n.queue[0].id)
    requires m.slots == Apply(n, Process).slots
    requires forall x, y :: 0 <= x < y < |n.accepted| ==> n.accepted[x] != n.accepted[y]
    ensures SlotOk(m, s)
  {
    HeadIsNext(n, m, k);
    hide Below, Queued;
    var e, slot := n.queue[0], n.slots[s];
    if slot.socket.Some? {
      BelowExtends(n, m, n.conns[slot.socket.value].client, slot.ackFile);
      if slot.socket.value == k {
        assert slot.cxId == e.cxId;
        assert n.conns[k].Last() < e.id;
      }
    }
  }

  lemma ProcessKeeps(n: Net)
    requires Inv(n) && Enabled(n, Process)
    ensures Inv(Apply(n, Process))
  {
    hide Below, Queued, InOrder, ClientOk;
    var m := Apply(n, Process);
    var e := n.queue[0];
    var k := n.accepted[e.cxId];
    DeliveredWasSent(n);
    assert EntryOk(n, 0) && ConnOk(n, k);
    assert HeadLeaves(n, m, k);
    HeadIsComplete(n, m, k);
    forall c | 0 <= c < |m.clients| ensures ClientOk(m, c) {
      assert ClientOk(n, c);
      ClientFrame(n, m, c);
    }
    forall h | 0 <= h < |m.conns| ensures ConnOk(m, h) {
      assert ConnOk(n, h);
      ConnAfterProcess(n, m, k, h);
    }
    forall a | 0 <= a < |m.queue| ensures EntryOk(m, a) {
      assert EntryOk(n, a + 1);
      EntryAfterProcess(n, m, k, a + 1);
    }
    forall s | 0 <= s < |m.slots| ensures SlotOk(m, s) {
      assert SlotOk(n, s);
      SlotAfterProcess(n, m, k, s);
    }
    ClientsSame(n, m);
  }

  // Whole runs.

  /** Clients that have just opened their permanent FIFO, and a server that has just started. */
  ghost predicate Initial(n: Net) {
    && (forall c :: 0 <= c < |n.clients| ==> New(n.clients[c]))
    && (forall s :: 0 <= s < |n.slots| ==> n.slots[s].socket.None? && n.slots[s].cxId == -1)
    && n.conns == [] && n.accepted == [] && n.queue == [] && n.processed == {} && n.received == []
  }

  ghost predicate Legal(n: Net, run: seq<Action>)
    decreases |run|
  {
    run != [] ==> Enabled(n, run[0]) && Legal(Apply(n, run[0]), run[1..])
  }

  ghost function AfterRun(n: Net, run: seq<Action>): Net
    requires Legal(n, run)
    decreases |run|
  {
    if run == [] then n else AfterRun(Apply(n, run[0]), run[1..])
  }

  lemma StepKeeps(n: Net, a: Action)
    requires Inv(n) && Enabled(n, a)
    ensures Inv(Apply(n, a))
  {
    hide *;
    match a
    case Write(c) => WriteKeeps(n, c);
    case Connect(c) => ConnectKeeps(n, c);
    case Disconnect(c) => DisconnectKeeps(n, c);
    case Start(c) => StartKeeps(n, c);
    case Drop(c) => DropKeeps(n, c);
    case Finish(c) => FinishKeeps(n, c);
    case ReadAck(c) => ReadAckKeeps(n, c);
    case Remove(c) => RemoveKeeps(n, c);
    case Accept(s, k) => AcceptKeeps(n, s, k);
    case Close(s) => CloseKeeps(n, s);
    case Receive(s) => ReceiveKeeps(n, s);
    case Process => ProcessKeeps(n);
    case SendAck(s) => SendAckKeeps(n, s);
  }

  lemma InitialIsOk(n: Net)
    requires Initial(n)
    ensures Inv(n)
  {
    forall c | 0 <= c < |n.clients| ensures ClientOk(n, c) {
    }
    forall s | 0 <= s < |n.slots| ensures SlotOk(n, s) {
    }
  }

  lemma {:induction false} RunKeeps(n: Net, run: seq<Action>)
    requires Inv(n) && Legal(n, run)
    ensures Inv(AfterRun(n, run))
    decreases |run|
  {
    hide Inv, Enabled, Apply;
    if run != [] {
      StepKeeps(n, run[0]);
      RunKeeps(Apply(n, run[0]), run[1..]);
    }
  }

  lemma Reached(n: Net, run: seq<Action>)
    requires Initial(n) && Legal(n, run)
    ensures Inv(AfterRun(n, run))
  {
    hide *;
    InitialIsOk(n);
    RunKeeps(n, run);
  }

  /** Over every run, with any disconnections, reconnections and reuse of slots, the client acknowledges item `id`
      to its permanent FIFO only when the server has processed it and every item before it. */
  lemma {:induction false} AcknowledgedOnlyIfProcessed(n: Net, run: seq<Action>, c: nat, id: nat)
    requires Initial(n) && Legal(n, run) && Enabled(AfterRun(n, run), Remove(c))
    requires id == AfterRun(n, run).clients[c].acked + 1
    ensures forall i :: AfterRun(n, run).clients[c].low < i <= id ==> (c, i) in AfterRun(n, run).processed
  {
    Reached(n, run);
    hide AfterRun;
    var m := AfterRun(n, run);
    assert ClientOk(m, c);
  }

  /** Delivery is at least once and in order: over every run the ids the server has received from a client form a
      range from the client's first item on, and each was preceded by all the smaller ones. */
  lemma {:induction false} ReceivedInOrderAlways(n: Net, run: seq<Action>, m: nat, i: nat)
    requires Initial(n) && Legal(n, run)
    requires var r := AfterRun(n, run).received;
             m < |r| && r[m].0 < |AfterRun(n, run).clients| && AfterRun(n, run).clients[r[m].0].low < i < r[m].1
    ensures (AfterRun(n, run).received[m].0, i) in AfterRun(n, run).received[..m]
  {
    Reached(n, run);
    hide AfterRun;
    assert InOrder(AfterRun(n, run), AfterRun(n, run).received);
  }

  /** Nothing was sent or received that was not taken from the permanent FIFO. */
  ghost predicate Taken(n: Net) {
    && (forall c :: 0 <= c < |n.clients| ==> n.clients[c].taken <= n.clients[c].written)
    && (forall k :: 0 <= k < |n.conns| ==>
          n.conns[k].client < |n.clients|
          && forall j :: 0 <= j < |n.conns[k].frames| ==> n.conns[k].frames[j] <= n.clients[n.conns[k].client].taken)
    && forall m :: 0 <= m < |n.received| && n.received[m].0 < |n.clients| ==>
         n.received[m].1 <= n.clients[n.received[m].0].taken
  }

  lemma TakenStep(n: Net, a: Action)
    requires Inv(n) && Taken(n) && Enabled(n, a)
    ensures Taken(Apply(n, a))
  {
    hide ConnOk, SlotOk, EntryOk, Below, Queued, InOrder, Accepted;
    if a.Finish? || a.Start? {
      assert ClientOk(n, a.c);
    }
  }

  lemma {:induction false} TakenRun(n: Net, run: seq<Action>)
    requires Inv(n) && Taken(n) && Legal(n, run)
    ensures Taken(AfterRun(n, run))
    decreases |run|
  {
    hide Inv, Taken, Enabled, Apply;
    if run != [] {
      StepKeeps(n, run[0]);
      TakenStep(n, run[0]);
      TakenRun(Apply(n, run[0]), run[1..]);
    }
  }

  lemma {:induction false} ClientsStay(n: Net, run: seq<Action>)
    requires Legal(n, run)
    ensures |AfterRun(n, run).clients| == |n.clients|
    decreases |run|
  {
    hide Do, Can;
    if run != [] {
      ClientsStay(Apply(n, run[0]), run[1..]);
    }
  }

  lemma {:induction false} RangeOf(n: Net, received: seq<(nat, nat)>, c: nat) returns (top: nat)
    requires c < |n.clients| && InOrder(n, received)
    ensures top >= n.clients[c].low && forall i :: (c, i) in received <==> n.clients[c].low < i <= top
    ensures top == n.clients[c].low || (c, top) in received
  {
    top := n.clients[c].low;
    if received != [] {
      var last := |received| - 1;
      assert InOrder(n, received[..last]) by {
        forall m | 0 <= m < last ensures received[..last][m] == received[m] && received[..last][..m] == received[..m] {
        }
      }
      top := RangeOf(n, received[..last], c);
      assert received == received[..last] + [received[last]];
      if received[last].0 == c && received[last].1 > top {
        forall i | n.clients[c].low < i < received[last].1 ensures (c, i) in received[..last] {
          assert (received[last].0, i) in received[..last];
        }
        top := received[last].1;
      }
    }
  }

  /** After every run the ids received from a client are low+1, ..., top for some top, which it has written. */
  lemma ReceivedIsRange(n: Net, run: seq<Action>, c: nat) returns (top: nat)
    requires Initial(n) && Legal(n, run) && c < |n.clients|
    ensures var m := AfterRun(n, run);
            && c < |m.clients| && m.clients[c].low <= top <= m.clients[c].written
            && forall i :: (c, i) in m.received <==> m.clients[c].low < i <= top
  {
    Reached(n, run);
    InitialIsOk(n);
    TakenRun(n, run);
    ClientsStay(n, run);
    hide AfterRun, Legal, ConnOk, SlotOk, EntryOk, Queued;
    var m := AfterRun(n, run);
    assert ClientOk(m, c);
    top := RangeOf(m, m.received, c);
  }

  /** Acknowledgements sent on a connection increase, and each names the largest id processed so far from that very
      connection; so they never reach another client that got the same slot. */
  lemma {:induction false} AcksAreOwnAndIncrease(n: Net, run: seq<Action>, k: nat)
    requires Initial(n) && Legal(n, run) && k < |AfterRun(n, run).conns|
    ensures var conn := AfterRun(n, run).conns[k];
            && conn.done <= |conn.frames|
            && (forall i, j :: 0 <= i < j < |conn.ackLog| ==> conn.ackLog[i] < conn.ackLog[j])
            && (forall i :: 0 <= i < |conn.ackLog| ==> conn.ackLog[i] in conn.frames[..conn.done])
  {
    Reached(n, run);
    hide AfterRun;
    assert ConnOk(AfterRun(n, run), k);
  }

  lemma {:induction false} AckNamesLastProcessed(n: Net, run: seq<Action>, s: nat)
    requires Initial(n) && Legal(n, run) && Enabled(AfterRun(n, run), SendAck(s))
    ensures var m := AfterRun(n, run);
            var k := m.slots[s].socket.value;
            && 0 < m.conns[k].done <= |m.conns[k].frames|
            && Apply(m, SendAck(s)).conns[k].ackLog == m.conns[k].ackLog + [m.conns[k].frames[m.conns[k].done - 1]]
            && forall j :: 0 <= j < m.conns[k].done ==> m.conns[k].frames[j] <= m.conns[k].frames[m.conns[k].done - 1]
  {
    Reached(n, run);
    hide AfterRun;
    var m := AfterRun(n, run);
    assert SlotOk(m, s) && ConnOk(m, m.slots[s].socket.value);
  }

  /** A new connection starts again from the oldest item that is not acknowledged. */
  lemma ResendsFromOldest(n: Net, c: nat)
    requires Inv(n) && Enabled(n, Connect(c))
    requires Enabled(Apply(n, Connect(c)), Start(c))
    ensures Apply(Apply(n, Connect(c)), Start(c)).clients[c].current == Some(n.clients[c].acked + 1)
  {
  }
}
