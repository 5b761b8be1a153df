/** What the protocol gets done: the server counts exactly the files it still has to acknowledge, and from every state that a
    run can reach everything written can be delivered and acknowledged. */
module ProtocolProgress {
  import opened ClientSteps
  import opened Options
  import opened Protocol

  // Acknowledgements due.

  /** The first p files of the connection in slot s, those up to the last acknowledgement sent, are acknowledged; the slot
      counts the other files processed. */
  ghost predicate CountsFrom(n: Net, s: nat, p: int)
    requires s < |n.slots|
  {
    && n.slots[s].socket.Some? && n.slots[s].socket.value < |n.conns|
    && var conn := n.conns[n.slots[s].socket.value];
       && 0 <= p <= conn.done <= |conn.frames| && n.slots[s].nonAcknowledged == conn.done - p
       && if conn.ackLog == [] then p == 0 else p > 0 && conn.frames[p - 1] == conn.ackLog[|conn.ackLog| - 1]
  }

  ghost predicate Counts(n: Net, s: nat)
    requires s < |n.slots|
  {
    match n.slots[s].socket
    case None => true
    case Some(k) => k < |n.conns| && CountsFrom(n, s, n.conns[k].done - n.slots[s].nonAcknowledged)
  }

  ghost predicate AllCount(n: Net) {
    forall s :: 0 <= s < |n.slots| ==> Counts(n, s)
  }

  /** A step that leaves the slot and the acknowledgements of its connection alone, and processes nothing of it. */
  lemma CountsFrame(n: Net, m: Net, s: nat)
    requires s < |n.slots| == |m.slots| && Counts(n, s) && m.slots[s] == n.slots[s] && |n.conns| <= |m.conns|
    requires n.slots[s].socket.Some? ==>
               var a, b := n.conns[n.slots[s].socket.value], m.conns[n.slots[s].socket.value];
               a.frames <= b.frames && a.done == b.done && a.ackLog == b.ackLog
    ensures Counts(m, s)
  {
  }

  lemma ProcessCounts(n: Net, s: nat)
    requires Inv(n) && Enabled(n, Process) && s < |n.slots| && Counts(n, s)
    ensures Counts(Apply(n, Process), s)
  {
    hide Below, InOrder, ClientOk;
    var e, m := n.queue[0], Apply(n, Process);
    var k := n.accepted[e.cxId];
    DeliveredWasSent(n);
    assert EntryOk(n, 0) && SlotOk(n, s) && ConnOk(n, k);
    assert HeadLeaves(n, m, k);
    HeadIsNext(n, m, k);
    if n.slots[s].socket == Some(k) {
      assert n.slots[s].cxId == e.cxId && s == e.slot;
      assert e.id == n.conns[k].frames[n.conns[k].done] > n.slots[s].ackFile;
    }
  }

  lemma OtherCounts(n: Net, a: Action, s: nat)
    requires Inv(n) && Enabled(n, a) && !a.Process? && s < |n.slots| && Counts(n, s)
    ensures s < |Apply(n, a).slots| && Counts(Apply(n, a), s)
  {
    hide Below, InOrder, ClientOk, Queued, EntryOk;
    if a.SendAck? {
      SendAckCounts(n, a.s, s);
    } else if a.Accept? {
      assert ConnOk(n, a.k);
    }
  }

  lemma SendAckCounts(n: Net, t: nat, s: nat)
    requires Inv(n) && Enabled(n, SendAck(t)) && s < |n.slots| && Counts(n, s)
    ensures Counts(Apply(n, SendAck(t)), s)
  {
    hide Below, InOrder, ClientOk, Queued, EntryOk, ConnOk;
    OneSlotPerConn(n, t);
    assert SlotOk(n, t);
  }

  lemma {:induction false} CountsRun(n: Net, run: seq<Action>)
    requires Inv(n) && AllCount(n) && Legal(n, run)
    ensures AllCount(AfterRun(n, run))
    decreases |run|
  {
    hide Inv, Enabled, Apply, Counts;
    if run != [] {
      StepKeeps(n, run[0]);
      var m := Apply(n, run[0]);
      SameSlots(n, run[0]);
      forall s | 0 <= s < |m.slots| ensures Counts(m, s) {
        if run[0].Process? {
          ProcessCounts(n, s);
        } else {
          OtherCounts(n, run[0], s);
        }
      }
      CountsRun(m, run[1..]);
    }
  }

  lemma SameSlots(n: Net, a: Action)
    requires Enabled(n, a)
    ensures |Apply(n, a).slots| == |n.slots|
  {
  }

  /** After every run a slot that serves a connection counts exactly the files of it processed since the last acknowledgement
      sent there; and an acknowledgement can be sent exactly when the last file processed is not acknowledged. */
  lemma AckIsDue(n: Net, run: seq<Action>, s: nat) returns (p: nat)
    requires Initial(n) && Legal(n, run)
    requires s < |AfterRun(n, run).slots| && AfterRun(n, run).slots[s].socket.Some?
    ensures CountsFrom(AfterRun(n, run), s, p)
    ensures var m := AfterRun(n, run);
            var conn := m.conns[m.slots[s].socket.value];
            && (forall i, j :: 0 <= i < j < |conn.frames| ==> conn.frames[i] < conn.frames[j])
            && (Enabled(m, SendAck(s)) <==>
                  conn.done > 0 && (conn.ackLog == [] || conn.ackLog[|conn.ackLog| - 1] != conn.frames[conn.done - 1]))
  {
    InitialIsOk(n);
    assert AllCount(n) by {
      forall t | 0 <= t < |n.slots| ensures Counts(n, t) {
        assert n.slots[t].socket.None?;
      }
    }
    CountsRun(n, run);
    Reached(n, run);
    hide AfterRun, Legal, Inv, Initial;
    p := DueAt(AfterRun(n, run), s);
  }

  lemma DueAt(n: Net, s: nat) returns (p: nat)
    requires Inv(n) && AllCount(n) && s < |n.slots| && n.slots[s].socket.Some?
    ensures CountsFrom(n, s, p)
    ensures var conn := n.conns[n.slots[s].socket.value];
            && (forall i, j :: 0 <= i < j < |conn.frames| ==> conn.frames[i] < conn.frames[j])
            && (Enabled(n, SendAck(s)) <==>
                  conn.done > 0 && (conn.ackLog == [] || conn.ackLog[|conn.ackLog| - 1] != conn.frames[conn.done - 1]))
  {
    assert Counts(n, s);
    var k := n.slots[s].socket.value;
    p := n.conns[k].done - n.slots[s].nonAcknowledged;
    FramesIncrease(n, k);
    hide Inv, Counts;
    assert p > 0 && p < n.conns[k].done ==> n.conns[k].frames[p - 1] < n.conns[k].frames[n.conns[k].done - 1];
  }

  lemma FramesIncrease(n: Net, k: nat)
    requires Inv(n) && k < |n.conns|
    ensures forall i, j :: 0 <= i < j < |n.conns[k].frames| ==> n.conns[k].frames[i] < n.conns[k].frames[j]
  {
    hide ClientOk, SlotOk, EntryOk, Below, Queued, InOrder, Accepted;
    assert ConnOk(n, k);
  }

  // Everything can be delivered and acknowledged.

  lemma {:induction false} LegalJoined(n: Net, a: seq<Action>, b: seq<Action>)
    requires Legal(n, a) && Legal(AfterRun(n, a), b)
    ensures Legal(n, a + b) && AfterRun(n, a + b) == AfterRun(AfterRun(n, a), b)
    decreases |a|
  {
    hide Enabled, Apply;
    if a == [] {
      assert a + b == b;
    } else {
      assert (a + b)[0] == a[0] && (a + b)[1..] == a[1..] + b;
      LegalJoined(Apply(n, a[0]), a[1..], b);
    }
  }

  lemma OneAction(n: Net, a: Action)
    requires Enabled(n, a)
    ensures Legal(n, [a]) && AfterRun(n, [a]) == Apply(n, a)
  {
    hide Enabled, Apply;
    assert [a][1..] == [];
    assert Legal(Apply(n, a), []);
  }

  /** One more action at the end of a run. */
  lemma OneMoreAction(n: Net, run: seq<Action>, a: Action)
    requires Legal(n, run) && Enabled(AfterRun(n, run), a)
    ensures Legal(n, run + [a]) && AfterRun(n, run + [a]) == Apply(AfterRun(n, run), a)
  {
    hide Enabled, Apply, Legal, AfterRun;
    OneAction(AfterRun(n, run), a);
    LegalJoined(n, run, [a]);
  }

  /** The queue can be emptied: its head can always be processed. */
  lemma {:induction false} QueueCanEmpty(n: Net) returns (run: seq<Action>)
    requires Inv(n)
    ensures Legal(n, run) && AfterRun(n, run).queue == []
    ensures AfterRun(n, run).clients == n.clients && |AfterRun(n, run).slots| == |n.slots|
    decreases |n.queue|
  {
    hide ClientOk, ConnOk, SlotOk, Queued, Below, InOrder, Accepted;
    if n.queue == [] {
      run := [];
    } else {
      assert EntryOk(n, 0);
      StepKeeps(n, Process);
      var m := Apply(n, Process);
      var rest := QueueCanEmpty(m);
      OneAction(n, Process);
      run := [Process] + rest;
      LegalJoined(n, [Process], rest);
    }
  }

  /** Client c is connected by connection k, which slot 0 serves: i files were sent, received and processed, none of them is
      acknowledged, and nothing else is under way. */
  ghost predicate Serving(n: Net, c: nat, k: nat, i: nat) {
    && c < |n.clients| && k < |n.conns| && 0 < |n.slots| && n.queue == []
    && var cl, conn, slot := n.clients[c], n.conns[k], n.slots[0];
       && cl.link == Some(k) && cl.current == None && !cl.ending && cl.index == i
       && conn.client == c && |conn.frames| == conn.delivered == conn.done == i && conn.ackLog == [] && conn.ackRead == 0
       && (forall j :: 0 <= j < i ==> conn.frames[j] == cl.acked + 1 + j)
       && slot.socket == Some(k) && 0 <= slot.cxId < |n.accepted| && n.accepted[slot.cxId] == k
       && slot.ackFile == (if i == 0 then 0 else cl.acked + i) && slot.nonAcknowledged == i
       && cl.acked + i <= cl.taken <= cl.written
  }

  /** A new connection takes slot 0. */
  lemma ServiceCanStart(n: Net, c: nat) returns (run: seq<Action>)
    requires Inv(n) && c < |n.clients| && 0 < |n.slots| && n.queue == []
    ensures Legal(n, run)
    ensures var m := AfterRun(n, run);
            && Serving(m, c, |n.conns|, 0)
            && m.clients[c].acked == n.clients[c].acked && m.clients[c].written == n.clients[c].written
  {
    hide ConnOk, SlotOk, EntryOk, Queued, Below, InOrder, AfterRun, Legal;
    assert ClientOk(n, c);
    var k := |n.conns|;
    var a := Apply(n, Disconnect(c));
    OneAction(n, Disconnect(c));
    OneMoreAction(n, [Disconnect(c)], Connect(c));
    var b := Apply(a, Connect(c));
    OneMoreAction(n, [Disconnect(c)] + [Connect(c)], Close(0));
    var d := Apply(b, Close(0));
    run := [Disconnect(c)] + [Connect(c)] + [Close(0)] + [Accept(0, k)];
    OneMoreAction(n, [Disconnect(c)] + [Connect(c)] + [Close(0)], Accept(0, k));
  }

  /** The next file can be sent, received and processed. */
  lemma NextCanBeProcessed(n: Net, c: nat, k: nat, i: nat) returns (run: seq<Action>)
    requires Serving(n, c, k, i) && n.clients[c].acked + i < n.clients[c].written
    ensures Legal(n, run)
    ensures var m := AfterRun(n, run);
            && Serving(m, c, k, i + 1)
            && m.clients[c].acked == n.clients[c].acked && m.clients[c].written == n.clients[c].written
  {
    hide AfterRun, Legal;
    var id := n.clients[c].acked + i + 1;
    OneAction(n, Start(c));
    var n1 := Apply(n, Start(c));
    OneMoreAction(n, [Start(c)], Drop(c));
    var n2 := Apply(n1, Drop(c));
    OneMoreAction(n, [Start(c)] + [Drop(c)], Finish(c));
    var n3 := Apply(n2, Finish(c));
    assert n3.conns[k].frames == n.conns[k].frames + [id];
    OneMoreAction(n, [Start(c)] + [Drop(c)] + [Finish(c)], Receive(0));
    var n4 := Apply(n3, Receive(0));
    assert n4.queue == [Entry(0, n.slots[0].cxId, id, i)];
    run := [Start(c)] + [Drop(c)] + [Finish(c)] + [Receive(0)] + [Process];
    OneMoreAction(n, [Start(c)] + [Drop(c)] + [Finish(c)] + [Receive(0)], Process);
    var n5 := Apply(n4, Process);
    assert n5.queue == [];
  }

  lemma {:induction false} AllCanBeProcessed(n: Net, c: nat, k: nat, i: nat) returns (run: seq<Action>)
    requires Serving(n, c, k, i)
    ensures Legal(n, run)
    ensures var m := AfterRun(n, run);
            && Serving(m, c, k, n.clients[c].written - n.clients[c].acked)
            && m.clients[c].acked == n.clients[c].acked && m.clients[c].written == n.clients[c].written
    decreases n.clients[c].written - n.clients[c].acked - i
  {
    run := [];
    if n.clients[c].acked + i < n.clients[c].written {
      var first := NextCanBeProcessed(n, c, k, i);
      hide Serving, Enabled, Apply;
      assert c < |n.clients| && c < |AfterRun(n, first).clients| by {
        ServingClient(n, c, k, i);
        ServingClient(AfterRun(n, first), c, k, i + 1);
      }
      var rest := AllCanBeProcessed(AfterRun(n, first), c, k, i + 1);
      run := first + rest;
      LegalJoined(n, first, rest);
    }
  }

  lemma ServingClient(n: Net, c: nat, k: nat, i: nat)
    requires Serving(n, c, k, i)
    ensures c < |n.clients|
  {
  }

  /** Files of the window up to the acknowledgement leave it, one by one. */
  lemma {:induction false} AllCanBeRemoved(n: Net, c: nat, last: nat) returns (run: seq<Action>)
    requires c < |n.clients| && n.clients[c].current == None && n.clients[c].ackId == last <= n.clients[c].taken
    requires n.clients[c].acked <= last
    ensures Legal(n, run)
    ensures var m := AfterRun(n, run);
            c < |m.clients| && m.clients[c].acked == last && m.clients[c].written == n.clients[c].written
    decreases last - n.clients[c].acked
  {
    run := [];
    if n.clients[c].acked < last {
      var rest := AllCanBeRemoved(Apply(n, Remove(c)), c, last);
      OneAction(n, Remove(c));
      run := [Remove(c)] + rest;
      LegalJoined(n, [Remove(c)], rest);
    }
  }

  /** The server can acknowledge what it processed, and the client can read that. */
  lemma AckCanBeRead(n: Net, c: nat, k: nat, i: nat) returns (run: seq<Action>)
    requires Serving(n, c, k, i) && i > 0
    ensures Legal(n, run)
    ensures var m := AfterRun(n, run);
            && c < |m.clients| && m.clients[c] == n.clients[c].(ackId := n.clients[c].acked + i)
  {
    hide AfterRun, Legal;
    run := [SendAck(0)] + [ReadAck(c)];
    OneAction(n, SendAck(0));
    OneMoreAction(n, [SendAck(0)], ReadAck(c));
  }

  /** From every state that a run can reach, whatever was lost on the way, everything a client has written can be delivered,
      processed and acknowledged: the run can go on so that nothing is left in the client's permanent FIFO. */
  lemma EverythingCanBeAcknowledged(n: Net, run: seq<Action>, c: nat) returns (more: seq<Action>)
    requires Initial(n) && Legal(n, run) && c < |AfterRun(n, run).clients| && 0 < |AfterRun(n, run).slots|
    ensures Legal(n, run + more)
    ensures var m := AfterRun(n, run + more);
            && c < |m.clients| && m.clients[c].acked == m.clients[c].written == AfterRun(n, run).clients[c].written
            && forall i :: m.clients[c].low < i <= m.clients[c].written ==> (c, i) in m.processed
  {
    Reached(n, run);
    var a := AfterRun(n, run);
    more := QueueCanEmpty(a);
    LegalJoined(n, run, more);
    Reached(n, run + more);
    hide AfterRun, Legal, Inv, Serving, Enabled, Apply, Initial;
    var b := AfterRun(a, more);
    var start := ServiceCanStart(b, c);
    LegalJoined(a, more, start);
    more := more + start;
    var d, k := AfterRun(a, more), |b.conns|;
    ServingClient(d, c, k, 0);
    var work := AllCanBeProcessed(d, c, k, 0);
    LegalJoined(a, more, work);
    more := more + work;
    var e, i := AfterRun(a, more), d.clients[c].written - d.clients[c].acked;
    ServingClient(e, c, k, i);
    TakenByServing(e, c, k, i);
    if i > 0 {
      var acks := AckCanBeRead(e, c, k, i);
      LegalJoined(a, more, acks);
      more := more + acks;
      var f := AfterRun(a, more);
      var removed := AllCanBeRemoved(f, c, e.clients[c].acked + i);
      LegalJoined(a, more, removed);
      more := more + removed;
    }
    LegalJoined(n, run, more);
    Reached(n, run + more);
    AckedIsProcessed(AfterRun(n, run + more), c);
  }

  lemma TakenByServing(n: Net, c: nat, k: nat, i: nat)
    requires Serving(n, c, k, i)
    ensures c < |n.clients| && n.clients[c].current == None
    ensures n.clients[c].acked + i <= n.clients[c].taken <= n.clients[c].written
  {
  }

  lemma AckedIsProcessed(n: Net, c: nat)
    requires Inv(n) && c < |n.clients|
    ensures forall i :: n.clients[c].low < i <= n.clients[c].acked ==> (c, i) in n.processed
  {
    assert ClientOk(n, c);
  }
}
