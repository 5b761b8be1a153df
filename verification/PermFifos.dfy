/** The permanent FIFO of src/permanentFIFO.c: two circular tables in memory and a file.

    Abs() is the abstract queue of FifoSpec; every operation is proved to act on it as its specification
    says, wherever the items happen to be. The position of the next item in the file is kept as the number
    of records before it. */
module PermFifos {
  import opened Options
  import opened RingTable
  import opened FifoFile
  import FifoSpec

  /** s holds the items with ids a+1, a+2, ... of a history whose first item has id low+1. */
  ghost predicate Holds(low: nat, hist: seq<Payload>, s: seq<Item>, a: nat) {
    && low <= a && a + |s| <= low + |hist|
    && forall k :: 0 <= k < |s| ==> s[k] == Item(a + 1 + k, hist[a - low + k])
  }

  lemma HoldsBounds(low: nat, hist: seq<Payload>, s: seq<Item>, a: nat)
    requires Holds(low, hist, s, a)
    ensures low <= a && a + |s| <= low + |hist|
  {
  }

  lemma HoldsNothing(low: nat, hist: seq<Payload>, a: nat)
    requires low <= a <= low + |hist|
    ensures Holds(low, hist, [], a)
  {
  }

  lemma HoldsAt(low: nat, hist: seq<Payload>, s: seq<Item>, a: nat, k: nat)
    requires Holds(low, hist, s, a) && k < |s|
    ensures 0 <= a - low + k < |hist| && s[k] == Item(a + 1 + k, hist[a - low + k])
  {
  }

  lemma HoldsPart(low: nat, hist: seq<Payload>, s: seq<Item>, a: nat, i: nat, j: nat)
    requires Holds(low, hist, s, a) && i <= j <= |s|
    ensures Holds(low, hist, s[i..j], a + i)
  {
  }

  lemma HoldsJoined(low: nat, hist: seq<Payload>, s: seq<Item>, t: seq<Item>, a: nat)
    requires Holds(low, hist, s, a) && Holds(low, hist, t, a + |s|)
    ensures Holds(low, hist, s + t, a)
  {
  }

  lemma HoldsLonger(low: nat, hist: seq<Payload>, s: seq<Item>, a: nat, p: Payload)
    requires Holds(low, hist, s, a)
    ensures Holds(low, hist + [p], s, a)
  {
  }

  lemma HoldsNext(low: nat, hist: seq<Payload>, s: seq<Item>, a: nat, p: Payload)
    requires Holds(low, hist, s, a) && a + |s| == low + |hist|
    ensures Holds(low, hist + [p], s + [Item(low + |hist| + 1, p)], a)
  {
  }

  /** What a scan of the records for ids from `id` on puts in a table with `room` free places. */
  ghost function Scan(records: seq<Item>, id: nat, room: nat): seq<Item> {
    if records == [] || room == 0 then []
    else if records[0].id < id then Scan(records[1..], id, room)
    else [records[0]] + Scan(records[1..], id, room - 1)
  }

  ghost function Upto(s: seq<Item>, room: nat): seq<Item> {
    if room < |s| then s[..room] else s
  }

  /** Records below the wanted id do not matter: this is why a remembered position is a correct shortcut. */
  lemma {:induction false} ScanShortcut(records: seq<Item>, id: nat, room: nat, pos: nat)
    requires pos <= |records|
    requires forall i :: 0 <= i < pos ==> records[i].id < id
    ensures Scan(records, id, room) == Scan(records[pos..], id, room)
  {
    if pos == 0 {
      assert records[0..] == records;
    } else {
      ScanShortcut(records[1..], id, room, pos - 1);
      assert records[1..][pos - 1..] == records[pos..];
    }
  }

  lemma {:induction false} ScanTakesAll(records: seq<Item>, id: nat, room: nat)
    requires forall i :: 0 <= i < |records| ==> records[i].id >= id
    ensures Scan(records, id, room) == Upto(records, room)
  {
    if records != [] && room != 0 {
      ScanTakesAll(records[1..], id, room - 1);
    }
  }

  lemma ScanFrom(records: seq<Item>, id: nat, room: nat, pos: nat, first: nat)
    requires pos <= first <= |records|
    requires forall i :: 0 <= i < first ==> records[i].id < id
    requires forall i :: first <= i < |records| ==> records[i].id >= id
    ensures Scan(records[pos..], id, room) == Scan(records, id, room) == Upto(records[first..], room)
  {
    ScanShortcut(records, id, room, pos);
    ScanShortcut(records, id, room, first);
    ScanTakesAll(records[first..], id, room);
  }

  /** The payload of a write: size 0 stands for a NUL-terminated string, kept with its NUL. */
  function PayloadOf(data: seq<char>, size: int): (p: Payload)
    requires size >= 0 && (if size == 0 then '\0' in data else size <= |data|)
    ensures p != []
  {
    if size == 0 then data[..StrLen(data) + 1] else data[..size]
  }

  function StrLen(s: seq<char>): (n: nat)
    requires '\0' in s
    ensures n < |s| && s[n] == '\0' && '\0' !in s[..n]
  {
    if s[0] == '\0' then 0 else 1 + StrLen(s[1..])
  }

  lemma {:induction false} StrLenIs(s: seq<char>, n: nat)
    requires n < |s| && s[n] == '\0' && '\0' !in s[..n]
    ensures '\0' in s && StrLen(s) == n
  {
    if n > 0 {
      assert s[..n][0] == s[0] && s[..n][1..] == s[1..][..n - 1];
      StrLenIs(s[1..], n - 1);
    }
  }

  /** What the payload is, in terms of the data alone. */
  lemma PayloadIs(data: seq<char>, size: int)
    requires size >= 0 && (if size == 0 then '\0' in data else size <= |data|)
    ensures size > 0 ==> PayloadOf(data, size) == data[..size]
    ensures size == 0 ==>
              forall n :: 0 <= n < |data| && data[n] == '\0' && '\0' !in data[..n] ==> PayloadOf(data, size) == data[..n + 1]
  {
    hide StrLen;
    if size == 0 {
      forall n | 0 <= n < |data| && data[n] == '\0' && '\0' !in data[..n]
        ensures PayloadOf(data, size) == data[..n + 1]
      {
        StrLenIs(data, n);
      }
    }
  }

  /** The fields of the FIFO as values, with the ghost history: hist[i] has id low + 1 + i, and acked is the
      last id acknowledged. */
  datatype State = State(
    client: seq<Item>, disk: seq<Item>, header: Header, records: seq<Item>,
    currentId: nat, lastIdOut: nat, lastOutOffset: nat, nextIdInClientTable: nat, lastIdOnDisk: nat, ackOnDisk: bool,
    hist: seq<Payload>, low: nat, acked: nat)
  {
    /** The id before the next one to read. After a restart the first id can be larger than lastIdOut + 1. */
    ghost function Out(): nat {
      if lastIdOut < low then low else lastIdOut
    }

    ghost function AckedId(): nat {
      if acked < low then low else acked
    }

    /** The id before the first one in the disk table, and before the first one in the file. */
    ghost function DiskLow(): int {
      currentId - |disk|
    }

    ghost function FileLow(): int {
      currentId - |disk| - |records|
    }

    /** File and disk table together hold the end of the history, and at least all that is not acknowledged. */
    ghost predicate StoreOk() {
      && currentId == low + |hist|
      && low <= FileLow() <= AckedId()
      && Holds(low, hist, disk, DiskLow())
      && Holds(low, hist, records, FileLow())
      && (records == [] ==> DiskLow() == AckedId() && lastIdOnDisk <= acked)
      && (records != [] ==> DiskLow() == lastIdOnDisk && acked < lastIdOnDisk)
      && ackOnDisk == (records != [])
      && [] !in hist
    }

    /** The client table holds the next items to read. */
    ghost predicate ReaderOk() {
      && acked <= lastIdOut <= currentId
      && (lastIdOut < low ==> records != [])
      && Holds(low, hist, client, Out()) && Out() + |client| <= currentId
      && nextIdInClientTable <= Out() + |client| + 1
      && lastOutOffset <= |records|
      && (lastOutOffset > 0 ==> FileLow() + lastOutOffset <= Out() + |client|)
    }

    /** The header in the file tells acknowledged records from the others. */
    ghost predicate HeaderOk() {
      && header.lastAckId <= acked
      && (header.lastAckId < acked ==> acked <= FileLow())
      && (records == [] && header.lastAckId == 0 ==> header.currentId == 0)
    }

    ghost predicate Ok() {
      StoreOk() && ReaderOk() && HeaderOk()
    }

    ghost function Abs(): (q: FifoSpec.Queue)
      requires Ok()
      ensures q.Ok() && |q.written| - q.durable == |disk|
    {
      FifoSpec.Queue(hist, Out() - low, AckedId() - low, |hist| - |disk|)
    }

    // What the pieces of the operations do.

    ghost function Saved(): State {
      if disk == [] then this
      else this.(disk := [], records := records + disk, lastIdOnDisk := disk[|disk| - 1].id, ackOnDisk := true)
    }

    /** A new item goes to the disk table, and to the client table if that one is up to date. */
    ghost function Appended(p: Payload, toClient: bool): State {
      var item := Item(currentId + 1, p);
      this.(currentId := currentId + 1, hist := hist + [p], disk := disk + [item],
            client := if toClient then client + [item] else client,
            nextIdInClientTable := if toClient then nextIdInClientTable + 1 else nextIdInClientTable)
    }

    /** The first of the items at hand goes to the reader, the others to the client table. */
    ghost function Served(items: seq<Item>): State
      requires items != []
    {
      this.(lastIdOut := items[0].id, client := items[1..])
    }

    /** The same history with the cursor at the next id. */
    ghost predicate Follows(s: State, item: Item) {
      && Ok() && hist == s.hist && low == s.low && acked == s.acked && |disk| == |s.disk|
      && lastIdOut == s.Out() + 1 && s.Out() < s.low + |s.hist|
      && item == Item(lastIdOut, s.hist[s.Out() - s.low])
    }

    ghost function Acknowledged(id: nat, k: nat): State
      requires k <= |disk|
    {
      var rest := this.(disk := disk[k..], acked := id);
      if !ackOnDisk then rest
      else if lastIdOnDisk <= id
      then rest.(records := [], lastOutOffset := 0, ackOnDisk := false, header := Header(id, lastIdOnDisk))
      else rest.(header := Header(id, lastIdOnDisk))
    }
  }

  lemma SavedKeeps(s: State)
    requires s.Ok()
    ensures s.Saved().Ok() && s.Saved().Abs() == s.Abs().Flush()
  {
    hide Holds;
    if s.disk != [] {
      HoldsAt(s.low, s.hist, s.disk, s.DiskLow(), |s.disk| - 1);
      HoldsJoined(s.low, s.hist, s.records, s.disk, s.FileLow());
      HoldsNothing(s.low, s.hist, s.currentId);
    }
  }

  /** Saving does not touch these fields and does not depend on them. */
  lemma SavedCommutes(s: State, currentId: nat, hist: seq<Payload>, client: seq<Item>, next: nat)
    ensures s.(currentId := currentId, hist := hist, client := client, nextIdInClientTable := next).Saved()
            == s.Saved().(currentId := currentId, hist := hist, client := client, nextIdInClientTable := next)
    ensures s.Saved().client == s.client && s.Saved().nextIdInClientTable == s.nextIdInClientTable
    ensures s.Saved().currentId == s.currentId && s.Saved().hist == s.hist
  {
  }

  lemma AppendedStore(s: State, p: Payload, toClient: bool)
    requires s.StoreOk() && p != []
    ensures s.Appended(p, toClient).StoreOk()
  {
    hide Holds;
    HoldsNext(s.low, s.hist, s.disk, s.DiskLow(), p);
    HoldsLonger(s.low, s.hist, s.records, s.FileLow(), p);
  }

  lemma AppendedReader(s: State, p: Payload, toClient: bool)
    requires s.StoreOk() && s.ReaderOk()
    requires toClient ==> s.nextIdInClientTable == s.currentId + 1
    ensures s.Appended(p, toClient).ReaderOk()
  {
    hide Holds;
    HoldsLonger(s.low, s.hist, s.client, s.Out(), p);
    if toClient {
      HoldsNext(s.low, s.hist, s.client, s.Out(), p);
    }
  }

  lemma AppendedKeeps(s: State, p: Payload, toClient: bool)
    requires s.Ok() && p != []
    requires toClient ==> s.nextIdInClientTable == s.currentId + 1
    ensures s.Appended(p, toClient).Ok()
    ensures s.Appended(p, toClient).Abs() == s.Abs().Write(p, false)
  {
    hide Holds, State.StoreOk, State.ReaderOk;
    AppendedStore(s, p, toClient);
    AppendedReader(s, p, toClient);
  }

  lemma ForgetNext(s: State)
    requires s.Ok()
    ensures s.(nextIdInClientTable := 0).Ok() && s.(nextIdInClientTable := 0).Abs() == s.Abs()
  {
    hide Holds;
  }

  /** A write, with the saving it may have needed: an overflow of the client table forgets the next id. */
  lemma WriteDone(s: State, t: State, p: Payload, toClient: bool, saved: bool, savedAgain: bool)
    requires s.Ok() && p != [] && (toClient ==> s.nextIdInClientTable == s.currentId + 1) && !(saved && toClient)
    requires var u := if saved then s.(nextIdInClientTable := 0).Saved() else s;
             var v := if savedAgain then u.Saved() else u;
             t == v.Appended(p, toClient)
    ensures t.Ok() && t.Abs() == s.Abs().Write(p, saved || savedAgain)
  {
    hide State.Ok;
    var u := if saved then s.(nextIdInClientTable := 0).Saved() else s;
    ForgetNext(s);
    SavedKeeps(s.(nextIdInClientTable := 0));
    SavedKeeps(u);
    AppendedKeeps(if savedAgain then u.Saved() else u, p, toClient);
  }

  /** The steps of a write: an id is taken, the item is offered to the client table, and put in the disk table. */
  lemma WriteSteps(s: State, taken: State, offered: State, t: State, item: Item, toClient: bool, first: bool, second: bool)
    requires s.Ok() && item.id == s.currentId + 1 && item.data != []
    requires (toClient ==> s.nextIdInClientTable == item.id) && !(first && toClient)
    requires taken == s.(currentId := item.id, hist := s.hist + [item.data])
    requires offered ==
             if first then taken.(nextIdInClientTable := 0).Saved()
             else if toClient then taken.(client := taken.client + [item], nextIdInClientTable := item.id + 1)
             else taken
    requires var u := if second then offered.Saved() else offered; t == u.(disk := u.disk + [item])
    ensures t.Ok() && t.Abs() == s.Abs().Write(item.data, first || second)
  {
    hide State.Ok, State.Saved;
    var forgot := s.(nextIdInClientTable := 0);
    SavedCommutes(forgot, item.id, taken.hist, s.client, 0);
    SavedCommutes(if first then forgot.Saved() else s, item.id, taken.hist, offered.client, offered.nextIdInClientTable);
    WriteDone(s, t, item.data, toClient, first, second);
  }

  lemma SomethingToRead(s: State)
    requires s.Ok() && s.lastIdOut < s.currentId
    ensures s.Out() < s.currentId && s.lastOutOffset <= |s.records|
    ensures forall i :: 0 <= i < |s.disk| ==> s.disk[i].id == s.DiskLow() + 1 + i
  {
  }

  lemma NothingToRead(s: State)
    requires s.Ok() && s.lastIdOut >= s.currentId
    ensures s.Abs().Read() == (None, s.Abs())
  {
    hide Holds;
  }

  /** Whatever a read does to the tables, it is a read if it moves the cursor to the next id. */
  lemma CursorMoves(s: State, t: State, item: Item)
    requires s.Ok() && t.Follows(s, item)
    ensures s.Abs().Read() == (Some(item.data), t.Abs()) && item.id == t.low + t.Abs().read
  {
    hide Holds;
  }

  /** Items at hand from the next id on can be served: the first to the reader, the others to the client table. */
  lemma ServedNext(s: State, items: seq<Item>, next: nat, offset: nat)
    requires s.Ok() && items != [] && Holds(s.low, s.hist, items, s.Out())
    requires next <= s.Out() + |items| + 1
    requires offset <= |s.records| && (offset > 0 ==> s.FileLow() + offset <= s.Out() + |items|)
    ensures s.Served(items).(nextIdInClientTable := next, lastOutOffset := offset).Follows(s, items[0])
  {
    hide Holds;
    HoldsBounds(s.low, s.hist, items, s.Out());
    HoldsAt(s.low, s.hist, items, s.Out(), 0);
    HoldsPart(s.low, s.hist, items, s.Out(), 1, |items|);
    assert items[1..|items|] == items[1..];
  }

  /** A read from the client table. */
  lemma ServedFromClient(s: State)
    requires s.Ok() && s.client != []
    ensures s.Served(s.client).Follows(s, s.client[0])
  {
    hide Holds, State.Follows;
    ServedNext(s, s.client, s.nextIdInClientTable, s.lastOutOffset);
  }

  /** A read that finds the next id in the disk table copies what follows it to the client table. */
  lemma ServedFromTable(s: State, items: seq<Item>)
    requires s.Ok() && s.client == [] && s.DiskLow() <= s.lastIdOut
    requires items != [] && s.lastIdOut - s.DiskLow() + |items| <= |s.disk|
    requires items == s.disk[s.lastIdOut - s.DiskLow()..s.lastIdOut - s.DiskLow() + |items|]
    ensures s.Served(items).(nextIdInClientTable := s.lastIdOut + |items| + 1).Follows(s, items[0])
  {
    hide Holds, State.Follows;
    var i := s.lastIdOut - s.DiskLow();
    HoldsPart(s.low, s.hist, s.disk, s.DiskLow(), i, i + |items|);
    ServedNext(s, items, s.lastIdOut + |items| + 1, s.lastOutOffset);
  }

  /** The remembered position is a correct shortcut: starting there, a read loads what a scan of the whole file
      would load, namely the records from the next id to read on, as many as there is room for. */
  lemma RememberedOffset(s: State, room: nat)
    requires s.Ok() && s.client == [] && s.lastIdOut < s.currentId && s.lastIdOut < s.DiskLow()
    ensures Scan(s.records[s.lastOutOffset..], s.lastIdOut + 1, room) == Scan(s.records, s.lastIdOut + 1, room)
    ensures 0 <= s.Out() - s.FileLow() < |s.records|
    ensures Scan(s.records, s.lastIdOut + 1, room) == Upto(s.records[s.Out() - s.FileLow()..], room)
  {
    hide Scan, Upto;
    var first := s.Out() - s.FileLow();
    ScanFrom(s.records, s.lastIdOut + 1, room, s.lastOutOffset, first);
  }

  /** A read that has to go to the file; the position moves only when the end of the file was reached. */
  lemma ServedFromFile(s: State, items: seq<Item>, offset: nat, room: nat)
    requires s.Ok() && s.client == [] && s.lastIdOut < s.currentId && s.lastIdOut < s.DiskLow() && room > 0
    requires items == Scan(s.records[s.lastOutOffset..], s.lastIdOut + 1, room)
    requires offset == s.lastOutOffset || (offset == |s.records| && |items| < room)
    ensures items != [] && items[|items| - 1].id == s.Out() + |items|
    ensures s.Served(items).(nextIdInClientTable := s.Out() + |items| + 1, lastOutOffset := offset).Follows(s, items[0])
  {
    hide Holds, Scan, State.Follows;
    RememberedOffset(s, room);
    var first := s.Out() - s.FileLow();
    var end := if room < |s.records| - first then first + room else |s.records|;
    assert items == s.records[first..end];
    HoldsPart(s.low, s.hist, s.records, s.FileLow(), first, end);
    HoldsAt(s.low, s.hist, items, s.Out(), |items| - 1);
    ServedNext(s, items, s.Out() + |items| + 1, offset);
  }

  lemma DiskHasData(s: State)
    requires s.Ok()
    ensures forall i :: 0 <= i < |s.disk| ==> s.disk[i].data != []
  {
  }

  lemma AcknowledgedStore(s: State, id: nat, k: nat)
    requires s.StoreOk() && s.acked <= id <= s.currentId && k <= |s.disk|
    requires k == if id < s.DiskLow() then 0 else id - s.DiskLow()
    ensures s.Acknowledged(id, k).StoreOk()
  {
    hide Holds;
    HoldsPart(s.low, s.hist, s.disk, s.DiskLow(), k, |s.disk|);
    assert s.disk[k..|s.disk|] == s.disk[k..];
    HoldsNothing(s.low, s.hist, s.DiskLow() + k);
  }

  lemma AcknowledgedKeeps(s: State, id: nat, k: nat)
    requires s.Ok() && s.acked <= id <= s.lastIdOut && k <= |s.disk|
    requires forall i :: 0 <= i < k ==> s.disk[i].id <= id
    requires k < |s.disk| ==> s.disk[k].id > id
    ensures s.Acknowledged(id, k).Ok()
    ensures s.Acknowledged(id, k).Abs() == s.Abs().Ack((if id < s.low then s.low else id) - s.low)
  {
    hide Holds;
    if k > 0 {
      HoldsAt(s.low, s.hist, s.disk, s.DiskLow(), k - 1);
    }
    if k < |s.disk| {
      HoldsAt(s.low, s.hist, s.disk, s.DiskLow(), k);
    }
    AcknowledgedStore(s, id, k);
  }

  /** So an acknowledgement is the one of the abstract queue. */
  lemma AcknowledgedIsAck(s: State, id: nat, k: nat)
    requires s.Ok() && s.acked <= id <= s.lastIdOut && k <= |s.disk|
    requires forall i :: 0 <= i < k ==> s.disk[i].id <= id
    requires k < |s.disk| ==> s.disk[k].id > id
    ensures s.Acknowledged(id, k).Ok()
    ensures var op := FifoSpec.OpAck(if id < s.low then 0 else id - s.low);
            FifoSpec.Enabled(s.Abs(), op) && s.Acknowledged(id, k).Abs() == FifoSpec.Apply(s.Abs(), op)
  {
    AcknowledgedKeeps(s, id, k);
    hide Holds, State.Acknowledged, State.StoreOk, State.HeaderOk;
  }

  /** The state right after opening a cleaned file. */
  ghost function Opened(img: Image): State
    requires img.Full?
  {
    var currentId := img.header.currentId;
    var low := if currentId < |img.records| then 0 else currentId - |img.records|;
    State([], [], img.header, img.records, currentId, 0, 0, 1, currentId, currentId != 0, Payloads(img.records), low, 0)
  }

  lemma RecordsAreHistory(records: seq<Item>)
    requires Ordered(records)
    ensures records != [] ==> Holds(records[0].id - 1, Payloads(records), records, records[0].id - 1)
    ensures [] !in Payloads(records)
  {
    forall i | 0 <= i < |records| ensures Payloads(records)[i] == records[i].data {
      PayloadAt(records, i);
    }
  }

  lemma OpenedIsOk(img: Image)
    requires WellFormed(Some(img)) && img.Full? && img.header.lastAckId == 0
    requires img.header.currentId == if img.records == [] then 0 else img.records[0].id + |img.records| - 1
    ensures Opened(img).Ok()
  {
    hide Holds, Payloads;
    RecordsAreHistory(img.records);
    var s := Opened(img);
    HoldsNothing(s.low, s.hist, s.low);
    HoldsNothing(s.low, s.hist, s.currentId);
  }

  lemma FreshQueue(s: State)
    requires s.Ok() && s.lastIdOut == s.acked == 0 && s.disk == []
    ensures s.Abs() == FifoSpec.Start(s.hist)
  {
    hide State.Ok;
  }

  /** Right after start-up the queue is a fresh one that holds what the files promised. */
  lemma {:induction false} OpenedIsFresh(source: Image) returns (s: State)
    requires WellFormed(Some(source))
    ensures Cleaned(source).Full? && s == Opened(Cleaned(source))
    ensures s.Ok() && s.Abs() == FifoSpec.Start(PendingIn(source))
  {
    hide Holds, Payloads, Unacked, State.Ok, State.Abs;
    CleanedKeepsUnacked(source);
    OpenedIsOk(Cleaned(source));
    s := Opened(Cleaned(source));
    FreshQueue(s);
  }

  class PermFifo {
    const tableClient: CircularTable
    const tableDisk: CircularTable

    var header: Header
    var records: seq<Item>

    var currentId: nat
    var lastIdOut: nat
    var lastOutOffset: nat
    var nextIdInClientTable: nat
    var lastIdOnDisk: nat
    var ackOnDisk: bool
    var lastFlush: int

    ghost var hist: seq<Payload>
    ghost var low: nat
    ghost var acked: nat

    ghost function Repr(): set<object> {
      {this, tableClient, tableClient.items, tableDisk, tableDisk.items}
    }

    ghost predicate Shape()
      reads tableClient, tableClient.items, tableDisk, tableDisk.items
    {
      && tableClient != tableDisk && tableClient.items != tableDisk.items
      && tableClient.Valid() && tableDisk.Valid()
      && tableClient.items.Length == tableDisk.items.Length
    }

    ghost function View(): State
      requires Shape()
      reads this, tableClient, tableClient.items, tableDisk, tableDisk.items
    {
      State(tableClient.contents, tableDisk.contents, header, records,
            currentId, lastIdOut, lastOutOffset, nextIdInClientTable, lastIdOnDisk, ackOnDisk, hist, low, acked)
    }

    ghost predicate Valid()
      reads this, tableClient, tableClient.items, tableDisk, tableDisk.items
    {
      Shape() && View().Ok()
    }

    ghost function Abs(): (q: FifoSpec.Queue)
      requires Valid()
      reads this, tableClient, tableClient.items, tableDisk, tableDisk.items
      // A crash can lose no more than the disk table holds.
      ensures q.Ok() && |q.written| - q.durable <= tableDisk.items.Length
    {
      View().Abs()
    }

    /** The file as a crash leaves it. */
    function Image(): Image
      reads this
    {
      Full(header, records)
    }

    /** permFIFO_new: cleans the files and opens the result. */
    constructor (size: nat, disk: Disk, now: int)
      requires size > 0 && disk.Valid()
      modifies disk
      ensures Valid() && fresh(Repr()) && disk.Valid()
      ensures Abs() == FifoSpec.Start(disk.start.Pending())
      ensures disk.Now().f1 == Some(Image()) && lastFlush == now
      ensures tableClient.items.Length == tableDisk.items.Length == size
    {
      hide State.Ok, State.Abs, Holds, Unacked, Payloads, Cleaned, PendingIn, Ordered, AlwaysSafe, CalledAll;
      ghost var source := disk.Now().Source();
      ghost var start := OpenedIsFresh(source);
      disk.Clean();
      var img := disk.Now().f1.value;
      tableClient := new CircularTable(size);
      tableDisk := new CircularTable(size);
      lastIdOut, lastOutOffset, nextIdInClientTable := 0, 0, 1;
      header, records := img.header, img.records;
      currentId, lastIdOnDisk := img.header.currentId, img.header.currentId;
      ackOnDisk := img.header.currentId != 0;
      lastFlush := now;
      hist, low, acked := start.hist, start.low, 0;
      new;
      assert View() == start;
    }

    /** ct_save: appends the disk table to the file. */
    method CtSave()
      requires Shape()
      requires forall i :: 0 <= i < tableDisk.nItems ==> tableDisk.contents[i].data != []
      modifies this`records, tableDisk, tableDisk.items
      ensures Shape() && tableDisk.contents == []
      ensures records == old(records + tableDisk.contents)
    {
      while true
        invariant Shape()
        invariant records + tableDisk.contents == old(records + tableDisk.contents)
        invariant forall i :: 0 <= i < tableDisk.nItems ==> tableDisk.contents[i].data != []
        decreases tableDisk.nItems
      {
        ghost var before := tableDisk.contents;
        var ok, item := tableDisk.Read();
        if !ok {
          break;
        }
        assert before[0] == item && before[1..] == tableDisk.contents;
        if item.data == [] {
          continue;
        }
        records := records + [item];
      }
    }

    /** permFIFO_save_tabledisk, at time `now` */
    method SaveTableDisk(now: int)
      requires Shape()
      requires forall i :: 0 <= i < tableDisk.nItems ==> tableDisk.contents[i].data != []
      modifies this`records, this`lastIdOnDisk, this`ackOnDisk, this`lastFlush, tableDisk, tableDisk.items
      ensures Shape() && View() == old(View()).Saved() && lastFlush == now
    {
      if tableDisk.nItems != 0 {
        var index := tableDisk.indexFirst + tableDisk.nItems - 1;
        if index >= tableDisk.items.Length {
          index := index - tableDisk.items.Length;
        }
        assert index == tableDisk.Slot(tableDisk.nItems - 1);
        lastIdOnDisk := tableDisk.items[index].id;
        CtSave();
        ackOnDisk := true;
      }
      lastFlush := now;
    }

    /** permFIFO_flush: nothing happens unless the last flush is `timeout` seconds ago. */
    method Flush(now: int, timeout: int)
      requires Valid()
      modifies Repr()
      ensures Valid() && low == old(low)
      ensures now >= old(lastFlush) + timeout ==> Abs() == old(Abs()).Flush() && lastFlush == now
      ensures now < old(lastFlush) + timeout ==> Abs() == old(Abs()) && lastFlush == old(lastFlush)
    {
      if now >= lastFlush + timeout {
        SavedKeeps(View());
        SaveTableDisk(now);
      }
    }

    /** The loop of permFIFO_read that copies from the disk table the items that follow the last one read:
        the first is returned, the next ones fill the client table. Returns how many were found. */
    method LoadFromTable(ghost before: int) returns (k: nat, item: Item)
      requires Shape() && tableClient.contents == []
      requires before == currentId - tableDisk.nItems && lastIdOut < currentId
      requires forall i :: 0 <= i < tableDisk.nItems ==> tableDisk.contents[i].id == before + 1 + i
      modifies this`nextIdInClientTable, tableClient, tableClient.items
      ensures Shape()
      ensures k == 0 <==> lastIdOut < before
      ensures k == 0 ==> tableClient.contents == [] && nextIdInClientTable == old(nextIdInClientTable)
      ensures k > 0 ==> lastIdOut - before + k <= tableDisk.nItems && nextIdInClientTable == lastIdOut + k + 1
      ensures k > 0 ==> [item] + tableClient.contents == tableDisk.contents[lastIdOut - before..lastIdOut - before + k]
    {
      item := EMPTY_ITEM;
      var t := tableDisk;
      var nextid := lastIdOut + 1;
      k := 0;
      ghost var d, first := t.contents, lastIdOut - before;
      var i := 0;
      while i < t.nItems
        invariant 0 <= i <= t.nItems && tableClient.Valid() && nextid == lastIdOut + 1 + k
        invariant first < 0 ==> i == 0
        invariant k == if 0 <= first < i then i - first else 0
        invariant k == 0 ==> tableClient.contents == [] && nextIdInClientTable == old(nextIdInClientTable)
        invariant k > 0 ==> nextIdInClientTable == nextid && item == d[first] && tableClient.contents == d[first + 1..i]
      {
        var j := t.indexFirst + i;
        if j >= t.items.Length {
          j := j - t.items.Length;
        }
        assert t.items[j] == d[i] by { assert j == t.Slot(i); }
        if t.items[j].id < nextid {
          i := i + 1;
          continue;
        }
        if t.items[j].id != nextid {
          break;
        }
        if k == 0 {
          item := t.items[j];
        } else {
          var ok := tableClient.Write(t.items[j]);
          if !ok {
            break;
          }
        }
        k := k + 1;
        nextIdInClientTable := t.items[j].id + 1;
        nextid := nextid + 1;
        i := i + 1;
      }
      assert k > 0 ==> d[first..i] == [d[first]] + d[first + 1..i];
    }

    /** ct_load into the client table, from the given position, skipping ids below `id` unless it is 0.
        Returns -3 with a full table, or 0 at the end of the file, and the position reached. */
    method CtLoad(start: nat, id: nat) returns (rc: int, pos: nat)
      requires Shape() && start <= |records|
      modifies tableClient, tableClient.items
      ensures Shape() && start <= pos <= |records|
      ensures tableClient.contents == old(tableClient.contents)
                + Scan(records[start..], id, tableClient.items.Length - old(tableClient.nItems))
      ensures if rc == 0 then pos == |records| && tableClient.nItems < tableClient.items.Length
              else rc == -3 && tableClient.nItems == tableClient.items.Length
    {
      pos := start;
      ghost var all := tableClient.contents + Scan(records[start..], id, tableClient.items.Length - tableClient.nItems);
      while true
        invariant start <= pos <= |records| && tableClient.Valid()
        invariant all == tableClient.contents + Scan(records[pos..], id, tableClient.items.Length - tableClient.nItems)
        decreases |records| - pos
      {
        if tableClient.nItems == tableClient.items.Length {
          rc := -3;
          break;
        }
        if pos == |records| {
          rc := 0;
          break;
        }
        var item := records[pos];
        assert records[pos..][0] == item && records[pos..][1..] == records[pos + 1..];
        pos := pos + 1;
        if id != 0 && item.id < id {
          continue;
        }
        var ok := tableClient.Write(item);
      }
    }

    /** permFIFO_read without waiting: 0 with an item, or 1 when there is nothing to read. */
    method Read() returns (rc: int, item: Item)
      requires Valid()
      modifies Repr()
      ensures Valid() && low == old(low)
      ensures old(Abs()).Read() == (if rc == 0 then Some(item.data) else None, Abs())
      ensures if rc == 0 then item.id == lastIdOut == low + Abs().read else rc == 1 && item == EMPTY_ITEM
    {
      hide State.Ok;
      ghost var s := View();
      if lastIdOut >= currentId {
        NothingToRead(s);
        return 1, EMPTY_ITEM;
      }
      rc, item := Fetch(s);
      if rc == 0 {
        lastIdOut := item.id;
      }
      CursorMoves(s, View(), item);
    }

    /** The next item, from the client table if there is one. */
    method Fetch(ghost s: State) returns (rc: int, item: Item)
      requires Shape() && s == View() && s.Ok() && lastIdOut < currentId
      modifies this`lastOutOffset, this`nextIdInClientTable, tableClient, tableClient.items
      ensures Shape() && rc == 0 && View().(lastIdOut := item.id).Follows(s, item)
    {
      hide State.Ok, State.Follows;
      rc := 0;
      var ok;
      ok, item := tableClient.Read();
      if ok {
        ServedFromClient(s);
        assert View().(lastIdOut := item.id) == s.Served(s.client);
      } else {
        rc, item := FetchMore(s);
      }
    }

    /** With an empty client table, from the disk table or else from the file. */
    method FetchMore(ghost s: State) returns (rc: int, item: Item)
      requires Shape() && s == View() && s.Ok() && s.client == [] && lastIdOut < currentId
      modifies this`lastOutOffset, this`nextIdInClientTable, tableClient, tableClient.items
      ensures Shape() && rc == 0 && View().(lastIdOut := item.id).Follows(s, item)
    {
      hide State.Ok, State.Follows;
      SomethingToRead(s);
      rc := 0;
      var k;
      k, item := LoadFromTable(s.DiskLow());
      if k == 0 {
        rc, item := ReadFromFile(s);
      } else {
        ghost var items := [item] + tableClient.contents;
        ServedFromTable(s, items);
        assert View().(lastIdOut := item.id) == s.Served(items).(nextIdInClientTable := s.lastIdOut + |items| + 1);
      }
    }

    method NoteLastLoaded()
      requires Shape()
      modifies this`nextIdInClientTable
      ensures nextIdInClientTable == if tableClient.contents == [] then old(nextIdInClientTable)
                                     else tableClient.contents[tableClient.nItems - 1].id + 1
    {
      if tableClient.nItems > 0 {
        var i := tableClient.indexFirst + tableClient.nItems - 1;
        if i >= tableClient.items.Length {
          i := i - tableClient.items.Length;
        }
        assert i == tableClient.Slot(tableClient.nItems - 1);
        nextIdInClientTable := tableClient.items[i].id + 1;
      }
    }

    /** The part of permFIFO_read that turns to the file. */
    method LoadFromFile()
      requires Shape() && tableClient.contents == [] && lastOutOffset <= |records|
      modifies this`lastOutOffset, this`nextIdInClientTable, tableClient, tableClient.items
      ensures Shape()
      ensures tableClient.contents == Scan(records[old(lastOutOffset)..], lastIdOut + 1, tableClient.items.Length)
      ensures lastOutOffset == old(lastOutOffset)
              || (lastOutOffset == |records| && tableClient.nItems < tableClient.items.Length)
      ensures tableClient.contents != [] ==> nextIdInClientTable == tableClient.contents[tableClient.nItems - 1].id + 1
    {
      var rc, pos := CtLoad(lastOutOffset, lastIdOut + 1);
      if rc == 0 {
        lastOutOffset := pos;
      }
      NoteLastLoaded();
    }

    method ReadFromFile(ghost s: State) returns (rc: int, item: Item)
      requires Shape() && s == View() && s.Ok() && s.client == [] && lastIdOut < currentId && lastIdOut < s.DiskLow()
      requires lastOutOffset <= |records|
      modifies this`lastOutOffset, this`nextIdInClientTable, tableClient, tableClient.items
      ensures Shape() && rc == 0 && View().(lastIdOut := item.id).Follows(s, item)
    {
      hide State.Ok, State.Follows, Scan;
      LoadFromFile();
      ghost var loaded := tableClient.contents;
      ServedFromFile(s, loaded, lastOutOffset, tableClient.items.Length);
      var ok;
      ok, item := tableClient.Read();
      rc := if ok then 0 else -1;
      assert View().(lastIdOut := item.id) ==
             s.Served(loaded).(nextIdInClientTable := s.Out() + |loaded| + 1, lastOutOffset := lastOutOffset);
    }

    /** The client table takes the item if it is the one expected there; a full client table instead forgets
        which item it expects and has the disk table saved. */
    method OfferToClient(item: Item, now: int) returns (ghost saved: bool, ghost toClient: bool)
      requires Shape() && forall i :: 0 <= i < tableDisk.nItems ==> tableDisk.contents[i].data != []
      modifies this`nextIdInClientTable, this`records, this`lastIdOnDisk, this`ackOnDisk, this`lastFlush
      modifies tableClient, tableClient.items, tableDisk, tableDisk.items
      ensures toClient ==> old(nextIdInClientTable) == item.id
      ensures tableDisk.contents == if saved then [] else old(tableDisk.contents)
      ensures Shape()
      ensures View() ==
              if saved then old(View()).(nextIdInClientTable := 0).Saved()
              else if toClient then old(View()).(client := old(View()).client + [item], nextIdInClientTable := item.id + 1)
              else old(View())
      ensures toClient == (old(nextIdInClientTable) == item.id && old(tableClient.nItems) < tableClient.items.Length)
      ensures saved == (old(nextIdInClientTable) == item.id && old(tableClient.nItems) == tableClient.items.Length)
    {
      saved, toClient := false, false;
      if item.id == nextIdInClientTable {
        var ok := tableClient.Write(item);
        if !ok {
          nextIdInClientTable := 0;
          SaveTableDisk(now);
          saved := true;
        } else {
          nextIdInClientTable := nextIdInClientTable + 1;
          toClient := true;
        }
      }
    }

    /** The disk table takes the item, after being saved if it is full. */
    method PutInDiskTable(item: Item, now: int) returns (rc: int, ghost saved: bool)
      requires Shape() && forall i :: 0 <= i < tableDisk.nItems ==> tableDisk.contents[i].data != []
      modifies this`records, this`lastIdOnDisk, this`ackOnDisk, this`lastFlush, tableDisk, tableDisk.items
      ensures Shape() && rc == 0 && saved == (old(tableDisk.nItems) == tableDisk.items.Length)
      ensures var s := if saved then old(View()).Saved() else old(View()); View() == s.(disk := s.disk + [item])
    {
      rc, saved := 0, false;
      var ok := tableDisk.Write(item);
      if !ok {
        SaveTableDisk(now);
        saved := true;
        ok := tableDisk.Write(item);
        rc := if ok then 0 else -1;
      }
    }

    /** permFIFO_write: -1 for a negative size, otherwise the payload joins the end of the queue. */
    method Write(data: seq<char>, size: int, now: int) returns (rc: int, ghost saved: bool)
      requires Valid() && (if size == 0 then '\0' in data else size <= |data|)
      modifies Repr()
      ensures Valid() && low == old(low) && rc == if size < 0 then -1 else 0
      ensures size < 0 ==> Abs() == old(Abs())
      ensures size >= 0 ==> Abs() == old(Abs()).Write(PayloadOf(data, size), saved)
      // Exactly the first `size` bytes, or the string up to its NUL, join the queue.
      ensures size > 0 ==> Abs().written == old(Abs()).written + [data[..size]]
      ensures size == 0 ==>
                forall n :: 0 <= n < |data| && data[n] == '\0' && '\0' !in data[..n] ==>
                  Abs().written == old(Abs()).written + [data[..n + 1]]
      // The disk table is saved only to make room in one of the tables.
      ensures saved ==> old(tableClient.nItems) == tableClient.items.Length || old(tableDisk.nItems) == tableDisk.items.Length
    {
      hide State.Ok, State.Saved, PayloadOf;
      if size < 0 {
        return -1, false;
      }
      PayloadIs(data, size);
      ghost var s := View();
      DiskHasData(s);
      var item := Item(currentId + 1, PayloadOf(data, size));
      currentId := currentId + 1;
      hist := hist + [item.data];
      ghost var taken := View();
      ghost var first, toClient := OfferToClient(item, now);
      ghost var offered := View();
      ghost var second;
      rc, second := PutInDiskTable(item, now);
      WriteSteps(s, taken, offered, View(), item, toClient, first, second);
      saved := first || second;
    }

    lemma NoEmptyPayload()
      requires Valid()
      ensures [] !in Abs().written
    {
    }

    /** Acknowledging what was read is what permFIFO_ack asks of its callers. */
    lemma AckAllowed(n: nat)
      requires Valid() && Abs().acked <= n <= Abs().read && n > 0
      ensures acked <= low + n <= lastIdOut
    {
    }

    /** permFIFO_ack: `id` and everything before it will not be needed again. The count of payloads this
        acknowledges is 0 while id is below the first id of this run. */
    method Ack(id: nat) returns (rc: int)
      requires Valid() && acked <= id <= lastIdOut
      modifies Repr()
      ensures Valid() && rc == 0 && low == old(low)
      ensures var op := FifoSpec.OpAck(if id < low then 0 else id - low);
              FifoSpec.Enabled(old(Abs()), op) && Abs() == FifoSpec.Apply(old(Abs()), op)
    {
      hide State.Ok, FifoSpec.Apply, FifoSpec.Enabled;
      rc := 0;
      ghost var s := View();
      ghost var k := tableDisk.Release(id);
      acked := id;
      AcknowledgedIsAck(s, id, k);
      if !ackOnDisk {
        assert View() == s.Acknowledged(id, k);
        return;
      }
      if lastIdOnDisk <= id {
        records := [];
        lastOutOffset := 0;
        ackOnDisk := false;
      }
      header := Header(id, lastIdOnDisk);
      assert View() == s.Acknowledged(id, k);
    }

    /** permFIFO_destroy: what is in the file afterwards is all that is pending. */
    method Destroy(now: int)
      requires Valid()
      modifies Repr()
      ensures Valid() && Abs() == old(Abs()).Flush()
      ensures WellFormed(Some(Image())) && PendingIn(Image()) == old(Abs()).Pending()
    {
      hide State.Ok;
      DiskHasData(View());
      SavedKeeps(View());
      SaveTableDisk(now);
      ImageHasSurvivors(View());
    }
  }

  /** A crash at any point between two operations leaves a file that promises exactly the payloads that are not
      acknowledged and were on disk; with OpenedIsFresh, the next run starts from these. */
  lemma ImageHasSurvivors(s: State)
    requires s.Ok()
    ensures WellFormed(Some(Full(s.header, s.records)))
    ensures PendingIn(Full(s.header, s.records)) == s.Abs().Survivors()
  {
    var k := if s.header.lastAckId < s.FileLow() then 0
             else if s.header.lastAckId < s.DiskLow() then s.header.lastAckId - s.FileLow() else |s.records|;
    hide Unacked, Payloads, Holds, Ordered;
    assert s.FileLow() + k == s.AckedId();
    HeldIsOrdered(s.low, s.hist, s.records, s.FileLow());
    UnackedIsSuffix(s.header.lastAckId, s.records, k);
    HoldsPart(s.low, s.hist, s.records, s.FileLow(), k, |s.records|);
    assert s.records[k..|s.records|] == s.records[k..];
    HeldPayloads(s.low, s.hist, s.records[k..], s.FileLow() + k);
  }

  /** A string written to an empty queue is what the next read delivers, with its NUL and without what follows it. */
  method WriteThenRead(f: PermFifo, s: string, rest: seq<char>, now: int) returns (item: Item)
    requires f.Valid() && '\0' !in s && f.Abs().read == |f.Abs().written|
    modifies f.Repr()
    ensures f.Valid() && item.data == s + "\0" && f.Abs().written == old(f.Abs()).written + [s + "\0"]
    ensures f.Abs().read == |f.Abs().written|
  {
    hide State.Ok, State.Abs, PayloadOf;
    var data := s + "\0" + rest;
    assert data[|s|] == '\0' && data[..|s|] == s && data[..|s| + 1] == s + "\0";
    var rc, saved := f.Write(data, 0, now);
    rc, item := f.Read();
  }

  /** A clean stop and a new start: the queue goes on with exactly what was not acknowledged. */
  method StopAndRestart(f: PermFifo, size: nat, now: int) returns (g: PermFifo)
    requires f.Valid() && size > 0
    modifies f.Repr()
    ensures g.Valid() && fresh(g.Repr()) && g.Abs() == FifoSpec.Apply(old(f.Abs()), FifoSpec.OpStop)
    ensures g.tableDisk.items.Length == size
  {
    hide State.Ok, State.Abs, WellFormed, PendingIn;
    f.Destroy(now);
    FullIsOk(f.Image());
    var disk := new Disk(Files(Some(f.Image()), None, None));
    g := new PermFifo(size, disk, now);
  }

  /** A process that dies between two operations and is started again: only what was not on disk is lost. */
  method CrashAndRestart(f: PermFifo, size: nat, now: int) returns (g: PermFifo)
    requires f.Valid() && size > 0
    ensures g.Valid() && fresh(g.Repr()) && g.Abs() == FifoSpec.Apply(f.Abs(), FifoSpec.OpCrash)
    ensures g.tableDisk.items.Length == size
    // What is lost are payloads written last, no more than the tables have places.
    ensures g.Abs().written <= f.Abs().Pending() && |f.Abs().Pending()| - |g.Abs().written| <= f.tableDisk.items.Length
  {
    hide State.Ok, State.Abs, WellFormed, PendingIn;
    ImageHasSurvivors(f.View());
    FullIsOk(f.Image());
    var disk := new Disk(Files(Some(f.Image()), None, None));
    g := new PermFifo(size, disk, now);
  }

  lemma FullIsOk(img: Image)
    requires WellFormed(Some(img))
    ensures var files := Files(Some(img), None, None); files.Ok() && files.Pending() == PendingIn(img)
  {
  }

  lemma HeldIsOrdered(low: nat, hist: seq<Payload>, s: seq<Item>, a: nat)
    requires Holds(low, hist, s, a) && [] !in hist
    ensures Ordered(s)
    ensures forall i :: 0 <= i < |s| ==> s[i].id == a + 1 + i
  {
  }

  lemma {:induction false} HeldPayloads(low: nat, hist: seq<Payload>, s: seq<Item>, a: nat)
    requires Holds(low, hist, s, a)
    ensures Payloads(s) == hist[a - low..a - low + |s|]
  {
    hide Holds;
    HoldsBounds(low, hist, s, a);
    if s != [] {
      HoldsAt(low, hist, s, a, 0);
      HoldsPart(low, hist, s, a, 1, |s|);
      assert s[1..|s|] == s[1..];
      HeldPayloads(low, hist, s[1..], a + 1);
      assert hist[a - low..a - low + |s|] == [hist[a - low]] + hist[a - low + 1..a - low + |s|];
    }
  }
}
