/** The FIFO file of src/permanentFIFO.c and its cleaning at start-up.

    A file is either empty or holds a main header followed by records, the last of which may lack
    its data. Cleaning works on three names (".fifo", ".fifo.old", ".fifo.new"). A Disk is the
    sequence of system calls made on them: the process can die after any of these. */
module FifoFile {
  import opened Options
  import opened RingTable

  datatype Header = Header(lastAckId: nat, currentId: nat)

  /** Torn is a file that ends with the header of a record, its id and size, without the data. */
  datatype Image = Empty | Full(header: Header, records: seq<Item>) | Torn(header: Header, records: seq<Item>, id: nat, size: nat)

  /** Records carry consecutive positive ids and some data. */
  predicate Ordered(records: seq<Item>) {
    && (records != [] ==> records[0].id > 0)
    && (forall i :: 0 <= i < |records| ==> records[i].id == records[0].id + i && records[i].data != [])
  }

  /** A file this code can have written: an id in the header of a file without records means that
      something was acknowledged. */
  predicate WellFormed(f: Option<Image>) {
    f.Some? && !f.value.Empty? ==>
      && f.value.Full?
      && Ordered(f.value.records)
      && (f.value.records == [] && f.value.header.lastAckId == 0 ==> f.value.header.currentId == 0)
  }

  /** What the file promises to deliver again: the data of the records above the last acknowledged id. */
  function Unacked(lastAckId: nat, records: seq<Item>): (ps: seq<Payload>)
    ensures (forall i :: 0 <= i < |records| ==> records[i].data != []) ==> forall i :: 0 <= i < |ps| ==> ps[i] != []
  {
    if records == [] then []
    else (if records[0].id > lastAckId then [records[0].data] else []) + Unacked(lastAckId, records[1..])
  }

  function PendingIn(img: Image): seq<Payload> {
    if img.Empty? then [] else Unacked(img.header.lastAckId, img.records)
  }

  function Payloads(records: seq<Item>): (ps: seq<Payload>)
    ensures |ps| == |records|
  {
    if records == [] then [] else [records[0].data] + Payloads(records[1..])
  }

  lemma {:induction false} PayloadAt(records: seq<Item>, i: nat)
    requires i < |records|
    ensures Payloads(records)[i] == records[i].data
  {
    if i > 0 {
      PayloadAt(records[1..], i - 1);
    }
  }

  lemma {:induction false} PayloadsAppend(records: seq<Item>, item: Item)
    ensures Payloads(records + [item]) == Payloads(records) + [item.data]
  {
    if records != [] {
      PayloadsAppend(records[1..], item);
      assert (records + [item])[1..] == records[1..] + [item];
    }
  }

  lemma PayloadsOfNumbered(ps: seq<Payload>)
    ensures Payloads(Numbered(ps)) == ps
  {
    forall i | 0 <= i < |ps| ensures Payloads(Numbered(ps))[i] == ps[i] {
      PayloadAt(Numbered(ps), i);
    }
  }

  /** Records numbered from 1. */
  function Numbered(ps: seq<Payload>): (records: seq<Item>)
    ensures |records| == |ps|
    ensures (forall i :: 0 <= i < |ps| ==> ps[i] != []) ==> Ordered(records)
  {
    seq(|ps|, i requires 0 <= i < |ps| => Item(i + 1, ps[i]))
  }

  lemma NumberedAppend(records: seq<Item>, pos: nat)
    requires pos < |records|
    ensures Numbered(Payloads(records[..pos])) + [Item(pos + 1, records[pos].data)]
            == Numbered(Payloads(records[..pos + 1]))
  {
    hide Payloads;
    PayloadsAppend(records[..pos], records[pos]);
    assert records[..pos + 1] == records[..pos] + [records[pos]];
  }

  lemma NothingNumbered(records: seq<Item>)
    ensures Numbered(Payloads(records[..0])) == []
  {
  }

  lemma {:induction false} UnackedSkips(lastAckId: nat, records: seq<Item>, k: nat)
    requires k <= |records|
    requires forall i :: 0 <= i < k ==> records[i].id <= lastAckId
    ensures Unacked(lastAckId, records) == Unacked(lastAckId, records[k..])
  {
    if k > 0 {
      UnackedSkips(lastAckId, records[1..], k - 1);
      assert records[1..][k - 1..] == records[k..];
    } else {
      assert records[0..] == records;
    }
  }

  lemma {:induction false} UnackedKeepsAll(lastAckId: nat, records: seq<Item>)
    requires forall i :: 0 <= i < |records| ==> records[i].id > lastAckId
    ensures Unacked(lastAckId, records) == Payloads(records)
  {
    if records != [] {
      UnackedKeepsAll(lastAckId, records[1..]);
    }
  }

  /** In an ordered file the unacknowledged records are one suffix: it starts at the first id above the cursor. */
  lemma {:induction false} UnackedIsSuffix(lastAckId: nat, records: seq<Item>, k: nat)
    requires Ordered(records) && k <= |records|
    requires forall i :: 0 <= i < k ==> records[i].id <= lastAckId
    requires k < |records| ==> records[k].id > lastAckId
    ensures Unacked(lastAckId, records) == Payloads(records[k..])
  {
    UnackedSkips(lastAckId, records, k);
    UnackedKeepsAll(lastAckId, records[k..]);
  }

  /** The file that cleaning leaves behind. */
  function Cleaned(img: Image): (r: Image)
    requires WellFormed(Some(img))
  {
    if img.Empty? then Full(Header(0, 0), [])
    else if img.header.lastAckId == 0 then
      var n := |img.records|;
      Full(Header(0, if n == 0 then img.header.currentId else img.records[n - 1].id), img.records)
    else
      var ps := Unacked(img.header.lastAckId, img.records);
      Full(Header(0, |ps|), Numbered(ps))
  }

  /** Cleaning loses and repeats nothing. */
  lemma {:induction false} CleanedKeepsUnacked(img: Image)
    requires WellFormed(Some(img))
    ensures Cleaned(img).Full? && WellFormed(Some(Cleaned(img))) && Cleaned(img).header.lastAckId == 0
    ensures PendingIn(Cleaned(img)) == PendingIn(img)
    ensures Payloads(Cleaned(img).records) == PendingIn(img)
  {
    UnackedKeepsAll(0, Cleaned(img).records);
    if img.Full? && img.header.lastAckId != 0 {
      PayloadsOfNumbered(Unacked(img.header.lastAckId, img.records));
    }
  }

  /** A file with a default header and no record. */
  lemma FreshFile()
    ensures WellFormed(Some(Full(Header(0, 0), []))) && PendingIn(Full(Header(0, 0), [])) == []
  {
  }

  /** The three files of one FIFO: path.fifo, path.fifo.old and path.fifo.new. */
  datatype Files = Files(f1: Option<Image>, f2: Option<Image>, f3: Option<Image>) {
    /** The new file can be anything: it is removed before it is used. */
    predicate Ok() {
      WellFormed(f1) && WellFormed(f2)
    }

    /** The file the next start-up works from. */
    function Source(): Image {
      if f1.Some? then f1.value else if f2.Some? then f2.value else Empty
    }

    /** The payloads the three files stand for. */
    function Pending(): seq<Payload> {
      PendingIn(Source())
    }

    predicate Safe(promise: seq<Payload>) {
      Ok() && Pending() == promise
    }

    /** The number of retries spent before a file is found or created. */
    function Rank(): nat {
      if f1.Some? then (if f1.value.Empty? then 1 else 0)
      else if f2.None? then 0 else if f2.value.Empty? then 2 else 1
    }
  }

  /** The system calls that change the files. A record is appended in two writes. */
  datatype Call =
    | RenameOldToCurrent | RenameCurrentToOld | RenameNewToCurrent
    | UnlinkCurrent | UnlinkOld | UnlinkNew
    | CreateCurrent | CreateNew
    | WriteCurrentHeader(header: Header)
    | WriteNewHeader(header: Header)
    | AppendRecordHeader(id: nat, size: nat)
    | AppendRecordData(data: Payload)

  predicate CanCall(f: Files, c: Call) {
    match c
    case RenameOldToCurrent => f.f2.Some?
    case RenameCurrentToOld => f.f1.Some?
    case RenameNewToCurrent => f.f3.Some?
    case WriteCurrentHeader(_) => f.f1.Some? && !f.f1.value.Torn?
    case WriteNewHeader(_) => f.f3.Some? && !f.f3.value.Torn?
    case AppendRecordHeader(_, _) => f.f3.Some? && f.f3.value.Full?
    case AppendRecordData(data) => f.f3.Some? && f.f3.value.Torn? && |data| == f.f3.value.size
    case _ => true
  }

  /** What a call does; a rename replaces the target, creating a file empties it, and a call that fails does nothing. */
  function Called(f: Files, c: Call): Files {
    if !CanCall(f, c) then f
    else
      match c
      case RenameOldToCurrent => Files(f.f2, None, f.f3)
      case RenameCurrentToOld => Files(None, f.f1, f.f3)
      case RenameNewToCurrent => Files(f.f3, f.f2, None)
      case UnlinkCurrent => f.(f1 := None)
      case UnlinkOld => f.(f2 := None)
      case UnlinkNew => f.(f3 := None)
      case CreateCurrent => f.(f1 := Some(Empty))
      case CreateNew => f.(f3 := Some(Empty))
      case WriteCurrentHeader(h) => f.(f1 := Some(Full(h, RecordsOf(f.f1.value))))
      case WriteNewHeader(h) => f.(f3 := Some(Full(h, RecordsOf(f.f3.value))))
      case AppendRecordHeader(id, size) => f.(f3 := Some(Torn(f.f3.value.header, f.f3.value.records, id, size)))
      case AppendRecordData(data) =>
        f.(f3 := Some(Full(f.f3.value.header, f.f3.value.records + [Item(f.f3.value.id, data)])))
  }

  function RecordsOf(img: Image): seq<Item> {
    if img.Empty? then [] else img.records
  }

  function CalledAll(f: Files, calls: seq<Call>): Files {
    if calls == [] then f else Called(CalledAll(f, calls[..|calls| - 1]), calls[|calls| - 1])
  }

  lemma OneMoreCall(f: Files, calls: seq<Call>, c: Call)
    ensures CalledAll(f, calls + [c]) == Called(CalledAll(f, calls), c)
  {
    hide Called;
    assert (calls + [c])[..|calls|] == calls;
  }

  /** Wherever the calls are cut short, the files stand for the promised payloads. */
  ghost predicate AlwaysSafe(f: Files, calls: seq<Call>, promise: seq<Payload>) {
    forall i :: 0 <= i <= |calls| ==> CalledAll(f, calls[..i]).Safe(promise)
  }

  lemma SafeSoFar(f: Files, calls: seq<Call>, c: Call, promise: seq<Payload>)
    requires AlwaysSafe(f, calls, promise) && Called(CalledAll(f, calls), c).Safe(promise)
    ensures AlwaysSafe(f, calls + [c], promise)
  {
    hide Called, CalledAll, Files.Safe;
    OneMoreCall(f, calls, c);
    forall i | 0 <= i <= |calls| + 1
      ensures CalledAll(f, (calls + [c])[..i]).Safe(promise)
    {
      if i <= |calls| {
        assert (calls + [c])[..i] == calls[..i];
      } else {
        assert (calls + [c])[..i] == calls + [c];
      }
    }
  }

  /** The disk as cleaning sees it: the files at the start and the calls made on them. There is no other state, so that
      nothing can happen to the files except by a call. */
  class Disk {
    const start: Files
    var calls: seq<Call>

    ghost predicate Valid()
      reads this
    {
      Now().Safe(start.Pending()) && AlwaysSafe(start, calls, start.Pending())
    }

    /** The files now. */
    function Now(): Files
      reads this
    {
      CalledAll(start, calls)
    }

    constructor (files: Files)
      requires files.Ok()
      ensures Valid() && start == files && calls == [] && Now() == files
    {
      start, calls := files, [];
    }

    method Issue(c: Call)
      requires Valid() && CanCall(Now(), c) && Called(Now(), c).Safe(start.Pending())
      modifies this
      ensures Valid() && calls == old(calls) + [c] && Now() == Called(old(Now()), c)
    {
      hide Called, Files.Safe, AlwaysSafe;
      OneMoreCall(start, calls, c);
      SafeSoFar(start, calls, c, start.Pending());
      calls := calls + [c];
    }

    /** permFIFO_file_clean without backup. It ends within its three retries whatever files it starts from,
        and (Valid) after each of its calls the files still stand for the same payloads. */
    method Clean()
      requires Valid()
      modifies this
      ensures Valid() && old(calls) <= calls
      ensures Now().f1 == Some(Cleaned(old(Now()).Source())) && Now().f2 == None
      ensures Now().f3 == if old(Now()).f1.None? && old(Now()).f2.None? then old(Now()).f3 else None
    {
      hide Payloads, Numbered, Ordered, Unacked, AlwaysSafe, CalledAll;
      FreshFile();
      ghost var first := Now();
      var retry, done := 0, false;
      while retry < 3 && !done
        invariant Valid() && old(calls) <= calls
        invariant if done then Now().f1 == Some(Cleaned(first.Source())) && Now().f2 == None
                  else Now().Rank() + retry <= 2 && Cleaned(Now().Source()) == Cleaned(first.Source())
        invariant first.f1.None? && first.f2.None? ==> Now().f3 == first.f3 && (!done ==> Now() == first)
        invariant (first.f1.Some? || first.f2.Some?) && (done || (Now().f1.None? && Now().f2.None?)) ==> Now().f3 == None
        decreases 3 - retry, !done
      {
        if Now().f1.None? {
          if Now().f2.None? {
            Issue(CreateCurrent);
            Issue(WriteCurrentHeader(Header(0, 0)));
            done := true;
          } else {
            Issue(RenameOldToCurrent);
            retry := retry + 1;
          }
        } else {
          Issue(UnlinkOld);
          Issue(UnlinkNew);
          if Now().f1.value.Empty? {
            Issue(UnlinkCurrent);
            retry := retry + 1;
          } else {
            if Now().f1.value.header.lastAckId == 0 {
              RecordLastId();
            } else {
              CopyUnacked();
            }
            done := true;
          }
        }
      }
    }

    /** No acknowledged data: the largest id is looked up and written to the main header. */
    method RecordLastId()
      requires Valid()
      requires Now().f1.Some? && Now().f1.value.Full? && Now().f1.value.header.lastAckId == 0
      modifies this
      ensures Valid() && old(calls) <= calls
      ensures Now() == old(Now()).(f1 := Some(Cleaned(old(Now()).f1.value)))
    {
      hide AlwaysSafe, CalledAll;
      var img := Now().f1.value;
      var currentId, pos := 0, 0;
      while pos < |img.records|
        invariant pos <= |img.records|
        invariant currentId == if pos == 0 then 0 else img.records[pos - 1].id
      {
        currentId := img.records[pos].id;
        pos := pos + 1;
      }
      if currentId != 0 {
        Issue(WriteCurrentHeader(img.header.(currentId := currentId)));
      }
    }

    /** Copies the unacknowledged records to the new file, renumbered, then swaps the files. */
    method CopyUnacked()
      requires Valid()
      requires Now().f1.Some? && Now().f1.value.Full? && Now().f1.value.header.lastAckId != 0 && Now().f2 == None
      modifies this
      ensures Valid() && old(calls) <= calls
      ensures Now() == Files(Some(Cleaned(old(Now()).f1.value)), None, None)
    {
      hide AlwaysSafe, CalledAll, Payloads, Ordered;
      var img := Now().f1.value;
      var pos := 0;
      while pos < |img.records| && img.records[pos].id <= img.header.lastAckId
        invariant pos <= |img.records|
        invariant forall i :: 0 <= i < pos ==> img.records[i].id <= img.header.lastAckId
      {
        pos := pos + 1;
      }
      UnackedIsSuffix(img.header.lastAckId, img.records, pos);
      var currentId := CopyRecords(img.records[pos..]);
      if currentId != 0 {
        Issue(WriteNewHeader(Header(0, currentId)));
      }
      CleanedKeepsUnacked(img);
      Issue(RenameCurrentToOld);
      Issue(RenameNewToCurrent);
      Issue(UnlinkOld);
    }

    /** Creates the new file with a default header and appends the given records, numbered from 1. */
    method CopyRecords(records: seq<Item>) returns (currentId: nat)
      requires Valid() && Now().f1.Some?
      modifies this
      ensures Valid() && old(calls) <= calls
      ensures currentId == |records|
      ensures Now() == old(Now()).(f3 := Some(Full(Header(0, 0), Numbered(Payloads(records)))))
    {
      hide AlwaysSafe, CalledAll, WellFormed, PendingIn, Payloads, Numbered;
      NothingNumbered(records);
      Issue(CreateNew);
      Issue(WriteNewHeader(Header(0, 0)));
      currentId := 0;
      for pos := 0 to |records|
        invariant Valid() && old(calls) <= calls
        invariant currentId == pos
        invariant Now() == old(Now()).(f3 := Some(Full(Header(0, 0), Numbered(Payloads(records[..pos])))))
      {
        currentId := currentId + 1;
        AppendRecord(currentId, records[pos].data);
        NumberedAppend(records, pos);
      }
      assert records[..|records|] == records;
    }

    /** The two writes of one record. */
    method AppendRecord(id: nat, data: Payload)
      requires Valid() && Now().f3.Some? && Now().f3.value.Full?
      modifies this
      ensures Valid() && old(calls) <= calls
      ensures var img := old(Now()).f3.value;
              Now() == old(Now()).(f3 := Some(Full(img.header, img.records + [Item(id, data)])))
    {
      hide AlwaysSafe, CalledAll, WellFormed, PendingIn;
      Issue(AppendRecordHeader(id, |data|));
      Issue(AppendRecordData(data));
    }

    /** The files as a process leaves them that dies after the first i calls. */
    function Cut(i: nat): Files
      requires i <= |calls|
      reads this
    {
      CalledAll(start, calls[..i])
    }
  }

  /** A process that dies after any call of cleaning leaves files from which the next cleaning makes a file with exactly
      the payloads promised at the start. */
  lemma CrashInsideCleaning(d: Disk, i: nat)
    requires d.Valid() && i <= |d.calls|
    ensures d.Cut(i).Safe(d.start.Pending()) && Cleaned(d.Cut(i).Source()).Full?
    ensures Payloads(Cleaned(d.Cut(i).Source()).records) == d.start.Pending()
  {
    hide Called, CalledAll, Payloads, Unacked, Numbered, Ordered, Cleaned;
    CleanedKeepsUnacked(d.Cut(i).Source());
  }

  /** Start-ups that die, the k-th one after at most deaths[k] calls of its cleaning, before one that does not: whatever
      the files and the deaths, the file it opens holds exactly the payloads promised before the first one. */
  method CleanThroughDeaths(files: Files, deaths: seq<nat>) returns (img: Image)
    requires files.Ok()
    ensures img.Full? && WellFormed(Some(img)) && img.header.lastAckId == 0
    ensures Payloads(img.records) == PendingIn(img) == files.Pending()
  {
    hide AlwaysSafe, CalledAll, Payloads, Unacked, Numbered, Ordered, Cleaned, WellFormed, Files.Source;
    var f := files;
    for k := 0 to |deaths|
      invariant f.Safe(files.Pending())
    {
      var disk := new Disk(f);
      disk.Clean();
      var i := if deaths[k] < |disk.calls| then deaths[k] else |disk.calls|;
      CrashInsideCleaning(disk, i);
      f := disk.Cut(i);
    }
    var last := new Disk(f);
    SourceIsOk(f);
    CleanedKeepsUnacked(f.Source());
    last.Clean();
    img := last.Now().f1.value;
  }

  lemma SourceIsOk(f: Files)
    requires f.Ok()
    ensures WellFormed(Some(f.Source())) && f.Pending() == PendingIn(f.Source())
  {
  }

  /** Cleaning a cleaned file changes nothing, so a second start without traffic in between costs nothing. */
  lemma {:induction false} CleanedIsIdempotent(img: Image)
    requires WellFormed(Some(img))
    ensures Cleaned(img).Full? && WellFormed(Some(Cleaned(img))) && Cleaned(Cleaned(img)) == Cleaned(img)
  {
    CleanedKeepsUnacked(img);
  }
}
