/** src/transport_cache.c: a queue of files kept in memory, of which those that do not fit or are too old are in a spool
    directory. */
module TransportCaches {
  import opened CacheNames
  import opened FileIds
  import opened CacheRings
  import opened Options
  import opened Spools
  import SpoolSpecs

  /** TR_CACHE_SAVE_TIMEOUT */
  const SAVE_TIMEOUT := 10

  datatype Entry = Entry(name: string, data: seq<char>)

  /** The directory, sorted by name, holds the given files. */
  ghost predicate Holds(dir: seq<Entry>, disk: seq<Stored>) {
    |dir| == |disk| && forall i :: 0 <= i < |disk| ==> IsId(disk[i].id) && dir[i] == Entry(FileName(disk[i].id), disk[i].data)
  }

  /** Creates or replaces a file; the directory stays sorted by name. */
  function WriteEntry(dir: seq<Entry>, e: Entry): seq<Entry> {
    if dir == [] then [e]
    else if dir[0].name == e.name then [e] + dir[1..]
    else if Less(e.name, dir[0].name) then [e] + dir
    else [dir[0]] + WriteEntry(dir[1..], e)
  }

  lemma {:induction false} WriteHolds(dir: seq<Entry>, disk: seq<Stored>, s: Stored)
    requires Holds(dir, disk) && IsId(s.id)
    ensures Holds(WriteEntry(dir, Entry(FileName(s.id), s.data)), Put(disk, s))
    decreases |dir|
  {
    hide FileName, Less, IsId;
    if dir != [] {
      NamesSortLikeIds(s.id, disk[0].id);
      NameReadBack(s.id);
      NameReadBack(disk[0].id);
      WriteHolds(dir[1..], disk[1..], s);
    }
  }

  /** is_spool_file: the names with an id between two bounds, of which those with major id -1 are no bounds. */
  predicate IsSpoolFile(name: string, cutLow: Fid, cutHigh: Fid) {
    ParseName(name).Some? &&
    var fid := ParseName(name).value;
    && (cutLow.majId == -1 || After(cutLow, fid))
    && (cutHigh.majId == -1 || After(fid, cutHigh))
  }

  /** scandir, in the order of the names. */
  function Scandir(dir: seq<Entry>, cutLow: Fid, cutHigh: Fid): seq<Entry> {
    if dir == [] then []
    else if IsSpoolFile(dir[0].name, cutLow, cutHigh) then [dir[0]] + Scandir(dir[1..], cutLow, cutHigh)
    else Scandir(dir[1..], cutLow, cutHigh)
  }

  /** What is left after these files are deleted. */
  function Unlinked(dir: seq<Entry>, cutLow: Fid, cutHigh: Fid): seq<Entry> {
    if dir == [] then []
    else if IsSpoolFile(dir[0].name, cutLow, cutHigh) then Unlinked(dir[1..], cutLow, cutHigh)
    else [dir[0]] + Unlinked(dir[1..], cutLow, cutHigh)
  }

  /** unlink */
  function Without(dir: seq<Entry>, name: string): seq<Entry> {
    if dir == [] then []
    else if dir[0].name == name then Without(dir[1..], name)
    else [dir[0]] + Without(dir[1..], name)
  }

  function WithoutAll(dir: seq<Entry>, gone: seq<Entry>): seq<Entry> {
    if gone == [] then dir else Without(WithoutAll(dir, gone[..|gone| - 1]), gone[|gone| - 1].name)
  }

  lemma {:induction false} WithoutFirst(e: Entry, dir: seq<Entry>, gone: seq<Entry>)
    ensures WithoutAll([e] + dir, gone) ==
            if exists g :: g in gone && g.name == e.name then WithoutAll(dir, gone) else [e] + WithoutAll(dir, gone)
    decreases |gone|
  {
    if gone != [] {
      var rest, last := gone[..|gone| - 1], gone[|gone| - 1];
      WithoutFirst(e, dir, rest);
      assert forall g :: g in gone <==> g in rest || g == last;
      assert ([e] + WithoutAll(dir, rest))[1..] == WithoutAll(dir, rest);
    }
  }

  lemma {:induction false} WithoutNothing(gone: seq<Entry>)
    ensures WithoutAll([], gone) == []
    decreases |gone|
  {
    if gone != [] {
      WithoutNothing(gone[..|gone| - 1]);
    }
  }

  /** Unlinking, one by one, names that scandir selects leaves the others. */
  lemma {:induction false} UnlinkOneByOne(dir: seq<Entry>, cutLow: Fid, cutHigh: Fid, gone: seq<Entry>)
    requires forall g :: g in gone ==> IsSpoolFile(g.name, cutLow, cutHigh)
    requires forall e :: e in dir && IsSpoolFile(e.name, cutLow, cutHigh) ==> e in gone
    ensures WithoutAll(dir, gone) == Unlinked(dir, cutLow, cutHigh)
    decreases |dir|
  {
    hide IsSpoolFile, WithoutAll;
    if dir == [] {
      WithoutNothing(gone);
    } else {
      assert dir == [dir[0]] + dir[1..];
      WithoutFirst(dir[0], dir[1..], gone);
      UnlinkOneByOne(dir[1..], cutLow, cutHigh, gone);
    }
  }

  lemma {:induction false} Scanned(dir: seq<Entry>, cutLow: Fid, cutHigh: Fid)
    ensures forall e :: e in Scandir(dir, cutLow, cutHigh) <==> e in dir && IsSpoolFile(e.name, cutLow, cutHigh)
    decreases |dir|
  {
    hide IsSpoolFile;
    if dir != [] {
      Scanned(dir[1..], cutLow, cutHigh);
      assert forall e :: e in dir <==> e == dir[0] || e in dir[1..];
    }
  }

  /** The largest id scandir sees. */
  function MaxOnDisk(dir: seq<Entry>, max: Fid): Fid {
    if dir == [] then max
    else
      var id := ParseName(dir[0].name);
      MaxOnDisk(dir[1..], if id.Some? && After(id.value, max) then id.value else max)
  }

  lemma {:induction false} ScanHolds(dir: seq<Entry>, disk: seq<Stored>, low: Fid)
    requires Holds(dir, disk) && (low.majId == -1 ==> low.minId == -1)
    ensures Holds(Scandir(dir, Fid(-1, -1), low), Above(disk, low))
    decreases |dir|
  {
    hide FileName, ParseName, IsId;
    if dir != [] {
      IdIsPlain(disk[0].id);
      NameReadBack(disk[0].id);
      ScanHolds(dir[1..], disk[1..], low);
    }
  }

  lemma IdIsPlain(a: Fid)
    requires IsId(a)
    ensures a.majId >= 0 && a.minId >= 0
  {
  }

  lemma {:induction false} UnlinkHolds(dir: seq<Entry>, disk: seq<Stored>, fid: Fid)
    requires Holds(dir, disk) && fid.majId >= 0
    ensures Holds(Unlinked(dir, Fid(fid.majId, fid.minId + 1), Fid(-1, -1)), Above(disk, fid))
    decreases |dir|
  {
    hide FileName, ParseName, IsId;
    if dir != [] {
      NameReadBack(disk[0].id);
      UnlinkHolds(dir[1..], disk[1..], fid);
    }
  }

  lemma {:induction false} MaxHolds(dir: seq<Entry>, disk: seq<Stored>, max: Fid)
    requires Holds(dir, disk)
    ensures var m := MaxOnDisk(dir, max);
            && !After(max, m) && (forall x :: x in disk ==> !After(x.id, m))
            && (m == max || exists x :: x in disk && x.id == m)
    decreases |dir|
  {
    hide FileName, ParseName, IsId;
    if dir != [] {
      NameReadBack(disk[0].id);
      assert forall x :: x in disk <==> x == disk[0] || x in disk[1..];
      MaxHolds(dir[1..], disk[1..], if After(disk[0].id, max) then disk[0].id else max);
    }
  }

  /** A file one update later. */
  function Ticked(f: CacheFile): CacheFile {
    if f.clock == 0 then f else f.(clock := f.clock - 1)
  }

  /** A file that is on disk now. */
  function Saved(f: CacheFile): CacheFile {
    if f.onDisk then f else f.(onDisk := true, clock := 0)
  }

  /** A file that is not on disk is to be saved within SAVE_TIMEOUT updates. */
  predicate ClocksOk(table: seq<CacheFile>) {
    forall i :: 0 <= i < |table| ==> (table[i].onDisk || table[i].clock > 0) && table[i].clock <= SAVE_TIMEOUT
  }

  class TransportCache {
    const ring: CacheRing
    var intableMax: Fid
    var ondiskMax: Fid
    var dir: seq<Entry>

    /** The files on disk, and those inserted or found on disk and not deleted, in order. */
    ghost var disk: seq<Stored>
    ghost var live: seq<Stored>

    ghost predicate Valid()
      reads this, ring, ring.cache
    {
      Sound() && ClocksOk(ring.contents)
    }

    /** The same, with clocks that may have run out. */
    ghost predicate Sound()
      reads this, ring, ring.cache
    {
      && ring.Valid() && Holds(dir, disk) && (IsId(intableMax) || intableMax == Fid(-1, -1))
      && CacheOk(ring.contents, disk, intableMax, ondiskMax, live)
      && forall i :: 0 <= i < |ring.contents| ==> IsId(ring.contents[i].id)
    }

    /** The queue the cache stands for. */
    ghost function Abs(): SpoolSpecs.Spool
      reads this, ring
    {
      SpoolSpecs.Spool(live, ring.read, Newest())
    }

    lemma AbsIsOk()
      requires Valid()
      ensures Abs().Ok()
    {
      hide IsId, Holds, Top;
      forall x | x in live ensures !After(x.id, Newest()) {
        AllBelowTop(ring.contents, disk, intableMax, ondiskMax, live, x);
      }
    }

    /** The same, with the largest id on disk still to be looked up. */
    ghost predicate Fillable()
      reads this, ring, ring.cache
    {
      && ring.Valid() && Holds(dir, disk) && (IsId(intableMax) || intableMax == Fid(-1, -1))
      && CacheOk(ring.contents, disk, intableMax, MaxOnDisk(dir, ondiskMax), live)
      && (forall i :: 0 <= i < |ring.contents| ==> IsId(ring.contents[i].id))
      && ClocksOk(ring.contents)
    }

    /** The largest id so far. */
    function Newest(): Fid
      reads this
    {
      Top(intableMax, ondiskMax)
    }

    /** TR_cache_open: the files found in the directory are live again, none of them read. */
    constructor (size: nat, dir: seq<Entry>, ghost disk: seq<Stored>)
      requires size > 0 && Holds(dir, disk) && Increasing(disk)
      ensures Valid() && live == disk && this.dir == dir && ring.read == 0 && fresh(ring) && fresh(ring.cache)
      ensures |ring.contents| == |live| || |ring.contents| == ring.cache.Length - 1
    {
      hide RingOk, FileName, MaxOnDisk;
      ring := new CacheRing(size);
      intableMax, ondiskMax := Fid(-1, -1), Fid(-1, -1);
      this.dir, this.disk, live := dir, disk, disk;
      new;
      MaxHolds(dir, disk, Fid(-1, -1));
      IdsAreNew(dir, disk);
      Fill();
    }

    /** TR_cache_file_write of a file of the table. */
    method FileWrite(index: nat, ghost i: nat)
      requires Sound() && i < |ring.contents| && index == Around(ring.cache.Length, ring.start, i)
      modifies this`dir, this`disk, this`ondiskMax, ring`contents, ring.cache
      ensures Sound() && Newest() == old(Newest()) && |ring.contents| == |old(ring.contents)|
      ensures ring.contents[i] == Saved(old(ring.contents)[i])
      ensures forall k :: 0 <= k < |ring.contents| && k != i ==> ring.contents[k] == old(ring.contents)[k]
    {
      hide RingOk, CacheOk, Holds, IsId, FileName;
      RingAt(ring.cache[..], ring.start, ring.end, ring.firstNew, ring.contents, ring.read, i);
      var f := ring.cache[index];
      if f.onDisk {
        return;
      }
      IdIsPlain(f.id);
      dir := WriteEntry(dir, Entry(FileName(f.id), f.data));
      ghost var table, onDisk := ring.contents, disk;
      ghost var onMax := ondiskMax;
      disk := Put(disk, StoredOf(f));
      WriteHolds(old(dir), onDisk, StoredOf(f));
      ring.Change(i, index, f.(onDisk := true, clock := 0));
      if After(f.id, ondiskMax) {
        ondiskMax := f.id;
      }
      TableIds(table, onDisk, intableMax, onMax, live, i);
      WriteKeeps(table, onDisk, intableMax, onMax, live, i, ring.contents);
    }

    /** TR_cache_save */
    method Save()
      requires Sound()
      modifies this`dir, this`disk, this`ondiskMax, ring`contents, ring.cache
      ensures Sound() && Abs() == old(Abs()) && |ring.contents| == |old(ring.contents)|
      ensures forall i :: 0 <= i < |ring.contents| ==> ring.contents[i] == Saved(old(ring.contents)[i])
    {
      hide RingOk, CacheOk, Holds, IsId, Top;
      var index := ring.start;
      ghost var i := 0;
      RingAt(ring.cache[..], ring.start, ring.end, ring.firstNew, ring.contents, ring.read, 0);
      while index != ring.end
        invariant Sound() && Newest() == old(Newest()) && |ring.contents| == |old(ring.contents)|
        invariant i <= |ring.contents| && index == Around(ring.cache.Length, ring.start, i)
        invariant forall k :: 0 <= k < i ==> ring.contents[k] == Saved(old(ring.contents)[k])
        invariant forall k :: i <= k < |ring.contents| ==> ring.contents[k] == old(ring.contents)[k]
        decreases |ring.contents| - i
      {
        RingAt(ring.cache[..], ring.start, ring.end, ring.firstNew, ring.contents, ring.read, i);
        FileWrite(index, i);
        RingAt(ring.cache[..], ring.start, ring.end, ring.firstNew, ring.contents, ring.read, i + 1);
        index := ring.IncIndex(index);
        i := i + 1;
      }
      RingAt(ring.cache[..], ring.start, ring.end, ring.firstNew, ring.contents, ring.read, i);
    }

    /** TR_cache_file_write of a file that stays out of the table. */
    method WriteNew(f: CacheFile)
      requires Valid() && IsId(f.id) && After(f.id, intableMax) && After(f.id, ondiskMax)
      modifies this`dir, this`disk, this`ondiskMax, this`live
      ensures Valid() && live == old(live) + [StoredOf(f)] && Newest() == f.id
    {
      hide RingOk, CacheOk, Holds, IsId, FileName;
      IdIsPlain(f.id);
      AppendDisk(ring.contents, disk, intableMax, ondiskMax, live, StoredOf(f));
      WriteHolds(dir, disk, StoredOf(f));
      dir := WriteEntry(dir, Entry(FileName(f.id), f.data));
      disk, live := Put(disk, StoredOf(f)), live + [StoredOf(f)];
      if After(f.id, ondiskMax) {
        ondiskMax := f.id;
      }
    }

    /** TR_cache_insert of a file that is not on disk: it is accepted exactly when it is newer than everything so far,
        and joins the end of the queue. */
    method Insert(f: CacheFile) returns (rc: int)
      requires Valid() && IsId(f.id) && !f.onDisk
      modifies this, ring, ring.cache
      ensures Valid() && rc == if After(f.id, old(Newest())) then 0 else -1
      ensures old(Abs()).Ok() && Abs() == SpoolSpecs.Apply(old(Abs()), SpoolSpecs.Insert(StoredOf(f)))
      // It is in memory at once if there is room and no older file is left on disk only; a full table is saved.
      ensures rc == 0 && !After(old(ondiskMax), old(intableMax)) ==>
                if |old(ring.contents)| + 1 < ring.cache.Length
                then ring.contents == old(ring.contents) + [f.(clock := SAVE_TIMEOUT)]
                else forall k :: 0 <= k < |ring.contents| ==> ring.contents[k].onDisk
    {
      hide RingOk, CacheOk, Holds, IsId, Top;
      AbsIsOk();
      NewerThanAll(intableMax, ondiskMax, f.id);
      if !After(f.id, intableMax) || !After(f.id, ondiskMax) {
        return -1;
      }
      rc := 0;
      if After(ondiskMax, intableMax) {
        WriteNew(f);
      } else {
        var left := ring.SpaceLeft();
        if left == 0 {
          Save();
          NewerThanAll(intableMax, ondiskMax, f.id);
          WriteNew(f);
        } else {
          AppendTable(ring.contents, disk, intableMax, ondiskMax, live, f.(clock := SAVE_TIMEOUT));
          ring.Add(f.(clock := SAVE_TIMEOUT));
          live := live + [StoredOf(f)];
          if After(f.id, intableMax) {
            intableMax := f.id;
          }
          TopIs(f.id, ondiskMax);
        }
      }
    }

    /** TR_cache_get_next: the next live file, if it is in the table. */
    method GetNext() returns (f: Option<CacheFile>)
      requires Valid()
      modifies ring
      ensures Valid() && ring.contents == old(ring.contents)
      ensures f.Some? <==> old(ring.read) < |ring.contents|
      ensures old(Abs()).Ok() && Abs() == SpoolSpecs.Apply(old(Abs()), SpoolSpecs.Next(f.Some?))
      ensures SpoolSpecs.DeliveredBy(old(Abs()), SpoolSpecs.Next(f.Some?)) == if f.Some? then [StoredOf(f.value)] else []
    {
      hide Holds, IsId;
      AbsIsOk();
      ReadInTable(ring.cache[..], ring.start, ring.end, ring.firstNew, ring.contents, ring.read);
      f := ring.Next();
    }

    /** TR_cache_delete: the files up to fid leave the cache, read or not. */
    method Delete(fid: Fid)
      requires Valid() && fid.majId >= 0
      modifies this, ring, ring.cache
      ensures Valid() && old(Abs()).Ok() && Abs() == SpoolSpecs.Apply(old(Abs()), SpoolSpecs.Delete(fid))
      ensures live == Above(old(live), fid)
    {
      hide RingOk, CacheOk, Holds, IsId, Increasing, Above, Unlinked, Top, StoredOf;
      AbsIsOk();
      ghost var table, read := ring.contents, ring.read;
      LiveFacts(table, disk, intableMax, ondiskMax, live);
      ghost var n := 0;
      while ring.start != ring.end
        invariant unchanged(this) && ring.Valid() && n <= |table| && ring.contents == table[n..]
        invariant ring.read == if read < n then 0 else read - n
        invariant forall i :: 0 <= i < n ==> !After(table[i].id, fid)
        decreases |table| - n
      {
        RingAt(ring.cache[..], ring.start, ring.end, ring.firstNew, ring.contents, ring.read, 0);
        if After(ring.cache[ring.start].id, fid) {
          break;
        }
        ring.DropFirst();
        n := n + 1;
      }
      RingAt(ring.cache[..], ring.start, ring.end, ring.firstNew, ring.contents, ring.read, 0);
      ghost var k := AboveIsSuffix(live, fid);
      DropCount(table, live, fid, k, n);
      DropKeeps(table, disk, intableMax, ondiskMax, live, fid, k, n);
      ReadInTable(ring.cache[..], ring.start, ring.end, ring.firstNew, ring.contents, ring.read);
      UnlinkHolds(dir, disk, fid);
      UnlinkSpool(Fid(fid.majId, fid.minId + 1), Fid(-1, -1));
      disk, live := Above(disk, fid), Above(live, fid);
    }

    /** The part of TR_cache_delete that deletes files. */
    method UnlinkSpool(cutLow: Fid, cutHigh: Fid)
      modifies this`dir
      ensures dir == Unlinked(old(dir), cutLow, cutHigh)
    {
      hide Without, IsSpoolFile;
      var names := Scandir(dir, cutLow, cutHigh);
      var i := 0;
      while i < |names|
        invariant i <= |names| && dir == WithoutAll(old(dir), names[..i])
      {
        assert names[..i + 1][..i] == names[..i];
        dir := Without(dir, names[i].name);
        i := i + 1;
      }
      assert names[..|names|] == names;
      Scanned(old(dir), cutLow, cutHigh);
      UnlinkOneByOne(old(dir), cutLow, cutHigh, names);
    }

    /** TR_cache_update: saves the table when a file in it is too old, then loads files from disk. */
    method Update()
      requires Valid()
      modifies this, ring, ring.cache
      ensures Valid() && Abs() == old(Abs())
      ensures |ring.contents| == |live| || |ring.contents| == ring.cache.Length - 1
      // Files that were in the table stay there, one update nearer to be saved, or all saved; the others come from disk.
      ensures |old(ring.contents)| <= |ring.contents|
      ensures forall k :: |old(ring.contents)| <= k < |ring.contents| ==> ring.contents[k].onDisk
      ensures var n := |old(ring.contents)|;
              if exists k :: 0 <= k < n && old(ring.contents)[k].clock == 1
              then forall k :: 0 <= k < n ==> ring.contents[k].onDisk
              else forall k :: 0 <= k < n ==> ring.contents[k] == Ticked(old(ring.contents)[k])
    {
      hide RingOk, CacheOk, Holds, IsId, Top, MaxOnDisk;
      Tick();
      SameMax(ring.contents, dir, disk, intableMax, ondiskMax, live);
      Fill();
    }

    /** The clocks of the files in the table; the first one that runs out has the table saved. */
    method Tick()
      requires Valid()
      modifies this`dir, this`disk, this`ondiskMax, ring`contents, ring.cache
      ensures Valid() && Newest() == old(Newest()) && |ring.contents| == |old(ring.contents)|
      // When a clock runs out all the table is on disk; otherwise every clock is one nearer to that and nothing else changes.
      ensures if exists k :: 0 <= k < |old(ring.contents)| && old(ring.contents)[k].clock == 1
              then forall k :: 0 <= k < |ring.contents| ==> ring.contents[k].onDisk
              else dir == old(dir) && forall k :: 0 <= k < |ring.contents| ==> ring.contents[k] == Ticked(old(ring.contents)[k])
    {
      hide RingOk, CacheOk, Holds, IsId, Top;
      var index := ring.start;
      ghost var i, table := 0, ring.contents;
      RingAt(ring.cache[..], ring.start, ring.end, ring.firstNew, ring.contents, ring.read, 0);
      while index != ring.end
        invariant Valid() && Newest() == old(Newest()) && |ring.contents| == |table| && dir == old(dir)
        invariant i <= |ring.contents| && index == Around(ring.cache.Length, ring.start, i)
        invariant index == ring.end <==> i == |ring.contents|
        invariant forall k :: 0 <= k < i ==> table[k].clock != 1 && ring.contents[k] == Ticked(table[k])
        invariant forall k :: i <= k < |table| ==> ring.contents[k] == table[k]
        decreases |ring.contents| - i
      {
        var out := TickOne(index, i);
        if out {
          assert table[i].clock == 1;
          Save();
          return;
        }
        RingAt(ring.cache[..], ring.start, ring.end, ring.firstNew, ring.contents, ring.read, i + 1);
        index := ring.IncIndex(index);
        i := i + 1;
      }
    }

    /** The clock of one file, which may run out. */
    method TickOne(index: nat, ghost i: nat) returns (out: bool)
      requires Valid() && i < |ring.contents| && index == Around(ring.cache.Length, ring.start, i)
      modifies ring`contents, ring.cache
      ensures Sound() && Newest() == old(Newest()) && ring.contents == old(ring.contents)[i := Ticked(old(ring.contents)[i])]
      ensures out == (old(ring.contents)[i].clock == 1) && (!out ==> Valid())
    {
      hide RingOk, CacheOk, Holds, IsId, Top;
      RingAt(ring.cache[..], ring.start, ring.end, ring.firstNew, ring.contents, ring.read, i);
      var f := ring.cache[index];
      out := false;
      if f.clock != 0 {
        ClockKeeps(ring.contents, disk, intableMax, ondiskMax, live, i, f.clock - 1);
        ring.Change(i, index, f.(clock := f.clock - 1));
        out := f.clock == 1;
      }
    }

    /** The part of TR_cache_update that reads the directory. */
    method Fill()
      requires Fillable()
      modifies this`intableMax, this`ondiskMax, ring, ring.cache
      ensures Valid() && ring.read == old(ring.read)
      ensures Newest() == old(Top(intableMax, MaxOnDisk(dir, ondiskMax)))
      ensures |ring.contents| == |live| || |ring.contents| == ring.cache.Length - 1
      ensures old(ring.contents) <= ring.contents
      ensures forall k :: |old(ring.contents)| <= k < |ring.contents| ==> ring.contents[k].onDisk
    {
      hide RingOk, CacheOk, Holds, IsId, Top, MaxOnDisk, Scandir, Above;
      var left := ring.SpaceLeft();
      var names := Scandir(dir, Fid(-1, -1), intableMax);
      ondiskMax := MaxOnDisk(dir, ondiskMax);
      ghost var first, top := |ring.contents|, Newest();
      if intableMax != Fid(-1, -1) {
        IdIsPlain(intableMax);
      }
      ScanHolds(dir, disk, intableMax);
      SameLength(names, Above(disk, intableMax));
      AboveIsRest(ring.contents, disk, intableMax, ondiskMax, live);
      LiveFacts(ring.contents, disk, intableMax, ondiskMax, live);
      ghost var rest := Above(disk, intableMax);
      var i := 0;
      while i < |names|
        invariant Valid() && i <= |names| && ring.read == old(ring.read) && Newest() == top
        invariant left == ring.cache.Length - 1 - |ring.contents|
        invariant left > 0 ==> |ring.contents| == first + i
        invariant |ring.contents| <= |live| && old(ring.contents) <= ring.contents
        invariant forall k :: first <= k < |ring.contents| ==> ring.contents[k].onDisk
      {
        if left > 0 {
          EntryAt(names, rest, i);
          var id := ParseName(names[i].name).value;
          LoadKeeps(ring.contents, disk, intableMax, ondiskMax, live, CacheFile(id, names[i].data, true, 0));
          NextIsNewer(ring.contents, disk, intableMax, ondiskMax, live);
          ring.Add(CacheFile(id, names[i].data, true, 0));
          if After(id, intableMax) {
            intableMax := id;
          }
          LiveFacts(ring.contents, disk, intableMax, ondiskMax, live);
          left := left - 1;
        }
        i := i + 1;
      }
    }

    /** TR_cache_close: the directory then holds exactly the live files. */
    method Close()
      requires Valid()
      modifies this`dir, this`disk, this`ondiskMax, ring`contents, ring.cache
      ensures Valid() && Holds(dir, live) && Increasing(live)
    {
      hide RingOk, IsId;
      Save();
      AllSaved(ring.contents, disk, intableMax, ondiskMax, live);
    }
  }

  /** Closing the cache and opening it again keeps every live file, in order; they are all to be read again. */
  method Reopen(c: TransportCache, size: nat) returns (d: TransportCache)
    requires c.Valid() && size > 0
    modifies c, c.ring, c.ring.cache
    ensures d.Valid() && d.live == old(c.live) && d.ring.read == 0
  {
    hide RingOk, CacheOk, Holds, IsId, Increasing;
    c.Close();
    d := new TransportCache(size, c.dir, c.live);
  }

  /** A file that was put in the table is on disk after SAVE_TIMEOUT updates at the latest, with all that came before it. */
  method UpdateOften(c: TransportCache, n: nat)
    requires c.Valid()
    modifies c, c.ring, c.ring.cache
    ensures c.Valid() && c.Abs() == old(c.Abs()) && |old(c.ring.contents)| <= |c.ring.contents|
    ensures forall k :: 0 <= k < |c.ring.contents| ==> c.ring.contents[k].onDisk || c.ring.contents[k].clock + n <= SAVE_TIMEOUT
    ensures n >= SAVE_TIMEOUT ==> forall k :: 0 <= k < |c.ring.contents| ==> c.ring.contents[k].onDisk
  {
    hide RingOk, CacheOk, Holds, IsId, Top, MaxOnDisk;
    for i := 0 to n
      invariant c.Valid() && c.Abs() == old(c.Abs()) && |old(c.ring.contents)| <= |c.ring.contents|
      invariant forall k :: 0 <= k < |c.ring.contents| ==> c.ring.contents[k].onDisk || c.ring.contents[k].clock + i <= SAVE_TIMEOUT
    {
      c.Update();
    }
  }

  lemma IdsAreNew(dir: seq<Entry>, disk: seq<Stored>)
    requires Holds(dir, disk)
    ensures forall i :: 0 <= i < |disk| ==> IsId(disk[i].id) && After(disk[i].id, Fid(-1, -1))
  {
  }

  lemma TopIs(inMax: Fid, onMax: Fid)
    requires After(inMax, onMax)
    ensures Top(inMax, onMax) == inMax
  {
  }

  lemma LiveFacts(table: seq<CacheFile>, disk: seq<Stored>, inMax: Fid, onMax: Fid, live: seq<Stored>)
    requires CacheOk(table, disk, inMax, onMax, live)
    ensures |table| <= |live| && Increasing(live) && forall i :: 0 <= i < |table| ==> StoredOf(table[i]) == live[i]
  {
  }

  lemma ReadInTable(b: seq<CacheFile>, start: nat, end: nat, firstNew: int, contents: seq<CacheFile>, read: nat)
    requires RingOk(b, start, end, firstNew, contents, read)
    ensures read <= |contents|
  {
  }

  lemma SameLength(dir: seq<Entry>, disk: seq<Stored>)
    requires Holds(dir, disk)
    ensures |dir| == |disk|
  {
  }

  lemma EntryAt(dir: seq<Entry>, disk: seq<Stored>, i: nat)
    requires Holds(dir, disk) && i < |dir|
    ensures i < |disk| && IsId(disk[i].id) && ParseName(dir[i].name) == Some(disk[i].id) && dir[i].data == disk[i].data
  {
    hide FileName, ParseName, IsId;
    NameReadBack(disk[i].id);
  }

  lemma NextIsNewer(table: seq<CacheFile>, disk: seq<Stored>, inMax: Fid, onMax: Fid, live: seq<Stored>)
    requires CacheOk(table, disk, inMax, onMax, live) && |table| < |live|
    ensures After(live[|table|].id, inMax)
  {
  }

  /** The largest id on disk is known. */
  lemma SameMax(table: seq<CacheFile>, dir: seq<Entry>, disk: seq<Stored>, inMax: Fid, onMax: Fid, live: seq<Stored>)
    requires CacheOk(table, disk, inMax, onMax, live) && Holds(dir, disk)
    ensures MaxOnDisk(dir, onMax) == onMax
  {
    hide MaxOnDisk, Holds;
    MaxHolds(dir, disk, onMax);
  }

  lemma TableIds(table: seq<CacheFile>, disk: seq<Stored>, inMax: Fid, onMax: Fid, live: seq<Stored>, i: nat)
    requires CacheOk(table, disk, inMax, onMax, live) && i < |table|
    ensures !After(table[i].id, inMax)
  {
    assert StoredOf(table[i]) == live[i];
  }
}
