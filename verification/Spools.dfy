/** The files of src/transport_cache.c in memory and on disk, as values: which states are possible, and what writing,
    loading and deleting files does to them. */
module Spools {
  import opened CacheNames
  import opened FileIds
  import opened CacheRings

  datatype Stored = Stored(id: Fid, data: seq<char>)

  function StoredOf(f: CacheFile): Stored {
    Stored(f.id, f.data)
  }

  predicate Increasing(s: seq<Stored>) {
    forall i, j :: 0 <= i < j < |s| ==> After(s[j].id, s[i].id)
  }

  /** The table holds the first live files, with ids up to inMax. */
  ghost predicate TableOk(table: seq<CacheFile>, disk: seq<Stored>, inMax: Fid, live: seq<Stored>) {
    && |table| <= |live|
    && (forall i :: 0 <= i < |table| ==> StoredOf(table[i]) == live[i] && !After(live[i].id, inMax))
    && forall i :: 0 <= i < |table| && table[i].onDisk ==> live[i] in disk
  }

  /** The other live files are on disk. */
  ghost predicate PendingOk(n: nat, disk: seq<Stored>, inMax: Fid, live: seq<Stored>) {
    forall i :: n <= i < |live| ==> After(live[i].id, inMax) && live[i] in disk
  }

  /** Everything on disk is live and has an id up to onMax. */
  ghost predicate DiskOk(disk: seq<Stored>, onMax: Fid, live: seq<Stored>) {
    forall x :: x in disk ==> x in live && !After(x.id, onMax) && IsId(x.id)
  }

  ghost predicate CacheOk(table: seq<CacheFile>, disk: seq<Stored>, inMax: Fid, onMax: Fid, live: seq<Stored>) {
    && Increasing(live) && Increasing(disk)
    && TableOk(table, disk, inMax, live) && PendingOk(|table|, disk, inMax, live) && DiskOk(disk, onMax, live)
  }

  /** The largest id the cache ever had. */
  function Top(inMax: Fid, onMax: Fid): Fid {
    if After(onMax, inMax) then onMax else inMax
  }

  lemma AllBelowTop(table: seq<CacheFile>, disk: seq<Stored>, inMax: Fid, onMax: Fid, live: seq<Stored>, x: Stored)
    requires CacheOk(table, disk, inMax, onMax, live) && x in live
    ensures !After(x.id, Top(inMax, onMax))
  {
  }

  lemma NewerThanAll(inMax: Fid, onMax: Fid, id: Fid)
    ensures After(id, Top(inMax, onMax)) <==> After(id, inMax) && After(id, onMax)
  {
  }

  // Writing a file.

  /** The disk with one more file, or with that file replaced, in the order of the names. */
  function Put(disk: seq<Stored>, s: Stored): seq<Stored> {
    if disk == [] then [s]
    else if disk[0].id == s.id then [s] + disk[1..]
    else if After(disk[0].id, s.id) then [s] + disk
    else [disk[0]] + Put(disk[1..], s)
  }

  lemma {:induction false} PutKeeps(disk: seq<Stored>, s: Stored)
    requires Increasing(disk)
    ensures Increasing(Put(disk, s))
    ensures forall x :: x in Put(disk, s) <==> x == s || (x in disk && x.id != s.id)
    decreases |disk|
  {
    if disk != [] {
      assert forall x :: x in disk <==> x == disk[0] || x in disk[1..];
      assert forall x :: x in disk[1..] ==> After(x.id, disk[0].id);
      if disk[0].id != s.id && !After(disk[0].id, s.id) {
        PutKeeps(disk[1..], s);
        ConsKeeps(disk[0], Put(disk[1..], s));
      }
    }
  }

  lemma ConsKeeps(x: Stored, s: seq<Stored>)
    requires Increasing(s) && forall y :: y in s ==> After(y.id, x.id)
    ensures Increasing([x] + s) && forall y :: y in [x] + s <==> y == x || y in s
  {
  }

  /** A live file is written, from the table or not. */
  lemma WriteKeeps(table: seq<CacheFile>, disk: seq<Stored>, inMax: Fid, onMax: Fid, live: seq<Stored>, i: nat,
      newTable: seq<CacheFile>)
    requires CacheOk(table, disk, inMax, onMax, live) && i < |table| && IsId(table[i].id)
    requires |newTable| == |table| && StoredOf(newTable[i]) == StoredOf(table[i])
    requires forall k :: 0 <= k < |table| && k != i ==> newTable[k] == table[k]
    ensures CacheOk(newTable, Put(disk, StoredOf(table[i])), inMax, Top(onMax, table[i].id), live)
  {
    hide Put;
    PutKeeps(disk, live[i]);
    assert forall x :: x in live && x.id == live[i].id ==> x == live[i];
  }

  /** A new file that goes to disk only. */
  lemma AppendDisk(table: seq<CacheFile>, disk: seq<Stored>, inMax: Fid, onMax: Fid, live: seq<Stored>, s: Stored)
    requires CacheOk(table, disk, inMax, onMax, live) && IsId(s.id) && After(s.id, inMax) && After(s.id, onMax)
    ensures CacheOk(table, Put(disk, s), inMax, s.id, live + [s])
  {
    hide Put;
    PutKeeps(disk, s);
    forall x | x in live ensures After(s.id, x.id) {
      AllBelowTop(table, disk, inMax, onMax, live, x);
    }
  }

  lemma PendingIsOnDisk(table: seq<CacheFile>, disk: seq<Stored>, inMax: Fid, onMax: Fid, live: seq<Stored>)
    requires CacheOk(table, disk, inMax, onMax, live) && |table| < |live|
    ensures After(onMax, inMax)
  {
    assert live[|table|] in disk;
  }

  /** A new file that goes to the table: nothing is pending on disk. */
  lemma AppendTable(table: seq<CacheFile>, disk: seq<Stored>, inMax: Fid, onMax: Fid, live: seq<Stored>, f: CacheFile)
    requires CacheOk(table, disk, inMax, onMax, live) && !f.onDisk
    requires After(f.id, inMax) && After(f.id, onMax) && !After(onMax, inMax)
    ensures CacheOk(table + [f], disk, f.id, onMax, live + [StoredOf(f)])
  {
    forall x | x in live ensures After(f.id, x.id) {
      AllBelowTop(table, disk, inMax, onMax, live, x);
    }
    if |table| < |live| {
      PendingIsOnDisk(table, disk, inMax, onMax, live);
    }
  }

  // Loading files.

  /** The files above an id. */
  function Above(disk: seq<Stored>, low: Fid): seq<Stored> {
    if disk == [] then []
    else if After(disk[0].id, low) then [disk[0]] + Above(disk[1..], low)
    else Above(disk[1..], low)
  }

  lemma {:induction false} AboveKeeps(disk: seq<Stored>, low: Fid)
    requires Increasing(disk)
    ensures Increasing(Above(disk, low))
    ensures forall x :: x in Above(disk, low) <==> x in disk && After(x.id, low)
    decreases |disk|
  {
    if disk != [] {
      AboveKeeps(disk[1..], low);
      assert forall x :: x in disk <==> x == disk[0] || x in disk[1..];
      if After(disk[0].id, low) {
        assert forall x :: x in disk[1..] ==> After(x.id, disk[0].id);
        ConsKeeps(disk[0], Above(disk[1..], low));
      }
    }
  }

  /** Files in increasing order are determined by their set. */
  lemma {:induction false} SameFiles(s: seq<Stored>, t: seq<Stored>)
    requires Increasing(s) && Increasing(t) && forall x :: x in s <==> x in t
    ensures s == t
    decreases |s|
  {
    assert t == [] || t[0] in t;
    if s != [] {
      assert s[0] in t && t != [] && t[0] in s;
      assert s[0] == t[0];
      forall x ensures x in s[1..] <==> x in t[1..] {
        if x in s[1..] {
          assert x in s && x.id != s[0].id;
        }
        if x in t[1..] {
          assert x in t && x.id != t[0].id;
        }
      }
      SameFiles(s[1..], t[1..]);
    }
  }

  /** The files on disk above the table are the live files that are not in the table. */
  lemma AboveIsRest(table: seq<CacheFile>, disk: seq<Stored>, inMax: Fid, onMax: Fid, live: seq<Stored>)
    requires CacheOk(table, disk, inMax, onMax, live)
    ensures Above(disk, inMax) == live[|table|..]
  {
    AboveKeeps(disk, inMax);
    var rest := live[|table|..];
    forall x ensures x in Above(disk, inMax) <==> x in rest {
      if x in disk && After(x.id, inMax) {
        var i :| 0 <= i < |live| && live[i] == x;
        assert i >= |table| && rest[i - |table|] == x;
      }
    }
    SameFiles(Above(disk, inMax), rest);
  }

  /** The next file from disk joins the table. */
  lemma LoadKeeps(table: seq<CacheFile>, disk: seq<Stored>, inMax: Fid, onMax: Fid, live: seq<Stored>, f: CacheFile)
    requires CacheOk(table, disk, inMax, onMax, live) && |table| < |live| && StoredOf(f) == live[|table|]
    ensures CacheOk(table + [f], disk, f.id, onMax, live) && Top(f.id, onMax) == Top(inMax, onMax)
  {
    forall i | 0 <= i < |table| ensures !After(live[i].id, f.id) {
      assert After(live[|table|].id, live[i].id);
    }
  }

  /** Everything in the table is on disk: then the disk holds all the live files. */
  lemma AllSaved(table: seq<CacheFile>, disk: seq<Stored>, inMax: Fid, onMax: Fid, live: seq<Stored>)
    requires CacheOk(table, disk, inMax, onMax, live) && forall i :: 0 <= i < |table| ==> table[i].onDisk
    ensures disk == live
  {
    forall x ensures x in disk <==> x in live {
      if x in live {
        var i :| 0 <= i < |live| && live[i] == x;
        assert live[i] in disk;
      }
    }
    SameFiles(disk, live);
  }

  /** A file of the table changes its clock. */
  lemma ClockKeeps(table: seq<CacheFile>, disk: seq<Stored>, inMax: Fid, onMax: Fid, live: seq<Stored>, i: nat, clock: nat)
    requires CacheOk(table, disk, inMax, onMax, live) && i < |table|
    ensures CacheOk(table[i := table[i].(clock := clock)], disk, inMax, onMax, live)
  {
  }

  // Deleting files.

  lemma DropTable(table: seq<CacheFile>, disk: seq<Stored>, inMax: Fid, live: seq<Stored>, fid: Fid, k: nat, n: nat)
    requires TableOk(table, disk, inMax, live) && k <= |live| && n == (if k < |table| then k else |table|)
    requires Increasing(disk) && forall i :: k <= i < |live| ==> After(live[i].id, fid)
    ensures TableOk(table[n..], Above(disk, fid), inMax, live[k..])
  {
    hide Above;
    AboveKeeps(disk, fid);
    forall i | 0 <= i < |table[n..]|
      ensures table[n..][i] == table[k + i] && live[k..][i] == live[k + i]
    {
    }
  }

  lemma DropPending(m: nat, disk: seq<Stored>, inMax: Fid, live: seq<Stored>, fid: Fid, k: nat)
    requires PendingOk(m, disk, inMax, live) && k <= |live|
    requires Increasing(disk) && forall i :: k <= i < |live| ==> After(live[i].id, fid)
    ensures PendingOk(if k < m then m - k else 0, Above(disk, fid), inMax, live[k..])
  {
    hide Above;
    AboveKeeps(disk, fid);
    assert forall i :: 0 <= i < |live[k..]| ==> live[k..][i] == live[k + i];
  }

  lemma DropDisk(disk: seq<Stored>, onMax: Fid, live: seq<Stored>, fid: Fid, k: nat)
    requires DiskOk(disk, onMax, live) && k <= |live| && Increasing(disk)
    requires forall i :: 0 <= i < k ==> !After(live[i].id, fid)
    ensures DiskOk(Above(disk, fid), onMax, live[k..])
  {
    hide Above, IsId;
    AboveKeeps(disk, fid);
    forall x | x in Above(disk, fid) ensures x in live[k..] {
      var i :| 0 <= i < |live| && live[i] == x;
      assert live[k..][i - k] == x;
    }
  }

  /** The first k live files are deleted, of which n were in the table. */
  lemma DropKeeps(table: seq<CacheFile>, disk: seq<Stored>, inMax: Fid, onMax: Fid, live: seq<Stored>, fid: Fid, k: nat,
      n: nat)
    requires CacheOk(table, disk, inMax, onMax, live) && k <= |live| && n == (if k < |table| then k else |table|)
    requires forall i :: 0 <= i < k ==> !After(live[i].id, fid)
    requires forall i :: k <= i < |live| ==> After(live[i].id, fid)
    ensures CacheOk(table[n..], Above(disk, fid), inMax, onMax, live[k..])
  {
    hide Above, TableOk, PendingOk, DiskOk;
    AboveKeeps(disk, fid);
    DropTable(table, disk, inMax, live, fid, k, n);
    DropPending(|table|, disk, inMax, live, fid, k);
    DropDisk(disk, onMax, live, fid, k);
    assert forall i :: 0 <= i < |live[k..]| ==> live[k..][i] == live[k + i];
  }

  /** The table's part of the deleted files. */
  lemma DropCount(table: seq<CacheFile>, live: seq<Stored>, fid: Fid, k: nat, n: nat)
    requires |table| <= |live| && forall i :: 0 <= i < |table| ==> StoredOf(table[i]) == live[i]
    requires k <= |live| && n <= |table|
    requires forall i :: 0 <= i < k ==> !After(live[i].id, fid)
    requires forall i :: k <= i < |live| ==> After(live[i].id, fid)
    requires forall i :: 0 <= i < n ==> !After(table[i].id, fid)
    requires n < |table| ==> After(table[n].id, fid)
    ensures n == if k < |table| then k else |table|
  {
    if n < |table| {
      assert StoredOf(table[n]) == live[n];
    }
    if n > 0 {
      assert StoredOf(table[n - 1]) == live[n - 1];
    }
  }

  /** What is above an id is the end of the live files. */
  lemma {:induction false} AboveIsSuffix(s: seq<Stored>, low: Fid) returns (k: nat)
    requires Increasing(s)
    ensures k <= |s| && Above(s, low) == s[k..]
    ensures forall i :: 0 <= i < k ==> !After(s[i].id, low)
    ensures forall i :: k <= i < |s| ==> After(s[i].id, low)
    decreases |s|
  {
    if s == [] {
      k := 0;
    } else if After(s[0].id, low) {
      AboveKeeps(s, low);
      SameFiles(Above(s, low), s);
      k := 0;
    } else {
      k := AboveIsSuffix(s[1..], low);
      k := k + 1;
    }
  }
}
