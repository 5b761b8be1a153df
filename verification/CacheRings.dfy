/** The circular buffer of src/transport_cache.c: files in memory, of which the first ones were already read. */
module CacheRings {
  import opened CacheNames
  import opened FileIds
  import opened Options

  /** A file of the cache; onDisk stands for a path, clock for the updates left before it is saved. */
  datatype CacheFile = CacheFile(id: Fid, data: seq<char>, onDisk: bool, clock: nat)

  const NO_FILE := CacheFile(Fid(-1, -1), [], false, 0)

  /** Index i places after start, around the end of n places. */
  function Around(n: nat, start: nat, i: nat): int {
    if start + i >= n then start + i - n else start + i
  }

  /** The buffer b holds the contents, of which the first `read` were read. */
  ghost predicate RingOk(b: seq<CacheFile>, start: nat, end: nat, firstNew: int, contents: seq<CacheFile>, read: nat) {
    && start < |b| && end < |b| && |contents| < |b|
    && end == Around(|b|, start, |contents|) && read <= |contents|
    && firstNew == (if read == |contents| then -1 else Around(|b|, start, read))
    && forall i :: 0 <= i < |contents| ==> contents[i] == b[Around(|b|, start, i)]
  }

  lemma InBounds(b: seq<CacheFile>, start: nat, end: nat, firstNew: int, contents: seq<CacheFile>, read: nat)
    requires RingOk(b, start, end, firstNew, contents, read)
    ensures start < |b| && end < |b| && -1 <= firstNew < |b|
  {
  }

  lemma RingAt(b: seq<CacheFile>, start: nat, end: nat, firstNew: int, contents: seq<CacheFile>, read: nat, i: nat)
    requires RingOk(b, start, end, firstNew, contents, read) && i <= |contents|
    ensures |contents| < |b| && 0 <= Around(|b|, start, i) < |b| && Around(|b|, start, 0) == start
    ensures Around(|b|, start, i) == end <==> i == |contents|
    ensures i < |contents| ==> contents[i] == b[Around(|b|, start, i)]
  {
  }

  lemma FirstDropped(b: seq<CacheFile>, start: nat, end: nat, firstNew: int, contents: seq<CacheFile>, read: nat)
    requires RingOk(b, start, end, firstNew, contents, read) && contents != []
    ensures var next := Around(|b|, start, 1);
            RingOk(b[start := NO_FILE], next, end, if start == firstNew then (if next == end then -1 else next) else firstNew,
                   contents[1..], if read == 0 then 0 else read - 1)
  {
    var next := Around(|b|, start, 1);
    forall i | 0 <= i < |contents| - 1
      ensures contents[1..][i] == b[start := NO_FILE][Around(|b|, next, i)]
    {
      assert Around(|b|, next, i) == Around(|b|, start, i + 1) != start;
    }
  }

  class CacheRing {
    const cache: array<CacheFile>
    var start: nat
    var end: nat
    var firstNew: int

    /** The files, and how many of them were read. */
    ghost var contents: seq<CacheFile>
    ghost var read: nat

    ghost predicate Valid()
      reads this, cache
    {
      RingOk(cache[..], start, end, firstNew, contents, read)
    }

    constructor (size: nat)
      requires size > 0
      ensures Valid() && fresh(cache) && cache.Length == size && contents == [] && read == 0
    {
      cache := new CacheFile[size](_ => NO_FILE);
      start, end, firstNew, contents, read := 0, 0, -1, [], 0;
    }

    /** inc_cache_index */
    method IncIndex(index: nat) returns (next: nat)
      requires index < cache.Length
      ensures next == if index + 1 == cache.Length then 0 else index + 1
    {
      next := index + 1;
      if next >= cache.Length {
        next := 0;
      }
    }

    /** TR_cache_space_left */
    method SpaceLeft() returns (left: nat)
      requires Valid()
      ensures left == cache.Length - |contents| - 1
    {
      if start <= end {
        left := cache.Length - (end - start) - 1;
      } else {
        left := start - end - 1;
      }
    }

    /** A new file at the end. */
    method Add(f: CacheFile)
      requires Valid() && |contents| + 1 < cache.Length
      modifies this, cache
      ensures Valid() && contents == old(contents) + [f] && read == old(read)
    {
      cache[end] := f;
      if firstNew == -1 {
        firstNew := end;
      }
      end := IncIndex(end);
      contents := contents + [f];
    }

    /** TR_cache_get_next */
    method Next() returns (f: Option<CacheFile>)
      requires Valid()
      modifies this
      ensures Valid() && contents == old(contents)
      ensures if old(read) == |contents| then f == None && read == old(read)
              else f == Some(contents[old(read)]) && read == old(read) + 1
    {
      if firstNew == -1 {
        return None;
      }
      f := Some(cache[firstNew]);
      firstNew := IncIndex(firstNew);
      read := read + 1;
      if firstNew == end {
        firstNew := -1;
      }
    }

    /** The first file leaves, read or not. */
    method DropFirst()
      requires Valid() && contents != []
      modifies this, cache
      ensures Valid() && contents == old(contents)[1..] && read == if old(read) == 0 then 0 else old(read) - 1
    {
      hide RingOk;
      InBounds(cache[..], start, end, firstNew, contents, read);
      FirstDropped(cache[..], start, end, firstNew, contents, read);
      ghost var b := cache[..];
      cache[start] := NO_FILE;
      assert cache[..] == b[start := NO_FILE];
      if start == firstNew {
        firstNew := IncIndex(firstNew);
        if firstNew == end {
          firstNew := -1;
        }
      }
      start := IncIndex(start);
      contents, read := contents[1..], if read == 0 then 0 else read - 1;
    }

    /** The file at position i changes. */
    method Change(ghost i: nat, index: nat, f: CacheFile)
      requires Valid() && i < |contents| && index == Around(cache.Length, start, i)
      modifies this`contents, cache
      ensures Valid() && contents == old(contents)[i := f]
    {
      cache[index] := f;
      contents := contents[i := f];
    }
  }
}
