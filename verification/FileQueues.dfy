/** struct FIFO and struct ptFIFO of src/utility.c: a ring of size+1 places, one of which stays free.
    The two have the same index arithmetic; the locking and waiting of ptFIFO is left to the caller. */
module FileQueues {
  import opened Options

  class FileQueue<T(0)> {
    const size: nat
    const data: array<T>
    const filler: T // stands for the null pointer
    var indexStart: nat
    var indexEnd: nat
    ghost var contents: seq<T>

    ghost function Slot(i: nat): int
      reads this
    {
      if indexStart + i > size then indexStart + i - size - 1 else indexStart + i
    }

    ghost predicate Valid()
      reads this, data
    {
      && data.Length == size + 1
      && indexStart <= size && indexEnd <= size
      && |contents| <= size && indexEnd == Slot(|contents|)
      && forall i :: 0 <= i < |contents| ==> contents[i] == data[Slot(i)]
    }

    constructor (size: nat, filler: T)
      ensures Valid() && fresh(data) && this.size == size && contents == []
    {
      this.size, this.filler := size, filler;
      data := new T[size + 1](_ => filler);
      indexStart, indexEnd, contents := 0, 0, [];
    }

    /** FIFO_read: None for an empty queue. */
    method Read() returns (r: Option<T>)
      requires Valid()
      modifies this, data
      ensures Valid()
      ensures if old(contents) == [] then r == None && contents == []
              else r == Some(old(contents)[0]) && contents == old(contents)[1..]
    {
      if indexStart == indexEnd {
        return None;
      }
      assert data[indexStart] == data[Slot(0)];
      r := Some(data[indexStart]);
      data[indexStart] := filler;
      indexStart := indexStart + 1;
      if indexStart > size {
        indexStart := 0;
      }
      contents := contents[1..];
    }

    /** FIFO_write: false stands for the -1 of a full queue. */
    method Write(item: T) returns (ok: bool)
      requires Valid()
      modifies this, data
      ensures Valid() && ok == (|old(contents)| < size)
      ensures contents == if ok then old(contents) + [item] else old(contents)
    {
      var newIndexEnd := indexEnd + 1;
      if newIndexEnd > size {
        newIndexEnd := 0;
      }
      if newIndexEnd == indexStart {
        return false;
      }
      data[indexEnd] := item;
      indexEnd := newIndexEnd;
      contents := contents + [item];
      ok := true;
    }

    /** FIFO_is_full */
    method IsFull() returns (full: bool)
      requires Valid()
      ensures full == (|contents| == size)
    {
      var newIndexEnd := indexEnd + 1;
      if newIndexEnd > size {
        newIndexEnd := 0;
      }
      full := newIndexEnd == indexStart;
    }

    /** FIFO_get_space_left */
    method SpaceLeft() returns (left: int)
      requires Valid()
      ensures left == size - |contents|
    {
      var su := indexEnd - indexStart;
      if indexEnd < indexStart {
        su := su + size + 1;
      }
      left := size - su;
    }

    /** FIFO_read_index: the item at a position, without removing it. */
    method ReadIndex(index: int) returns (r: Option<T>)
      requires Valid()
      ensures r == if 0 <= index < |contents| then Some(contents[index]) else None
    {
      var j, i := indexStart, 0;
      while i <= index
        invariant 0 <= i <= |contents| && j == Slot(i)
        invariant index >= 0 ==> i <= index
        decreases index - i
      {
        if j == indexEnd {
          return None;
        }
        if i == index {
          return Some(data[j]);
        }
        j := j + 1;
        if j > size {
          j := 0;
        }
        i := i + 1;
      }
      r := None;
    }
  }
}
