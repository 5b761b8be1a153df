/** The circular table of src/permanentFIFO.c: a bounded ring of FIFO items. */
module RingTable {

  type Payload = seq<char>

  /** A FIFO item: its id and its data (the size field of the source is |data|). */
  datatype Item = Item(id: nat, data: Payload)

  const EMPTY_ITEM := Item(0, [])

  class CircularTable {
    const items: array<Item>
    var indexFirst: nat
    var nItems: nat

    /** The items in the table, oldest first. */
    ghost var contents: seq<Item>

    /** The array slot of the i-th oldest item. */
    function Slot(i: nat): int
      reads this
    {
      var j := indexFirst + i;
      if j >= items.Length then j - items.Length else j
    }

    ghost predicate Valid()
      reads this, items
    {
      && indexFirst < items.Length && nItems <= items.Length
      && |contents| == nItems
      && forall i :: 0 <= i < nItems ==> contents[i] == items[Slot(i)]
    }

    constructor (size: nat)
      requires size > 0
      ensures Valid() && fresh(items)
      ensures items.Length == size && contents == []
    {
      items := new Item[size](_ => EMPTY_ITEM);
      indexFirst, nItems := 0, 0;
      contents := [];
    }

    /** ct_write: false stands for the -1 of a full table. */
    method Write(item: Item) returns (ok: bool)
      requires Valid()
      modifies this, items
      ensures Valid()
      ensures ok == (|old(contents)| < items.Length)
      ensures contents == if ok then old(contents) + [item] else old(contents)
    {
      if nItems == items.Length {
        return false;
      }
      var indexNew := indexFirst + nItems;
      if indexNew >= items.Length {
        indexNew := indexNew - items.Length;
      }
      nItems := nItems + 1;
      items[indexNew] := item;
      contents := contents + [item];
      ok := true;
    }

    /** ct_read: false stands for the -1 of an empty table. */
    method Read() returns (ok: bool, item: Item)
      requires Valid()
      modifies this, items
      ensures Valid()
      ensures ok == (old(contents) != [])
      ensures if ok then item == old(contents)[0] && contents == old(contents)[1..] else contents == []
    {
      if nItems == 0 {
        return false, EMPTY_ITEM;
      }
      item := items[indexFirst];
      assert item == items[Slot(0)];
      items[indexFirst] := EMPTY_ITEM;
      nItems := nItems - 1;
      indexFirst := indexFirst + 1;
      if indexFirst >= items.Length {
        indexFirst := indexFirst - items.Length;
      }
      contents := contents[1..];
      ok := true;
    }

    /** The loop of permFIFO_ack that removes the items with ids up to `id` from the front. */
    method Release(id: nat) returns (ghost k: nat)
      requires Valid()
      modifies this, items
      ensures Valid()
      ensures k <= |old(contents)| && contents == old(contents)[k..]
      ensures forall i :: 0 <= i < k ==> old(contents)[i].id <= id
      ensures contents != [] ==> contents[0].id > id
    {
      var i := indexFirst;
      k := 0;
      while nItems != 0
        invariant Valid() && i == indexFirst
        invariant k <= |old(contents)| && contents == old(contents)[k..]
        invariant forall j :: 0 <= j < k ==> old(contents)[j].id <= id
      {
        assert items[i] == items[Slot(0)];
        if items[i].id > id {
          break;
        }
        items[i] := EMPTY_ITEM;
        i := i + 1;
        if i >= items.Length {
          i := i - items.Length;
        }
        nItems := nItems - 1;
        indexFirst := i;
        contents, k := contents[1..], k + 1;
      }
    }
  }
}
