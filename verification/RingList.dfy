/** RDI_List (include/RDIList.h): a double-ended queue in a ring of slots that grows up to a
    maximum, with removal at a cursor by shifting whichever side of it is shorter.  Proved to be a
    sequence under every operation, wherever the ring wraps. */
module RingList {
  import opened BitAnd
  import opened Sequences

  // The slot of the i-th item of a ring of `size` slots that starts at `head`.
  function Slot(head: nat, i: nat, size: nat): nat {
    if head + i < size then head + i else if head + i < 2 * size then head + i - size else 0
  }

  // The item a slot holds, counted from the head.
  function ItemOf(head: nat, slot: nat, size: nat): (i: nat)
    requires head < size && slot < size
    ensures i < size && Slot(head, i, size) == slot
  {
    if slot >= head then slot - head else slot + size - head
  }

  lemma ModLess(x: nat, size: nat)
    requires 0 < size <= x
    ensures x % size == (x - size) % size
  {
    var q, r := (x - size) / size, (x - size) % size;
    assert (q + 1) * size == q * size + size;
    DivModUnique(x, size, q + 1, r);
  }

  // The remainder, by the subtractions it stands for; ring arithmetic needs one at most.
  function Mod(x: nat, size: nat): (r: nat)
    requires size > 0
    ensures r == x % size < size
    ensures x < size ==> r == x
    ensures size <= x < 2 * size ==> r == x - size
  {
    if x < size then
      DivModUnique(x, size, 0, x);
      x
    else
      ModLess(x, size);
      Mod(x - size, size)
  }

  // Going on or back from the slot of item k by i items.
  lemma SlotAfter(head: nat, k: nat, i: nat, size: nat)
    requires head < size && k + i < size
    ensures (Slot(head, k, size) + i) % size == Mod(Slot(head, k, size) + i, size) == Slot(head, k + i, size)
  {
  }

  lemma SlotBefore(head: nat, k: nat, i: nat, size: nat)
    requires head < size && i <= k < size
    ensures (Slot(head, k, size) + size - i) % size == Mod(Slot(head, k, size) + size - i, size)
            == Slot(head, k - i, size)
  {
  }

  class List<T(0)> {
    const blank: T  // ListEntry()
    var numItems: nat
    var currSize: nat
    var incrSize: nat
    var maxmSize: nat
    var listHead: nat
    var listTail: int
    var entry: array<T>

    ghost var contents: seq<T>

    // The ring but for the ends of an empty one.
    ghost predicate Slots()
      reads this, entry
    {
      && entry.Length == currSize && |contents| == numItems <= currSize
      && (numItems > 0 ==> listHead < currSize && listTail == Slot(listHead, numItems - 1, currSize))
      && forall i :: 0 <= i < numItems ==> entry[Slot(listHead, i, currSize)] == contents[i]
    }

    ghost predicate Valid()
      reads this, entry
    {
      Slots() && (currSize > 0 ==> listHead < currSize && 0 <= listTail < currSize)
    }

    // What an insert into a full ring must find so as not to write outside the buffer: a maximum that
    // is not below the capacity, and some capacity or increment.
    ghost predicate InBounds()
      reads this
    {
      (maxmSize == 0 || currSize <= maxmSize) && (currSize > 0 || incrSize > 0)
    }

    // A full ring that cannot grow though it is below its maximum: it has no increment.
    ghost predicate Stuck()
      reads this
    {
      numItems == currSize && incrSize == 0 && currSize != maxmSize
    }

    constructor (initSize: nat, incr: nat, maxm: nat, blank: T)
      ensures Valid() && fresh(entry) && contents == []
      ensures currSize == (if maxm > 0 && initSize > maxm then maxm else initSize)
      ensures incrSize == incr && maxmSize == maxm
    {
      this.blank := blank;
      var size := if maxm != 0 && initSize > maxm then maxm else initSize;
      numItems, currSize, incrSize, maxmSize := 0, size, incr, maxm;
      listHead, listTail := 0, 0;
      entry := new T[size];
      contents := [];
    }

    // The copy has the same ring, slot for slot, and shares nothing with the original.
    constructor Copy(list: List<T>)
      requires list.Valid()
      ensures Valid() && fresh(entry) && contents == list.contents
      ensures currSize == list.currSize && incrSize == list.incrSize && maxmSize == list.maxmSize
      ensures listHead == list.listHead && listTail == list.listTail
    {
      blank := list.blank;
      numItems, currSize, incrSize, maxmSize := list.numItems, list.currSize, list.incrSize, list.maxmSize;
      listHead, listTail := list.listHead, list.listTail;
      contents := list.contents;
      var e := new T[list.currSize];
      var i: nat := list.listHead;
      while i < list.listHead + list.numItems
        invariant list.listHead <= i <= list.listHead + list.numItems
        invariant forall j :: 0 <= j < i - list.listHead ==>
          e[Slot(list.listHead, j, list.currSize)] == list.contents[j]
      {
        e[Mod(i, list.currSize)] := list.entry[Mod(i, list.currSize)];
        i := i + 1;
      }
      entry := e;
    }

    // A ring with the items from its first slot on, larger if there is an increment; -1 at the maximum.
    method Resize() returns (rc: int)
      requires Valid() && numItems == currSize && InBounds()
      modifies this
      ensures Slots() && (numItems > 0 ==> Valid())
      ensures incrSize == old(incrSize) && maxmSize == old(maxmSize)
      ensures contents == old(contents) && numItems == old(numItems)
      ensures rc == -1 || rc == 0
      ensures rc == -1 <==> maxmSize != 0 && |contents| == maxmSize
      ensures rc == -1 ==> entry == old(entry) && currSize == old(currSize)
      ensures rc == 0 ==> fresh(entry) && old(currSize) <= currSize && (maxmSize == 0 || currSize <= maxmSize)
      ensures rc == 0 ==> (currSize == old(currSize) <==> incrSize == 0)
      ensures rc == 0 ==> currSize == old(currSize) + incrSize || (currSize == maxmSize < old(currSize) + incrSize)
      ensures rc == 0 ==> listHead == 0 && listTail == numItems - 1
    {
      var newSize := currSize + incrSize;
      if maxmSize != 0 && currSize == maxmSize {
        return -1;
      }
      if maxmSize != 0 && newSize > maxmSize {
        newSize := maxmSize;
      }
      var tmpBuff := new T[newSize];
      for i := 0 to numItems
        modifies tmpBuff
        invariant forall j :: 0 <= j < i ==> tmpBuff[j] == contents[j]
      {
        tmpBuff[i] := entry[Mod(listHead + i, currSize)];
      }
      currSize := newSize;
      listHead := 0;
      listTail := numItems - 1;  // -1 for an empty ring, where the original wraps; an insert resets it
      entry := tmpBuff;
      return 0;
    }

    method PutHead(e: T)
      requires Slots() && currSize > 0
      modifies `listHead, `listTail, `numItems, `contents, entry
      ensures Valid() <==> old(numItems) < currSize
      ensures old(numItems) < currSize ==> contents == [e] + old(contents)
      ensures old(numItems) == currSize && old(listHead) == 0 ==>
        numItems == currSize + 1 && listHead == listTail < entry.Length && entry[listHead] == e
    {
      if numItems == 0 {
        listHead, listTail := 0, 0;
      } else {
        listHead := if listHead == 0 then currSize - 1 else listHead - 1;
      }
      entry[listHead] := e;
      numItems := numItems + 1;
      contents := [e] + contents;
    }

    // Insert at the head.  The ring stays a ring exactly if it is not stuck; otherwise the last item is lost
    // and the count goes past the capacity.
    method InsertHead(e: T) returns (rc: int)
      requires Valid() && (numItems == currSize ==> InBounds())
      modifies this, entry
      ensures Valid() <==> !old(Stuck())
      ensures (entry == old(entry) || fresh(entry)) && incrSize == old(incrSize) && maxmSize == old(maxmSize)
      ensures rc == -1 <==> maxmSize != 0 && old(|contents| == currSize == maxmSize)
      ensures rc == 0 || (rc == -1 && currSize == old(currSize))
      ensures !old(Stuck()) ==> contents == if rc == 0 then [e] + old(contents) else old(contents)
      ensures old(Stuck()) ==> numItems == currSize + 1 && listHead == listTail < entry.Length && entry[listHead] == e
      ensures currSize == old(currSize) || (currSize > old(currSize) && (maxmSize == 0 || currSize <= maxmSize))
    {
      if numItems == currSize {
        rc := Resize();
        if rc == -1 {
          return -1;
        }
      }
      PutHead(e);
      return 0;
    }

    method PutTail(e: T)
      requires Slots() && currSize > 0
      modifies `listHead, `listTail, `numItems, `contents, entry
      ensures Valid() <==> old(numItems) < currSize
      ensures old(numItems) < currSize ==> contents == old(contents) + [e]
      ensures old(numItems) == currSize && old(listHead) == 0 ==>
        numItems == currSize + 1 && listHead == listTail < entry.Length && entry[listHead] == e
    {
      if numItems == 0 {
        listHead, listTail := 0, 0;
      } else {
        listTail := if listTail == currSize - 1 then 0 else listTail + 1;
      }
      entry[listTail] := e;
      numItems := numItems + 1;
      contents := contents + [e];
    }

    // Insert at the tail.  The ring stays a ring exactly if it is not stuck; otherwise the first item is lost
    // and the count goes past the capacity.
    method InsertTail(e: T) returns (rc: int)
      requires Valid() && (numItems == currSize ==> InBounds())
      modifies this, entry
      ensures Valid() <==> !old(Stuck())
      ensures (entry == old(entry) || fresh(entry)) && incrSize == old(incrSize) && maxmSize == old(maxmSize)
      ensures rc == -1 <==> maxmSize != 0 && old(|contents| == currSize == maxmSize)
      ensures rc == 0 || (rc == -1 && currSize == old(currSize))
      ensures !old(Stuck()) ==> contents == if rc == 0 then old(contents) + [e] else old(contents)
      ensures old(Stuck()) ==> numItems == currSize + 1 && listHead == listTail < entry.Length && entry[listHead] == e
      ensures currSize == old(currSize) || (currSize > old(currSize) && (maxmSize == 0 || currSize <= maxmSize))
    {
      if numItems == currSize {
        rc := Resize();
        if rc == -1 {
          return -1;
        }
      }
      PutTail(e);
      return 0;
    }

    method RemoveHead()
      requires Valid()
      modifies this
      ensures Valid() && entry == old(entry) && currSize == old(currSize)
      ensures incrSize == old(incrSize) && maxmSize == old(maxmSize)
      ensures contents == if old(contents) == [] then [] else old(contents)[1..]
    {
      if numItems == 0 {
        return;
      }
      listHead := if listHead == currSize - 1 then 0 else listHead + 1;
      numItems := numItems - 1;
      contents := contents[1..];
    }

    method RemoveTail()
      requires Valid()
      modifies this
      ensures Valid() && entry == old(entry) && currSize == old(currSize)
      ensures incrSize == old(incrSize) && maxmSize == old(maxmSize)
      ensures contents == if old(contents) == [] then [] else old(contents)[..|old(contents)| - 1]
    {
      if numItems == 0 {
        return;
      }
      listTail := if listTail == 0 then currSize - 1 else listTail - 1;
      numItems := numItems - 1;
      contents := contents[..numItems];
    }

    method GetHead() returns (e: T)
      requires Valid()
      ensures e == if contents == [] then blank else contents[0]
    {
      if numItems == 0 {
        return blank;
      }
      return entry[listHead];
    }

    method GetTail() returns (e: T)
      requires Valid()
      ensures e == if contents == [] then blank else contents[|contents| - 1]
    {
      if numItems == 0 {
        return blank;
      }
      return entry[listTail];
    }

    method Drain()
      requires Valid()
      modifies this
      ensures Valid() && entry == old(entry) && contents == [] && currSize == old(currSize)
      ensures incrSize == old(incrSize) && maxmSize == old(maxmSize)
    {
      numItems, listHead, listTail := 0, 0, 0;
      contents := [];
    }

    method SetMaxSize(size: nat)
      requires Valid()
      modifies `maxmSize
      ensures Valid() && maxmSize == size
    {
      maxmSize := size;
    }

    method SetIncSize(size: nat)
      requires Valid()
      modifies `incrSize
      ensures Valid() && incrSize == size
    {
      incrSize := size;
    }

    // ---------------------------------------------------------------- //
    // Cursors: a slot of the ring

    ghost predicate Live(indx: nat)
      reads this
    {
      numItems > 0 && listHead < currSize && indx < currSize && ItemOf(listHead, indx, currSize) < numItems
    }

    function NextIndex(indx: nat): (r: nat)
      requires Valid() && Live(indx)
      reads this, entry
      ensures Live(r)
      ensures var k := ItemOf(listHead, indx, currSize);
        ItemOf(listHead, r, currSize) == if k + 1 == numItems then 0 else k + 1
    {
      if indx == listTail then listHead else Mod(indx + 1, currSize)
    }

    function PrevIndex(indx: nat): (r: nat)
      requires Valid() && Live(indx)
      reads this, entry
      ensures Live(r)
      ensures var k := ItemOf(listHead, indx, currSize);
        ItemOf(listHead, r, currSize) == if k == 0 then numItems - 1 else k - 1
    {
      if indx == listHead then listTail else if indx != 0 then indx - 1 else currSize - 1
    }

    lemma NextPrevInverse(indx: nat)
      requires Valid() && Live(indx)
      ensures PrevIndex(NextIndex(indx)) == indx && NextIndex(PrevIndex(indx)) == indx
    {
      assert Slot(listHead, ItemOf(listHead, PrevIndex(NextIndex(indx)), currSize), currSize)
             == Slot(listHead, ItemOf(listHead, indx, currSize), currSize);
      assert Slot(listHead, ItemOf(listHead, NextIndex(PrevIndex(indx)), currSize), currSize)
             == Slot(listHead, ItemOf(listHead, indx, currSize), currSize);
    }

    // The forward scan a cursor is for: from the head by next_index, as often as there are items.
    method ScanForward() returns (seen: seq<T>)
      requires Valid()
      ensures seen == contents
    {
      seen := [];
      var indx: nat := listHead;
      for i := 0 to numItems
        invariant i < numItems ==> Live(indx) && ItemOf(listHead, indx, currSize) == i
        invariant seen == contents[..i]
      {
        seen := seen + [entry[indx]];
        if i + 1 < numItems {
          indx := NextIndex(indx);
        }
      }
    }

    method ScanBackward() returns (seen: seq<T>)
      requires Valid()
      ensures |seen| == |contents| && forall i :: 0 <= i < |seen| ==> seen[i] == contents[|contents| - 1 - i]
    {
      seen := [];
      var indx := listTail;
      for i := 0 to numItems
        invariant i < numItems ==> indx >= 0 && Live(indx) && ItemOf(listHead, indx, currSize) == numItems - 1 - i
        invariant |seen| == i && forall j :: 0 <= j < i ==> seen[j] == contents[|contents| - 1 - j]
      {
        seen := seen + [entry[indx]];
        if i + 1 < numItems {
          indx := PrevIndex(indx);
        }
      }
    }

    // ---------------------------------------------------------------- //
    // Removal at a cursor

    // The slots from the head on and round hold r.
    ghost predicate Ring(r: seq<T>)
      reads this, entry
    {
      && entry.Length == currSize == |r| && listHead < currSize
      && forall p {:trigger Slot(listHead, p, currSize)} ::
          0 <= p < currSize ==> entry[Slot(listHead, p, currSize)] == r[p]
    }

    lemma RingOf() returns (r: seq<T>)
      requires Valid() && numItems > 0
      ensures Ring(r) && forall i :: 0 <= i < numItems ==> contents[i] == r[i]
    {
      var e, h, n := entry[..], listHead, currSize;
      r := seq(n, p requires 0 <= p < n => e[Slot(h, p, n)]);
    }

    // entry[to] = entry[from], seen as a copy of item q to place p.
    method CopySlot(to: nat, from: nat, ghost r: seq<T>, ghost p: nat, ghost q: nat)
      requires Ring(r) && p < currSize && q < currSize
      requires to == Slot(listHead, p, currSize) && from == Slot(listHead, q, currSize)
      modifies entry
      ensures Ring(r[p := r[q]])
    {
      entry[to] := entry[from];
    }

    // The copies the two loops make, i items on from item k or back from it.
    method CopyFromNext(indx: nat, i: nat, ghost r: seq<T>, ghost k: nat)
      requires Ring(r) && k + i + 1 < currSize && indx == Slot(listHead, k, currSize)
      modifies entry
      ensures Ring(r[k + i := r[k + i + 1]])
    {
      SlotAfter(listHead, k, i, currSize);
      SlotAfter(listHead, k, i + 1, currSize);
      CopySlot(Mod(indx + i, currSize), Mod(indx + i + 1, currSize), r, k + i, k + i + 1);
    }

    method CopyFromPrev(indx: nat, i: nat, ghost r: seq<T>, ghost k: nat)
      requires Ring(r) && i < k < currSize && indx == Slot(listHead, k, currSize)
      modifies entry
      ensures Ring(r[k - i := r[k - i - 1]])
    {
      SlotBefore(listHead, k, i, currSize);
      SlotBefore(listHead, k, i + 1, currSize);
      CopySlot(Mod(indx + currSize - i, currSize), Mod(indx + currSize - i - 1, currSize), r, k - i, k - i - 1);
    }

    // Items k + 1 up to the tail move one slot back.
    method ShiftRight(indx: nat, nr: nat, ghost r: seq<T>, ghost k: nat) returns (ghost r': seq<T>)
      requires Ring(r) && k < numItems <= currSize && indx == Slot(listHead, k, currSize) && nr == numItems - 1 - k
      modifies entry
      ensures Ring(r') && forall p :: 0 <= p < numItems - 1 ==> r'[p] == r[if p < k then p else p + 1]
    {
      r' := r;
      for i := 0 to nr
        invariant Ring(r')
        invariant forall p :: 0 <= p < |r| ==> r'[p] == r[if k <= p < k + i then p + 1 else p]
      {
        CopyFromNext(indx, i, r', k);
        r' := r'[k + i := r'[k + i + 1]];
      }
    }

    // Items from the head up to k - 1 move one slot on.
    method ShiftLeft(indx: nat, nl: nat, ghost r: seq<T>, ghost k: nat) returns (ghost r': seq<T>)
      requires Ring(r) && k == nl < currSize && indx == Slot(listHead, k, currSize)
      modifies entry
      ensures Ring(r') && forall p :: 0 < p < |r| ==> r'[p] == r[if p <= k then p - 1 else p]
    {
      r' := r;
      for i := 0 to nl
        invariant Ring(r')
        invariant forall p :: 0 <= p < |r| ==> r'[p] == r[if k - i < p <= k then p - 1 else p]
      {
        CopyFromPrev(indx, i, r', k);
        r' := r'[k - i := r'[k - i - 1]];
      }
    }

    method DropHead(ghost r: seq<T>, ghost w: seq<T>)
      requires Ring(r) && 1 < numItems <= currSize && listTail == Slot(listHead, numItems - 1, currSize)
      requires |w| == numItems - 1 && forall p :: 0 <= p < |w| ==> w[p] == r[p + 1]
      modifies `listHead, `numItems, `contents
      ensures Valid() && contents == w
    {
      SlotAfter(listHead, 0, 1, currSize);
      listHead := Mod(listHead + 1, currSize);
      numItems := numItems - 1;
      contents := w;
      assert forall p :: 0 <= p < numItems ==> Slot(listHead, p, currSize) == Slot(old(listHead), p + 1, currSize);
    }

    method DropTail(ghost r: seq<T>, ghost w: seq<T>)
      requires Ring(r) && 1 < numItems <= currSize && listTail == Slot(listHead, numItems - 1, currSize)
      requires |w| == numItems - 1 && forall p :: 0 <= p < |w| ==> w[p] == r[p]
      modifies `listTail, `numItems, `contents
      ensures Valid() && contents == w
    {
      SlotBefore(listHead, numItems - 1, 1, currSize);
      listTail := Mod(listTail + currSize - 1, currSize);
      numItems := numItems - 1;
      contents := w;
    }

    method CloseInside(indx: nat, ghost r: seq<T>, ghost k: nat, ghost w: seq<T>)
      requires Ring(r) && 0 < k < numItems - 1 < currSize && listTail == Slot(listHead, numItems - 1, currSize)
      requires indx == Slot(listHead, k, currSize)
      requires |w| == numItems - 1 && forall p :: 0 <= p < |w| ==> w[p] == r[if p < k then p else p + 1]
      modifies this, entry
      ensures Valid() && contents == w && unchanged(`entry, `currSize, `incrSize, `maxmSize)
    {
      var nl := if indx > listHead then indx - listHead else currSize + indx - listHead;
      var nr := if indx < listTail then listTail - indx else currSize + listTail - indx;
      if nr < nl {
        ghost var r' := ShiftRight(indx, nr, r, k);
        DropTail(r', w);
      } else {
        ghost var r' := ShiftLeft(indx, nl, r, k);
        DropHead(r', w);
      }
    }

    // Closes the gap at a live slot from its shorter side.
    method CloseGap(indx: nat)
      requires Valid() && Live(indx) && numItems > 1
      modifies this, entry
      ensures Valid() && contents == Without(old(contents), old(ItemOf(listHead, indx, currSize)))
      ensures unchanged(`entry, `currSize, `incrSize, `maxmSize)
    {
      ghost var k := ItemOf(listHead, indx, currSize);
      ghost var r := RingOf();
      ghost var w := Without(contents, k);
      WithoutAt(contents, k);
      if indx == listHead {
        DropHead(r, w);
      } else if indx == listTail {
        DropTail(r, w);
      } else {
        CloseInside(indx, r, k, w);
      }
    }

    // What the guards of remove let through: they cover rings whose head and tail differ.
    predicate Passes(indx: nat)
      reads this
    {
      !(listHead > listTail && indx < listHead && indx > listTail) &&
      !(listHead < listTail && (indx < listHead || indx > listTail))
    }

    // The unsigned count of an empty ring goes below zero; then the ends and slots are moved about as
    // for a ring of that many items.
    method RemoveFromNone(indx: nat)
      requires Valid() && numItems == 0 && indx < currSize
      modifies this, entry
      ensures numItems == 0xFFFF_FFFF && unchanged(`entry, `currSize, `incrSize, `maxmSize)
      ensures listHead < currSize && 0 <= listTail < currSize
    {
      numItems := 0xFFFF_FFFF;
      if indx == listHead {
        listHead := Mod(listHead + 1, currSize);
      } else if indx == listTail {
        listTail := Mod(listTail + currSize - 1, currSize);
      } else {
        var nl := if indx > listHead then indx - listHead else currSize + indx - listHead;
        var nr := if indx < listTail then listTail - indx else currSize + listTail - indx;
        if nr < nl {
          for i := 0 to nr
            modifies entry
          {
            entry[Mod(indx + i, currSize)] := entry[Mod(indx + i + 1, currSize)];
          }
          listTail := Mod(listTail + currSize - 1, currSize);
        } else {
          for i := 0 to nl
            modifies entry
          {
            entry[Mod(indx + currSize - i, currSize)] := entry[Mod(indx + currSize - i - 1, currSize)];
          }
          listHead := Mod(listHead + 1, currSize);
        }
      }
    }

    // Removes the item the cursor names, wherever it is.  A cursor of another list changes nothing,
    // and neither does one that has gone stale as long as two items or more are left; the last item
    // goes whatever slot the cursor names.  The ring stays a ring exactly unless it is empty and its
    // cursor passes the guards.
    method Remove(list: List<T>, indx: nat)
      requires Valid() && indx < currSize < 0xFFFF_FFFF
      modifies this, entry
      ensures unchanged(`entry, `currSize, `incrSize, `maxmSize)
      ensures Valid() <==> !(list == this && old(numItems == 0 && Passes(indx)))
      ensures list != this || old(numItems == 0 && !Passes(indx)) ==> contents == old(contents)
      ensures list == this && old(Live(indx)) ==>
        contents == Without(old(contents), old(ItemOf(listHead, indx, currSize)))
      ensures list == this && old(numItems > 0 && !Live(indx)) ==>
        contents == if old(|contents|) == 1 then [] else old(contents)
      ensures list == this && old(numItems == 0 && Passes(indx)) ==> numItems == 0xFFFF_FFFF
    {
      if list != this {
        return;
      }
      if listHead > listTail && indx < listHead && indx > listTail {
        return;
      }
      if listHead < listTail && (indx < listHead || indx > listTail) {
        return;
      }
      if numItems == 0 {
        RemoveFromNone(indx);
      } else if numItems == 1 {
        numItems, listHead, listTail := 0, 0, 0;
        contents := [];
      } else {
        CloseGap(indx);
      }
    }
  }
}
