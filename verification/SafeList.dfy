/** RDI_SafeList (include/RDISafeList.h): a list with one built-in circular iterator.  The index and
    the end-marker flag are proved to keep one place in the list; what the iterator then promises
    over whole runs is proved about that place in CircularList. */
module SafeList {
  import opened BitAnd
  import opened Sequences
  import opened CircularList

  // Searching from one round later is the same search.
  lemma {:induction false} SearchRound<T>(s: seq<T>, x: T, from: nat, n: nat)
    requires s != []
    ensures Search(s, x, from + |s|, n) == Search(s, x, from, n)
    decreases n
  {
    var len := |s|;
    var q, r := from / len, from % len;
    assert (q + 1) * len == q * len + len;
    DivModUnique(from + len, len, q + 1, r);
    if n > 0 {
      SearchRound(s, x, from + 1, n - 1);
    }
  }

  // The index after the last is the first.
  lemma NextIndex(i: nat, len: nat)
    requires i < len
    ensures (i + 1) % len == if i + 1 == len then 0 else i + 1
  {
    DivModUnique(i + 1, len, if i + 1 == len then 1 else 0, if i + 1 == len then 0 else i + 1);
  }

  class List<T(==)> {
    var elts: seq<T>
    var nextIdx: int
    var deliverEndMarker: bool

    ghost predicate Valid()
      reads this
    {
      && (deliverEndMarker ==> nextIdx == 0)
      && (0 <= nextIdx < |elts| || nextIdx == 0)
    }

    ghost function Place(): (c: Cursor<T>)
      requires Valid()
      reads this
      ensures Within(c)
    {
      Cursor(elts, if deliverEndMarker then |elts| else nextIdx)
    }

    constructor ()
      ensures Valid() && Place() == Cursor([], 0)
    {
      elts, nextIdx, deliverEndMarker := [], 0, false;
    }

    method Drain()
      modifies this
      ensures Valid() && Place() == Cursor([], 0)
    {
      elts, nextIdx, deliverEndMarker := [], 0, false;
    }

    method Insert(entry: T)
      requires Valid()
      modifies this
      ensures Valid() && Place() == CircularList.Insert(old(Place()), entry)
      ensures elts == old(elts) + [entry]
    {
      var len := |elts|;
      elts := elts + [entry];
      if deliverEndMarker {
        nextIdx := len;
        deliverEndMarker := false;
      }
    }

    // An index past the end is ignored.
    method RemoveIdx(idx: nat)
      requires Valid()
      modifies this
      ensures Valid() && Place() == if idx < old(|elts|) then RemoveAt(old(Place()), idx) else old(Place())
      ensures elts == if idx < old(|elts|) then old(elts)[..idx] + old(elts)[idx + 1..] else old(elts)
    {
      var maxIdx := |elts| - 1;
      if idx > maxIdx {
        return;
      }
      if nextIdx > idx {
        nextIdx := nextIdx - 1;
      } else if nextIdx == maxIdx {
        nextIdx := 0;
        if maxIdx != 0 {
          deliverEndMarker := true;
        }
      }
      var i: nat := idx;
      while i < maxIdx
        modifies `elts
        invariant idx <= i <= maxIdx
        invariant |elts| == maxIdx + 1
        invariant forall j :: 0 <= j < i ==> elts[j] == old(elts)[if j < idx then j else j + 1]
        invariant forall j :: i <= j <= maxIdx ==> elts[j] == old(elts)[j]
      {
        elts := elts[i := elts[i + 1]];
        i := i + 1;
      }
      elts := elts[..maxIdx];
      assert elts == Without(old(elts), idx);
    }

    // Index of the entry to remove, |elts| if there is none: the element returned last comes first.
    method FindIdx(entry: T) returns (idx: nat)
      requires Valid() && elts != []
      ensures idx == Search(elts, entry, Place().pos + |elts| - 1, |elts|)
    {
      var len: nat := |elts|;
      var prevIdx: nat := nextIdx + len - 1;
      var termIdx := prevIdx + len;
      SearchRound(elts, entry, prevIdx, len);
      var i: nat := prevIdx;
      while i < termIdx
        invariant prevIdx <= i <= termIdx
        invariant Search(elts, entry, prevIdx, len) == Search(elts, entry, i, termIdx - i)
      {
        idx := i % len;
        if elts[idx] == entry {
          return;
        }
        i := i + 1;
      }
      return len;
    }

    method Remove(entry: T)
      requires Valid()
      modifies this
      ensures Valid() && Place() == CircularList.Remove(old(Place()), entry)
    {
      if |elts| == 0 {
        return;
      }
      var idx := FindIdx(entry);
      if idx < |elts| {
        RemoveIdx(idx);
      }
    }

    method IterNext() returns (entry: Option<T>)
      requires Valid()
      modifies this
      ensures Valid() && elts == old(elts)
      ensures (entry, Place()) == Next(old(Place()))
    {
      if deliverEndMarker {
        deliverEndMarker := false;
        return None;
      }
      var len := |elts|;
      if len == 0 {
        return None;
      }
      var curIdx := nextIdx;
      NextIndex(nextIdx, len);
      nextIdx := (nextIdx + 1) % len;
      if nextIdx == 0 {
        deliverEndMarker := true;
      }
      return Some(elts[curIdx]);
    }

    // The loop the header recommends for visiting all elements under one lock: every element once,
    // from the iterator's place on and round.  It leaves the iterator where it was unless that was
    // the start of a round, where the round it has just made is left to be closed by its null.
    method Scan() returns (seen: seq<T>)
      requires Valid()
      modifies this
      ensures Valid() && elts == old(elts)
      ensures var p := old(Place().pos);
        seen == elts[p..] + elts[..p] && Place() == Cursor(elts, if p == 0 then |elts| else p)
    {
      ghost var p := Place().pos;
      var len := |elts|;
      var i := 0;
      seen := [];
      while i < len
        invariant Valid() && elts == old(elts) && i <= len && i == |seen|
        invariant seen == (elts[p..] + elts[..p])[..i]
        invariant (p <= Place().pos && i == Place().pos - p) ||
          (0 < p && Place().pos <= p && i == len - p + Place().pos)
        decreases len - i, if Place().pos == len then 1 else 0
      {
        var entry := IterNext();
        if entry.Some? {
          i := i + 1;
          seen := seen + [entry.value];
        }
      }
      assert (elts[p..] + elts[..p])[..len] == elts[p..] + elts[..p];
    }
  }
}
