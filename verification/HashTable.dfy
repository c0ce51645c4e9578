/** RDI_Hash (include/RDIHash.h): a directory of singly linked chains, split one bucket at a time.
    The chains are relinked in place; every method is proved to do to the table what the function
    of the same name in LinearHash does.  What that is for a finite map, LinearHashLaws proves. */
module HashTable {
  import opened BitAnd
  import opened Sequences
  import opened LinearHash
  import opened LinearHashRuns

  // RDI_KeyValuePair
  class Node<K, V> {
    var key: K
    var val: V
    var next: Node?<K, V>
    ghost var home: nat  // the bucket whose chain holds the node

    constructor (key: K, val: V)
      ensures this.key == key && this.val == val
    {
      this.key, this.val, this.next := key, val, null;
    }
  }

  // BucketNode_t
  datatype BucketNode<K, V> = BucketNode(count: nat, nodes: Node?<K, V>)

  // The i-th node of a chain, null past its end.
  ghost function NodeAt<K, V>(s: seq<Node<K, V>>, i: nat): Node?<K, V>
  {
    if i < |s| then s[i] else null
  }

  ghost function PrevAt<K, V>(s: seq<Node<K, V>>, i: nat): Node?<K, V>
  {
    if 0 < i <= |s| then s[i - 1] else null
  }

  // A chain whose link before node i was redirected past it is the chain without that node.
  lemma CutLinks<K, V>(s: seq<Node<K, V>>, i: nat)
    requires i < |s|
    requires forall j {:trigger s[j].next} :: 0 <= j < |s| && j != i - 1 ==> s[j].next == NodeAt(s, j + 1)
    requires i > 0 ==> s[i - 1].next == NodeAt(s, i + 1)
    ensures var d := Without(s, i);
      forall j {:trigger d[j].next} :: 0 <= j < |d| ==> d[j].next == NodeAt(d, j + 1)
  {
    WithoutAt(s, i);
  }

  class HashTable<K(==, !new), V(!new)> {
    const hash: K -> nat
    const rank: (K, K) -> int
    var currSize: nat
    var nextSize: nat
    var splitIdx: nat
    var currMask: nat
    var nextMask: nat
    var numPairs: int
    var bcapacity: nat
    var numSplit: nat
    var htable: array<BucketNode<K, V>>

    ghost var chains: seq<seq<Node<K, V>>>
    ghost var buckets: seq<seq<Pair<K, V>>>
    ghost var Repr: set<object>

    // The table as LinearHash sees it.
    ghost function Table(): Table<K, V>
      reads this
    {
      LinearHash.Table(hash, currSize, nextSize, splitIdx, numPairs, bcapacity, numSplit, buckets)
    }

    // The heap: the directory's counts and links are those of the ghost chains, and the nodes hold
    // the ghost pairs, place for place.
    ghost predicate Shape()
      reads `htable, `chains, `buckets, `Repr, Repr
    {
      && this !in Repr && htable in Repr
      && htable.Length == |chains| == |buckets|
      && (forall b :: 0 <= b < |chains| ==>
            htable[b].count == |chains[b]| == |buckets[b]| && htable[b].nodes == NodeAt(chains[b], 0)
            && NoDup(chains[b]))
      && (forall b, i :: 0 <= b < |chains| && 0 <= i < |chains[b]| ==>
            var n := chains[b][i];
            n in Repr && n.home == b && Pair(n.key, n.val) == buckets[b][i])
      && (forall b, i {:trigger chains[b][i].next} :: 0 <= b < |chains| && 0 <= i < |chains[b]| ==>
            chains[b][i].next == NodeAt(chains[b], i + 1))
    }

    ghost predicate Valid()
      reads this, Repr
    {
      && Shape()
      && currMask == currSize - 1 && nextMask == nextSize - 1
      && Sized(Table())
      && forall a, b :: rank(a, b) == 0 <==> a == b
    }

    constructor (hash: K -> nat, rank: (K, K) -> int, size: nat, capa: nat)
      requires forall a, b :: rank(a, b) == 0 <==> a == b
      ensures Valid() && fresh(Repr)
      ensures this.hash == hash && this.rank == rank
      ensures Table() == LinearHash.Init(hash, size, capa)
      ensures bcapacity == (if capa == 0 then 5 else capa) && numPairs == 0 && numSplit == 0 && splitIdx == 0
    {
      this.hash, this.rank := hash, rank;
      splitIdx, numPairs, numSplit := 0, 0, 0;
      bcapacity := if capa == 0 then 5 else capa;
      var s := 1;
      while s < size
        invariant IsPow2(s) && InitSize(size, s) == InitSize(size)
        decreases size - s
      {
        DoublePow2(s);
        s := 2 * s;
      }
      currSize, nextSize, currMask, nextMask := s, s, s - 1, s - 1;
      var t := new BucketNode<K, V>[s];
      for ix := 0 to s
        invariant forall b :: 0 <= b < ix ==> t[b] == BucketNode(0, null)
      {
        t[ix] := BucketNode(0, null);
      }
      htable := t;
      chains, buckets := seq(s, _ => []), seq(s, _ => []);
      Repr := {t};
    }

    // ---------------------------------------------------------------- //
    // Links

    // Cut node i out of chain b, given the node before it.
    method Unlink(b: nat, prev: Node?<K, V>, node: Node<K, V>, ghost i: nat)
      requires Shape() && b < |chains| && i < |chains[b]|
      requires node == chains[b][i] && prev == PrevAt(chains[b], i)
      modifies htable, (if prev == null then {} else {prev})`next, `chains, `buckets
      ensures Shape()
      ensures chains == old(chains)[b := Without(old(chains)[b], i)]
      ensures buckets == old(buckets)[b := Without(old(buckets)[b], i)]
    {
      ghost var s, c := chains[b], buckets[b];
      ghost var d, e := Without(s, i), Without(c, i);
      WithoutAt(s, i);
      WithoutAt(c, i);
      var next := node.next;
      if prev == null {
        htable[b] := BucketNode(htable[b].count - 1, next);
      } else {
        prev.next := next;
        htable[b] := BucketNode(htable[b].count - 1, htable[b].nodes);
      }
      CutLinks(s, i);
      chains := chains[b := d];
      buckets := buckets[b := e];
    }

    // Put a node that is in no chain at the head of chain b.
    method Link(b: nat, node: Node<K, V>)
      requires Shape() && b < |chains| && node in Repr
      requires forall c, i :: 0 <= c < |chains| && 0 <= i < |chains[c]| ==> chains[c][i] != node
      modifies htable, node`next, node`home, `chains, `buckets
      ensures Shape()
      ensures chains == old(chains)[b := [node] + old(chains)[b]]
      ensures buckets == old(buckets)[b := [Pair(node.key, node.val)] + old(buckets)[b]]
    {
      ghost var s, c := chains[b], buckets[b];
      ghost var d, e := [node] + s, [Pair(node.key, node.val)] + c;
      node.home := b;
      node.next := htable[b].nodes;
      htable[b] := BucketNode(htable[b].count + 1, node);
      chains := chains[b := d];
      buckets := buckets[b := e];
    }

    // ---------------------------------------------------------------- //
    // Looking up

    function PseudoHash(key: K): (b: nat)
      requires Valid()
      reads this, Repr
      ensures b == Addr(Table(), key) && b < |chains|
    {
      AddrBound(Table(), hash(key));
      var indx := hash(key);
      var bnum := And(indx, currMask);
      if bnum < splitIdx then And(indx, nextMask) else bnum
    }

    // The node of a key, the node before it and their bucket.
    method LookupNode(key: K) returns (curr: Node?<K, V>, prev: Node?<K, V>, bnum: nat, ghost i: nat)
      requires Valid()
      ensures bnum == Addr(Table(), key) && bnum < |chains|
      ensures i == Find(buckets[bnum], key)
      ensures curr == NodeAt(chains[bnum], i) && prev == PrevAt(chains[bnum], i)
    {
      bnum := PseudoHash(key);
      prev := null;
      curr := htable[bnum].nodes;
      i := 0;
      while curr != null && rank(key, curr.key) != 0
        invariant i <= |chains[bnum]|
        invariant curr == NodeAt(chains[bnum], i) && prev == PrevAt(chains[bnum], i)
        invariant forall j :: 0 <= j < i ==> buckets[bnum][j].key != key
        decreases |chains[bnum]| - i
      {
        prev := curr;
        curr := curr.next;
        i := i + 1;
      }
      FindIs(buckets[bnum], key, i);
    }

    method Lookup(key: K) returns (res: Option<V>)
      requires Valid()
      ensures res == LinearHash.Lookup(Table(), key)
    {
      var curr, _, bnum, i := LookupNode(key);
      if curr != null {
        return Some(curr.val);
      }
      return None;
    }

    method Exists(key: K) returns (found: bool)
      requires Valid()
      ensures found <==> LinearHash.Lookup(Table(), key).Some?
    {
      var curr, _, bnum, i := LookupNode(key);
      return curr != null;
    }

    // ---------------------------------------------------------------- //
    // Replacing and removing

    method Replace(key: K, val: V)
      requires Valid()
      modifies this, Repr
      ensures Valid() && Repr == old(Repr)
      ensures Table() == LinearHash.Replace(old(Table()), key, val)
    {
      var curr, _, bnum, i := LookupNode(key);
      if curr != null {
        ghost var c := buckets[bnum][i := Pair(curr.key, val)];
        curr.val := val;
        buckets := buckets[bnum := c];
      }
    }

    method Remove(key: K)
      requires Valid()
      modifies this, Repr
      ensures Valid() && Repr == old(Repr)
      ensures Table() == LinearHash.Remove(old(Table()), key)
    {
      var curr, prev, bnum, i := LookupNode(key);
      if curr != null {
        Unlink(bnum, prev, curr, i);
        numPairs := numPairs - 1;
      }
    }

    method EmptyBucket(b: nat)
      requires Shape() && b < |chains|
      modifies htable, `chains, `buckets
      ensures Shape()
      ensures chains == old(chains)[b := []] && buckets == old(buckets)[b := []]
    {
      while htable[b].nodes != null
        invariant Shape() && |chains| == old(|chains|)
        invariant chains == old(chains)[b := chains[b]] && buckets == old(buckets)[b := buckets[b]]
        decreases |chains[b]|
      {
        Unlink(b, null, htable[b].nodes, 0);
      }
      assert chains[b] == [] && buckets[b] == [];
    }

    // Delete every node of every chain and count the whole directory as split.
    method Clear()
      requires Valid()
      modifies this, Repr
      ensures Valid() && Repr == old(Repr)
      ensures Table() == LinearHash.Clear(old(Table()))
      ensures currSize == nextSize == old(nextSize) && splitIdx == 0 && numPairs == 0 && numSplit == old(numSplit)
    {
      for indx := 0 to nextSize
        modifies htable, `chains, `buckets
        invariant Shape() && |chains| == nextSize
        invariant forall b :: 0 <= b < indx ==> buckets[b] == []
      {
        EmptyBucket(indx);
      }
      assert buckets == seq(nextSize, _ => []);
      DoublePow2(currSize);
      currSize, currMask := nextSize, nextMask;
      splitIdx, numPairs := 0, 0;
    }

    // ---------------------------------------------------------------- //
    // Splitting

    // A directory twice as long, the old buckets first and the rest empty.
    method CopyDirectory() returns (htbl: array<BucketNode<K, V>>)
      ensures fresh(htbl) && htbl.Length == 2 * htable.Length
      ensures forall b :: 0 <= b < htable.Length ==> htbl[b] == htable[b]
      ensures forall b :: htable.Length <= b < htbl.Length ==> htbl[b] == BucketNode(0, null)
    {
      var n := htable.Length;
      htbl := new BucketNode<K, V>[2 * n];
      for indx := 0 to n
        invariant forall b :: 0 <= b < indx ==> htbl[b] == htable[b]
      {
        htbl[indx] := htable[indx];
      }
      for indx := n to 2 * n
        invariant forall b :: 0 <= b < n ==> htbl[b] == htable[b]
        invariant forall b :: n <= b < indx ==> htbl[b] == BucketNode(0, null)
      {
        htbl[indx] := BucketNode(0, null);
      }
    }

    method DoubleDirectory()
      requires Valid() && currSize == nextSize
      modifies this
      ensures Valid()
      ensures fresh(Repr - old(Repr))
      ensures Table() == LinearHash.Double(old(Table()))
    {
      var htbl := CopyDirectory();
      DoublePow2(currSize);
      ghost var cs, bs := chains + seq(currSize, _ => []), buckets + seq(currSize, _ => []);
      nextSize := 2 * currSize;
      nextMask := nextSize - 1;
      htable := htbl;
      chains, buckets := cs, bs;
      Repr := Repr + {htbl};
    }

    // Move node i of one chain to the head of another.
    method Move(from: nat, prev: Node?<K, V>, node: Node<K, V>, ghost i: nat, to: nat)
      requires Shape() && from < |chains| && i < |chains[from]| && to < |chains| && from != to
      requires node == chains[from][i] && prev == PrevAt(chains[from], i)
      modifies htable, (if prev == null then {} else {prev})`next, node`next, node`home, `chains, `buckets
      ensures Shape()
      ensures chains == old(chains)[from := Without(old(chains)[from], i)][to := [node] + old(chains)[to]]
      ensures buckets == old(buckets)[from := Without(old(buckets)[from], i)]
        [to := [old(buckets)[from][i]] + old(buckets)[to]]
    {
      WithoutAt(chains[from], i);
      Unlink(from, prev, node, i);
      Link(to, node);
    }

    // The walk over the split bucket's chain, before it looks at pair i of the plan.
    ghost predicate Walking(p: Plan<K, V>, i: nat, prev: Node?<K, V>, node: Node?<K, V>)
      reads this, Repr
    {
      && Shape() && PlanOk(p, |chains|) && i <= |p.c|
      && splitIdx == p.idx && nextMask == |chains| - 1 && IsPow2(|chains|)
      && (forall j :: 0 <= j < |p.c| ==> p.to[j] == And(hash(p.c[j].key), nextMask))
      && buckets == p.dirs[i]
      && node == NodeAt(chains[splitIdx], p.kept[i]) && prev == PrevAt(chains[splitIdx], p.kept[i])
    }

    // Keep a node whose low bits still name the split bucket, push any other on the chain its low
    // bits name.
    method RedistributeNode(prev: Node?<K, V>, node: Node<K, V>, ghost p: Plan<K, V>, ghost i: nat)
      returns (prev': Node?<K, V>, next: Node?<K, V>)
      requires Walking(p, i, prev, node)
      modifies `chains, `buckets, Repr
      ensures Walking(p, i + 1, prev', next)
    {
      assert i < |p.c| && PlanStep(p, |chains|, i);
      var indx := And(hash(node.key), nextMask);
      AndBound(hash(node.key), nextMask);
      prev' := prev;
      if indx == splitIdx {
        prev' := node;
        next := node.next;
      } else {
        WithoutAt(chains[splitIdx], p.kept[i]);
        Move(splitIdx, prev, node, p.kept[i], indx);
        assert prev == PrevAt(chains[splitIdx], p.kept[i]);
        next := if prev != null then prev.next else htable[splitIdx].nodes;
      }
    }

    method Walk(ghost p: Plan<K, V>)
      requires Shape() && splitIdx < |chains| && Walking(p, 0, null, htable[splitIdx].nodes)
      modifies `chains, `buckets, Repr
      ensures Shape() && buckets == p.dirs[|p.c|]
    {
      ghost var i := 0;
      var prev: Node?<K, V> := null;
      var node := htable[splitIdx].nodes;
      while node != null
        invariant i <= |p.c| && Walking(p, i, prev, node)
        decreases |p.c| - i
      {
        PlanGoesOn(p, |chains|, i);
        prev, node := RedistributeNode(prev, node, p, i);
        i := i + 1;
      }
      PlanGoesOn(p, |chains|, i);
    }

    method Redistribute()
      requires Shape() && splitIdx < |chains| && IsPow2(|chains|) && nextMask == |chains| - 1
      modifies `chains, `buckets, Repr
      ensures Shape()
      ensures var s, c := splitIdx, old(buckets)[splitIdx];
        buckets == Scatter(old(buckets)[s := Stay(c, hash, nextMask, s)], c, hash, nextMask, s)
    {
      ghost var c := buckets[splitIdx];
      ghost var p := MakePlan(buckets[splitIdx := Stay(c, hash, nextMask, splitIdx)], c, hash, nextMask, splitIdx);
      Walk(p);
    }

    method SplitOne()
      requires Valid() && splitIdx < currSize && nextSize == 2 * currSize
      modifies this, Repr
      ensures Valid() && Repr == old(Repr)
      ensures Table() == SplitBucket(old(Table()))
    {
      DoublePow2(currSize);
      numSplit := numSplit + 1;
      Redistribute();
      splitIdx := splitIdx + 1;
    }

    // End the round, or split one more bucket, doubling the directory first where it is needed.
    method Split()
      requires Valid()
      modifies this, Repr
      ensures Valid()
      ensures fresh(Repr - old(Repr))
      ensures Table() == LinearHash.Split(old(Table()))
    {
      SplitSized(Table());
      if splitIdx == currSize {
        currSize, currMask := nextSize, nextMask;
        splitIdx := 0;
      } else {
        if currSize == nextSize {
          DoubleDirectory();
        }
        SplitOne();
      }
    }

    // ---------------------------------------------------------------- //
    // Inserting

    // Split while the key's bucket is full, five times at most.
    method MakeRoom(key: K)
      requires Valid()
      modifies this, Repr
      ensures Valid()
      ensures fresh(Repr - old(Repr))
      ensures Table() == Grow(old(Table()), key, 5)
    {
      ghost var ts := GrowTrace(Table(), key, 5);
      var numSplits := 0;
      var full := IsFull(key);
      while full && numSplits < 5
        invariant Valid()
        invariant fresh(Repr - old(Repr))
        invariant numSplits < |ts| && Table() == ts[numSplits] && (full <==> Full(ts[numSplits], key))
        decreases 5 - numSplits
      {
        full := SplitOnce(key, ts[numSplits]);
        numSplits := numSplits + 1;
      }
    }

    method SplitOnce(key: K, ghost t: Table<K, V>) returns (full: bool)
      requires Valid() && Table() == t
      modifies this, Repr
      ensures Valid()
      ensures fresh(Repr - old(Repr))
      ensures Table() == LinearHash.Split(t) && (full <==> Full(Table(), key))
    {
      Split();
      full := IsFull(key);
    }

    method IsFull(key: K) returns (full: bool)
      requires Valid()
      ensures full <==> Full(Table(), key)
    {
      var bnum := PseudoHash(key);
      return htable[bnum].count >= bcapacity;
    }

    method PushNode(key: K, val: V)
      requires Valid()
      modifies this, Repr
      ensures Valid()
      ensures fresh(Repr - old(Repr))
      ensures Table() == Push(old(Table()), key, val)
    {
      var bnum := PseudoHash(key);
      var node := new Node(key, val);
      numPairs := numPairs + 1;
      Repr := Repr + {node};
      Link(bnum, node);
    }

    method InsertNew(key: K, val: V)
      requires Valid()
      modifies this, Repr
      ensures Valid()
      ensures fresh(Repr - old(Repr))
      ensures Table() == LinearHash.InsertNew(old(Table()), key, val)
    {
      MakeRoom(key);
      PushNode(key, val);
    }

    // -1 and no change for a key that is there; otherwise the splits and a new first node.
    method Insert(key: K, val: V) returns (rc: int)
      requires Valid()
      modifies this, Repr
      ensures Valid()
      ensures fresh(Repr - old(Repr))
      ensures (Table(), rc) == LinearHash.Insert(old(Table()), key, val)
    {
      var found := Exists(key);
      if found {
        return -1;
      }
      InsertNew(key, val);
      return 0;
    }

    // ---------------------------------------------------------------- //
    // Cursors

    // The cursor (node, bnum) stands at place r of the chains in directory order, or past them all.
    ghost predicate CursorAt(node: Node?<K, V>, bnum: nat, r: nat)
      reads this, Repr
    {
      if node == null then bnum == nextSize && r == |Flat(buckets)|
      else exists i: nat ::
        && bnum < |chains| == |buckets| && i < |chains[bnum]|
        && node == chains[bnum][i] && r == |Flat(buckets[..bnum])| + i
    }

    // The first node of the first chain at or after `start` that has one.
    method ScanFrom(start: nat) returns (node: Node?<K, V>, bnum: nat)
      requires Valid() && start <= nextSize
      ensures CursorAt(node, bnum, |Flat(buckets[..start])|)
    {
      assert buckets[..|buckets|] == buckets;
      for indx := start to nextSize
        invariant Flat(buckets[..indx]) == Flat(buckets[..start])
      {
        if htable[indx].count != 0 {
          assert htable[indx].nodes == chains[indx][0];
          return htable[indx].nodes, indx;
        }
        FlatStep(buckets, indx);
        assert buckets[indx] == [];
      }
      return null, nextSize;
    }

    method FrstNode() returns (node: Node?<K, V>, bnum: nat)
      requires Valid()
      ensures CursorAt(node, bnum, 0)
    {
      node, bnum := ScanFrom(0);
      assert buckets[..0] == [];
    }

    method NextNode(node: Node?<K, V>, bnum: nat, ghost r: nat) returns (node': Node?<K, V>, bnum': nat)
      requires Valid() && CursorAt(node, bnum, r)
      ensures CursorAt(node', bnum', if node == null then r else r + 1)
    {
      if node == null {
        return null, nextSize;
      }
      ghost var i: nat :| bnum < |chains| && i < |chains[bnum]| && node == chains[bnum][i]
        && r == |Flat(buckets[..bnum])| + i;
      if node.next != null {
        assert node.next == chains[bnum][i + 1];
        return node.next, bnum;
      }
      assert node.next == NodeAt(chains[bnum], i + 1);
      FlatStep(buckets, bnum);
      node', bnum' := ScanFrom(bnum + 1);
    }

    lemma CursorHolds(node: Node<K, V>, bnum: nat, r: nat)
      requires Valid() && CursorAt(node, bnum, r)
      ensures r < |Flat(buckets)| && Flat(buckets)[r] == Pair(node.key, node.val)
    {
      var i: nat :| bnum < |chains| && i < |chains[bnum]| && node == chains[bnum][i]
        && r == |Flat(buckets[..bnum])| + i;
      FlatIndex(buckets, bnum, i);
    }

    // The loop a cursor is for: from frst_node by next_node until it is no longer valid.
    method Visit() returns (seen: seq<Pair<K, V>>)
      requires Valid()
      ensures seen == Flat(buckets)
    {
      ghost var all := Flat(buckets);
      seen := [];
      var node, bnum: nat := FrstNode();
      while node != null
        invariant CursorAt(node, bnum, |seen|)
        invariant |seen| <= |all| && seen == all[..|seen|]
        decreases |all| - |seen|
      {
        ghost var r := |seen|;
        CursorHolds(node, bnum, r);
        TakeNext(all, r);
        seen := seen + [Pair(node.key, node.val)];
        node, bnum := NextNode(node, bnum, r);
      }
    }
  }
}
