/** What linear hashing promises: whatever is inserted, replaced, removed or cleared, and however
    many splits that takes, the table answers as a finite map does. */
module LinearHashLaws {
  import opened BitAnd
  import opened Sequences
  import opened LinearHash

  // ---------------------------------------------------------------- //
  // Splitting a chain

  lemma {:induction false} StayHolds<K(!new), V(!new)>(c: seq<Pair<K, V>>, hash: K -> nat, mask: nat, idx: nat)
    ensures forall p :: p in Stay(c, hash, mask, idx) <==> p in c && And(hash(p.key), mask) == idx
  {
    if c != [] {
      var d := c[..|c| - 1];
      StayHolds(d, hash, mask, idx);
      assert forall p :: p in c <==> p in d || p == c[|c| - 1];
    }
  }

  lemma {:induction false} ScatterHolds<K(!new), V(!new)>(
    bs: seq<seq<Pair<K, V>>>, c: seq<Pair<K, V>>, hash: K -> nat, mask: nat, idx: nat, b: nat, p: Pair<K, V>)
    requires b < |bs|
    ensures p in Scatter(bs, c, hash, mask, idx)[b] <==>
      p in bs[b] || (p in c && b != idx && And(hash(p.key), mask) == b)
  {
    if c != [] {
      var d := c[..|c| - 1];
      ScatterHolds(bs, d, hash, mask, idx, b, p);
      assert p in c <==> p in d || p == c[|c| - 1];
    }
  }

  lemma UniqueAdd<K(!new), V(!new)>(c: seq<Pair<K, V>>, p: Pair<K, V>)
    requires UniqueKeys(c) && forall i :: 0 <= i < |c| ==> c[i].key != p.key
    ensures UniqueKeys(c + [p]) && UniqueKeys([p] + c)
  {
  }

  lemma {:induction false} StayUnique<K(!new), V(!new)>(c: seq<Pair<K, V>>, hash: K -> nat, mask: nat, idx: nat)
    requires UniqueKeys(c)
    ensures UniqueKeys(Stay(c, hash, mask, idx))
  {
    if c != [] {
      var d, last := c[..|c| - 1], c[|c| - 1];
      StayUnique(d, hash, mask, idx);
      StayHolds(d, hash, mask, idx);
      var stay := Stay(d, hash, mask, idx);
      forall i | 0 <= i < |stay| ensures stay[i].key != last.key {
        assert stay[i] in stay;
        var j :| 0 <= j < |d| && d[j] == stay[i];
        assert c[j] == d[j];
      }
      UniqueAdd(stay, last);
    }
  }

  lemma {:induction false} ScatterUnique<K(!new), V(!new)>(
    bs: seq<seq<Pair<K, V>>>, c: seq<Pair<K, V>>, hash: K -> nat, mask: nat, idx: nat, b: nat)
    requires b < |bs| && UniqueKeys(bs[b]) && UniqueKeys(c)
    requires b != idx ==> forall p :: p in bs[b] ==>
      And(hash(p.key), mask) != b || forall q :: q in c ==> p.key != q.key
    ensures UniqueKeys(Scatter(bs, c, hash, mask, idx)[b])
  {
    if c != [] {
      var d, last := c[..|c| - 1], c[|c| - 1];
      ScatterUnique(bs, d, hash, mask, idx, b);
      if b != idx && And(hash(last.key), mask) == b {
        var r := Scatter(bs, d, hash, mask, idx)[b];
        forall i | 0 <= i < |r| ensures r[i].key != last.key {
          ScatterHolds(bs, d, hash, mask, idx, b, r[i]);
          assert r[i] in r;
          assert last in c;
          if r[i] in d {
            var j :| 0 <= j < |d| && d[j] == r[i];
            assert c[j] == d[j];
          }
        }
        UniqueAdd(r, last);
      }
    }
  }

  // ---------------------------------------------------------------- //
  // Addresses under split

  // The masks are remainders: by the round's size, or the next one's for buckets split already.
  lemma AddressIs<K(!new), V(!new)>(t: Table<K, V>, h: nat)
    requires Sized(t)
    ensures AddrOf(t, h) == if h % t.curr < t.split then h % t.next else h % t.curr
  {
    DoublePow2(t.curr);
    AndMask(h, t.curr);
    AndMask(h, t.next);
  }

  // A split ends the round and does nothing else, or splits one more bucket of it.
  lemma SplitEffect<K(!new), V(!new)>(t: Table<K, V>)
    requires Sized(t)
    ensures t.split == t.curr ==> Split(t) == t.(curr := t.next, split := 0)
    ensures t.split < t.curr ==> var u := Split(t);
      && u.curr == t.curr && u.next == 2 * t.curr && u.split == t.split + 1 && u.splits == t.splits + 1
      && u.hash == t.hash && u.cap == t.cap && u.pairs == t.pairs
  {
  }

  // A new pair goes first in its chain, and every other chain is left alone.
  lemma PushEffect<K(!new), V(!new)>(t: Table<K, V>, k: K, v: V)
    requires Sized(t)
    ensures Addr(t, k) < |t.buckets| == |Push(t, k, v).buckets|
    ensures forall b :: 0 <= b < |t.buckets| ==>
      Push(t, k, v).buckets[b] == (if b == Addr(t, k) then [Pair(k, v)] else []) + t.buckets[b]
  {
    AddrBound(t, t.hash(k));
  }

  // The silent step that ends a round moves no key.
  lemma WrapKeepsAddresses<K(!new), V(!new)>(t: Table<K, V>, h: nat)
    requires Sized(t) && t.split == t.curr
    ensures AddrOf(Split(t), h) == AddrOf(t, h)
  {
    MaskSplits(h, t.curr);
  }

  lemma StepMovesOnly(curr: nat, next: nat, split: nat, h: nat)
    requires IsPow2(curr) && (next == curr || next == 2 * curr) && split < curr && (next == curr ==> split == 0)
    ensures var a, a' := BucketOf(curr, next, split, h), BucketOf(curr, 2 * curr, split + 1, h);
      && (a == split <==> And(h, curr - 1) == split)
      && (a != split ==> a' == a != split + curr)
      && (a == split ==> a' == And(h, 2 * curr - 1) && (a' == split || a' == split + curr))
  {
    MaskSplits(h, curr);
  }

  // A split moves only keys whose low bits are the split index, and only to the one new bucket.
  lemma SplitMovesOnly<K(!new), V(!new)>(t: Table<K, V>, h: nat)
    requires Sized(t) && t.split < t.curr
    ensures AddrOf(t, h) == t.split <==> And(h, t.curr - 1) == t.split
    ensures AddrOf(t, h) != t.split ==> AddrOf(Split(t), h) == AddrOf(t, h) != t.split + t.curr
    ensures AddrOf(t, h) == t.split ==> AddrOf(Split(t), h) == And(h, 2 * t.curr - 1)
    ensures AddrOf(t, h) == t.split ==> AddrOf(Split(t), h) == t.split || AddrOf(Split(t), h) == t.split + t.curr
  {
    StepMovesOnly(t.curr, t.next, t.split, h);
  }

  // ---------------------------------------------------------------- //
  // Split keeps the map

  lemma DoubleKeeps<K(!new), V(!new)>(t: Table<K, V>, m: map<K, V>)
    requires Represents(t, m)
    ensures Represents(Double(t), m) && Double(t).next == 2 * t.curr
  {
    DoublePow2(t.curr);
    if t.curr == t.next {
      var d := Double(t);
      forall b, p | 0 <= b < |d.buckets| && p in d.buckets[b] ensures p in t.buckets[b] {
      }
      assert forall k {:trigger Addr(d, k)} :: Addr(d, k) == Addr(t, k);
    }
  }

  // Where a pair lies after the split: where it lay, or in the bucket its low bits now name.
  lemma SplitBucketHolds<K(!new), V(!new)>(t: Table<K, V>, b: nat, p: Pair<K, V>)
    requires Sized(t) && t.next == 2 * t.curr && t.split < t.curr && b < t.next
    ensures p in SplitBucket(t).buckets[b] <==>
      || (b != t.split && p in t.buckets[b])
      || (p in t.buckets[t.split] && And(t.hash(p.key), 2 * t.curr - 1) == b)
  {
    var c := t.buckets[t.split];
    var bs := t.buckets[t.split := Stay(c, t.hash, t.next - 1, t.split)];
    StayHolds(c, t.hash, t.next - 1, t.split);
    ScatterHolds(bs, c, t.hash, t.next - 1, t.split, b, p);
  }

  lemma SplitBucketFrom<K(!new), V(!new)>(t: Table<K, V>, m: map<K, V>, b: nat, p: Pair<K, V>)
    requires Sized(t) && Sound(t, m) && t.next == 2 * t.curr && t.split < t.curr && b < t.next
    requires p in SplitBucket(t).buckets[b]
    ensures p.key in m && m[p.key] == p.val && Addr(Split(t), p.key) == b
  {
    SplitBucketHolds(t, b, p);
    SplitMovesOnly(t, t.hash(p.key));
    assert Addr(t, p.key) == b || Addr(t, p.key) == t.split;
  }

  lemma SplitBucketSound<K(!new), V(!new)>(t: Table<K, V>, m: map<K, V>)
    requires Sized(t) && Sound(t, m) && t.next == 2 * t.curr && t.split < t.curr
    ensures Sized(SplitBucket(t)) && Sound(SplitBucket(t), m)
  {
    var u := SplitBucket(t);
    SplitSized(t);
    assert u == Split(t);
    forall b, p | 0 <= b < |u.buckets| && p in u.buckets[b]
      ensures Addr(u, p.key) == b && p.key in m && m[p.key] == p.val
    {
      SplitBucketFrom(t, m, b, p);
    }
  }

  lemma SplitBucketComplete<K(!new), V(!new)>(t: Table<K, V>, m: map<K, V>)
    requires Sized(t) && Complete(t, m) && t.next == 2 * t.curr && t.split < t.curr
    ensures Sized(SplitBucket(t)) && Complete(SplitBucket(t), m)
  {
    var u := SplitBucket(t);
    SplitSized(t);
    assert u == Split(t);
    forall k | k in m ensures Addr(u, k) < |u.buckets| && Pair(k, m[k]) in u.buckets[Addr(u, k)] {
      assert Pair(k, m[k]) in t.buckets[Addr(t, k)];
      AddrBound(u, u.hash(k));
      SplitMovesOnly(t, t.hash(k));
      SplitBucketHolds(t, Addr(u, k), Pair(k, m[k]));
    }
  }

  lemma SplitBucketUnique<K(!new), V(!new)>(t: Table<K, V>, m: map<K, V>, b: nat)
    requires Sized(t) && Sound(t, m) && t.next == 2 * t.curr && t.split < t.curr && b < t.next
    requires UniqueKeys(t.buckets[b]) && UniqueKeys(t.buckets[t.split])
    ensures UniqueKeys(SplitBucket(t).buckets[b])
  {
    var c := t.buckets[t.split];
    var bs := t.buckets[t.split := Stay(c, t.hash, t.next - 1, t.split)];
    StayUnique(c, t.hash, t.next - 1, t.split);
    forall p: Pair<K, V>, q: Pair<K, V> | p in bs[b] && q in c && b != t.split ensures p.key != q.key {
      assert Addr(t, p.key) == b && Addr(t, q.key) == t.split;
    }
    ScatterUnique(bs, c, t.hash, t.next - 1, t.split, b);
  }

  // One call of split, whichever of its three things it does, keeps the map.
  lemma WrapLaw<K(!new), V(!new)>(t: Table<K, V>, m: map<K, V>)
    requires Represents(t, m) && t.split == t.curr
    ensures Represents(Split(t), m)
  {
    var u := Split(t);
    forall h: nat ensures AddrOf(u, h) == AddrOf(t, h) {
      WrapKeepsAddresses(t, h);
    }
    assert forall k {:trigger Addr(u, k)} :: Addr(u, k) == Addr(t, k);
  }

  lemma SplitLaw<K(!new), V(!new)>(t: Table<K, V>, m: map<K, V>)
    requires Represents(t, m)
    ensures Represents(Split(t), m)
  {
    if t.split == t.curr {
      WrapLaw(t, m);
    } else {
      DoubleKeeps(t, m);
      var d := Double(t);
      SplitBucketSound(d, m);
      SplitBucketComplete(d, m);
      forall b | 0 <= b < |d.buckets| ensures UniqueKeys(Split(t).buckets[b]) {
        SplitBucketUnique(d, m, b);
      }
    }
  }

  lemma {:induction false} GrowLaw<K(!new), V(!new)>(t: Table<K, V>, m: map<K, V>, k: K, n: nat)
    requires Represents(t, m)
    ensures Represents(Grow(t, k, n), m)
    decreases n
  {
    AddrBound(t, t.hash(k));
    if n > 0 && |t.buckets[Addr(t, k)]| >= t.cap {
      SplitLaw(t, m);
      GrowLaw(Split(t), m, k, n - 1);
    }
  }

  // ---------------------------------------------------------------- //
  // Each operation against the map

  // A table stands for one map only.
  lemma OneMap<K(!new), V(!new)>(t: Table<K, V>, m: map<K, V>, n: map<K, V>)
    requires Represents(t, m) && Represents(t, n)
    ensures m == n
  {
    forall k ensures k in m <==> k in n {
      LookupLaw(t, m, k);
      LookupLaw(t, n, k);
    }
    forall k | k in m ensures m[k] == n[k] {
      LookupLaw(t, m, k);
      LookupLaw(t, n, k);
    }
  }

  lemma LookupLaw<K(!new), V(!new)>(t: Table<K, V>, m: map<K, V>, k: K)
    requires Represents(t, m)
    ensures Lookup(t, k) == if k in m then Some(m[k]) else None
  {
    AddrBound(t, t.hash(k));
    var c := t.buckets[Addr(t, k)];
    var i := Find(c, k);
    if i < |c| {
      assert c[i] in c;
    }
  }

  // The maps m and n agree but for key k, and so do the chains c and d, d saying of k what n does.
  ghost predicate AgreeOff<K(!new), V(!new)>(m: map<K, V>, n: map<K, V>, k: K)
  {
    forall q :: q != k ==> (q in n <==> q in m) && (q in m ==> n[q] == m[q])
  }

  ghost predicate ChainFollows<K(!new), V(!new)>(c: seq<Pair<K, V>>, d: seq<Pair<K, V>>, n: map<K, V>, k: K)
  {
    forall p :: p in d <==> if p.key == k then k in n && n[k] == p.val else p in c
  }

  lemma RebucketSound<K(!new), V(!new)>(t: Table<K, V>, u: Table<K, V>, m: map<K, V>, k: K, n: map<K, V>)
    requires Sized(t) && Sound(t, m) && AgreeOff(m, n, k)
    requires Addr(t, k) < |t.buckets| == |u.buckets|
    requires ChainFollows(t.buckets[Addr(t, k)], u.buckets[Addr(t, k)], n, k)
    requires u == t.(buckets := t.buckets[Addr(t, k) := u.buckets[Addr(t, k)]], pairs := u.pairs)
    requires Sized(u)
    ensures Sound(u, n)
  {
    forall b, p | 0 <= b < |u.buckets| && p in u.buckets[b]
      ensures Addr(u, p.key) == b && p.key in n && n[p.key] == p.val
    {
      if b != Addr(t, k) || p.key != k {
        assert p in t.buckets[b];
      }
    }
  }

  lemma RebucketComplete<K(!new), V(!new)>(t: Table<K, V>, u: Table<K, V>, m: map<K, V>, k: K, n: map<K, V>)
    requires Sized(t) && Complete(t, m) && AgreeOff(m, n, k)
    requires Addr(t, k) < |t.buckets| == |u.buckets|
    requires ChainFollows(t.buckets[Addr(t, k)], u.buckets[Addr(t, k)], n, k)
    requires u == t.(buckets := t.buckets[Addr(t, k) := u.buckets[Addr(t, k)]], pairs := u.pairs)
    requires Sized(u)
    ensures Complete(u, n)
  {
    forall q | q in n ensures Addr(u, q) < |u.buckets| && Pair(q, n[q]) in u.buckets[Addr(u, q)] {
      if q != k {
        assert Pair(q, n[q]) in t.buckets[Addr(t, q)];
      }
    }
  }

  // Giving the bucket of k a new chain that differs from the old at k alone changes the map at k
  // alone.
  lemma Rebucket<K(!new), V(!new)>(t: Table<K, V>, m: map<K, V>, k: K, d: seq<Pair<K, V>>, n: map<K, V>)
    requires Represents(t, m) && AgreeOff(m, n, k)
    requires Addr(t, k) < |t.buckets| && UniqueKeys(d)
    requires ChainFollows(t.buckets[Addr(t, k)], d, n, k)
    ensures Represents(t.(buckets := t.buckets[Addr(t, k) := d], pairs := |n|), n)
  {
    AddrBound(t, t.hash(k));
    var u := t.(buckets := t.buckets[Addr(t, k) := d], pairs := |n|);
    RebucketSound(t, u, m, k, n);
    RebucketComplete(t, u, m, k, n);
  }

  lemma PushLaw<K(!new), V(!new)>(t: Table<K, V>, m: map<K, V>, k: K, v: V)
    requires Represents(t, m) && k !in m
    ensures Represents(Push(t, k, v), m[k := v])
  {
    AddrBound(t, t.hash(k));
    var c := t.buckets[Addr(t, k)];
    forall i | 0 <= i < |c| ensures c[i].key != k {
      assert c[i] in c;
    }
    assert |m[k := v]| == |m| + 1;
    Rebucket(t, m, k, [Pair(k, v)] + c, m[k := v]);
  }

  // insert refuses a key it has, and otherwise adds exactly the new pair, splits and all.
  lemma InsertLaw<K(!new), V(!new)>(t: Table<K, V>, m: map<K, V>, k: K, v: V)
    requires Represents(t, m)
    ensures var (u, rc) := Insert(t, k, v);
      && (k in m ==> rc == -1 && u == t)
      && (k !in m ==> rc == 0 && Represents(u, m[k := v]))
  {
    LookupLaw(t, m, k);
    if k !in m {
      GrowLaw(t, m, k, 5);
      PushLaw(Grow(t, k, 5), m, k, v);
    }
  }

  // On the way an insert splits as long as it finds the key's bucket filled to the capacity, and five times
  // at most: the tables from the one it was called on to the one it pushes the pair in.
  lemma InsertTrace<K(!new), V(!new)>(t: Table<K, V>, k: K, v: V) returns (ts: seq<Table<K, V>>)
    requires Sized(t) && Lookup(t, k) == None
    ensures 1 <= |ts| <= 6 && ts[0] == t
    ensures forall i :: 0 <= i < |ts| ==>
      && Sized(ts[i]) && Addr(ts[i], k) < |ts[i].buckets|
      && (i < 5 ==> (|ts[i].buckets[Addr(ts[i], k)]| >= ts[i].cap <==> i < |ts| - 1))
    ensures forall i :: 0 < i < |ts| ==> ts[i] == Split(ts[i - 1])
    ensures Sized(ts[|ts| - 1]) && Insert(t, k, v) == (Push(ts[|ts| - 1], k, v), 0)
  {
    ts := GrowTrace(t, k, 5);
    forall i | 0 <= i < |ts| ensures Addr(ts[i], k) < |ts[i].buckets| {
      AddrBound(ts[i], ts[i].hash(k));
    }
  }

  lemma SetInChain<K(!new), V(!new)>(c: seq<Pair<K, V>>, i: nat, v: V)
    requires UniqueKeys(c) && i < |c|
    ensures var d, k := c[i := Pair(c[i].key, v)], c[i].key;
      UniqueKeys(d) && forall p :: p in d <==> if p.key == k then p.val == v else p in c
  {
    var d, k := c[i := Pair(c[i].key, v)], c[i].key;
    forall p ensures p in d <==> if p.key == k then p.val == v else p in c {
      assert d[i] == Pair(k, v);
      if p in c && p.key != k {
        var j :| 0 <= j < |c| && c[j] == p;
        assert d[j] == p;
      }
    }
  }

  lemma DropFromChain<K(!new), V(!new)>(c: seq<Pair<K, V>>, i: nat)
    requires UniqueKeys(c) && i < |c|
    ensures UniqueKeys(Without(c, i))
    ensures forall p :: p in Without(c, i) <==> p.key != c[i].key && p in c
  {
    var d := Without(c, i);
    WithoutAt(c, i);
    forall p | p in d ensures p.key != c[i].key && p in c {
      var j :| 0 <= j < |d| && d[j] == p;
      assert p == c[if j < i then j else j + 1];
    }
    forall p: Pair<K, V> | p.key != c[i].key && p in c ensures p in d {
      var j :| 0 <= j < |c| && c[j] == p;
      assert d[if j < i then j else j - 1] == p;
    }
  }

  lemma ReplaceLaw<K(!new), V(!new)>(t: Table<K, V>, m: map<K, V>, k: K, v: V)
    requires Represents(t, m)
    ensures k in m ==> Represents(Replace(t, k, v), m[k := v])
    ensures k !in m ==> Replace(t, k, v) == t
  {
    LookupLaw(t, m, k);
    if k in m {
      AddrBound(t, t.hash(k));
      var c := t.buckets[Addr(t, k)];
      SetInChain(c, Find(c, k), v);
      assert m[k := v].Keys == m.Keys;
      Rebucket(t, m, k, c[Find(c, k) := Pair(k, v)], m[k := v]);
    }
  }

  lemma MapRemove<K(!new), V(!new)>(m: map<K, V>, k: K)
    ensures AgreeOff(m, m - {k}, k) && k !in m - {k}
    ensures k in m ==> |m - {k}| == |m| - 1
    ensures k !in m ==> m - {k} == m
  {
    assert k in m ==> m.Keys == (m - {k}).Keys + {k};
  }

  lemma RemoveLaw<K(!new), V(!new)>(t: Table<K, V>, m: map<K, V>, k: K)
    requires Represents(t, m)
    ensures Represents(Remove(t, k), m - {k})
    ensures k !in m ==> Remove(t, k) == t
  {
    LookupLaw(t, m, k);
    MapRemove(m, k);
    if k in m {
      AddrBound(t, t.hash(k));
      var c := t.buckets[Addr(t, k)];
      DropFromChain(c, Find(c, k));
      var d, n := Without(c, Find(c, k)), m - {k};
      assert ChainFollows(c, d, n, k);
      Rebucket(t, m, k, d, n);
    }
  }

  lemma ClearLaw<K(!new), V(!new)>(t: Table<K, V>, m: map<K, V>)
    requires Represents(t, m)
    ensures Represents(Clear(t), map[])
    ensures Clear(t).curr == Clear(t).next == t.next && Clear(t).split == 0
    ensures Clear(t).hash == t.hash && Clear(t).cap == t.cap && Clear(t).splits == t.splits
  {
    DoublePow2(t.curr);
  }

  lemma {:induction false} InitSizeLaw(size: nat, s: nat)
    requires IsPow2(s)
    ensures var r := InitSize(size, s);
      IsPow2(r) && r >= size && (r == s || r < 2 * size)
    decreases size - s
  {
    if s < size {
      DoublePow2(s);
      InitSizeLaw(size, 2 * s);
    }
  }

  // The directory is as long as the least power of two that is not below `size`, with nothing split yet.
  lemma InitLaw<K(!new), V(!new)>(hash: K -> nat, size: nat, cap: nat)
    ensures Represents(Init<K, V>(hash, size, cap), map[])
    ensures var t := Init<K, V>(hash, size, cap);
      && t.hash == hash && t.cap == (if cap == 0 then 5 else cap) && t.split == 0 && t.splits == 0
      && t.next == t.curr >= size && (t.curr == 1 || t.curr < 2 * size)
  {
    InitSizeLaw(size, 1);
  }
}
