/** Whole runs of the table, how its directory grows in them, and what a cursor visits. */
module LinearHashRuns {
  import opened BitAnd
  import opened Sequences
  import opened LinearHash
  import opened LinearHashLaws

  datatype Op<+K, +V> =
    | OpInsert(k: K, v: V)
    | OpReplace(k: K, v: V)
    | OpRemove(k: K)
    | OpLookup(k: K)
    | OpClear

  datatype Answer<+V> = Code(rc: int) | Found(res: Option<V>) | Done

  function Apply<K(==, !new), V(!new)>(t: Table<K, V>, op: Op<K, V>): (Table<K, V>, Answer<V>)
    requires Sized(t)
  {
    match op
    case OpInsert(k, v) => var (u, rc) := Insert(t, k, v); (u, Code(rc))
    case OpReplace(k, v) => (Replace(t, k, v), Done)
    case OpRemove(k) => (Remove(t, k), Done)
    case OpLookup(k) => (t, Found(Lookup(t, k)))
    case OpClear => (Clear(t), Done)
  }

  // What the same call means for a map.
  function MapApply<K(==, !new), V(!new)>(m: map<K, V>, op: Op<K, V>): (map<K, V>, Answer<V>)
  {
    match op
    case OpInsert(k, v) => if k in m then (m, Code(-1)) else (m[k := v], Code(0))
    case OpReplace(k, v) => (if k in m then m[k := v] else m, Done)
    case OpRemove(k) => (m - {k}, Done)
    case OpLookup(k) => (m, Found(if k in m then Some(m[k]) else None))
    case OpClear => (map[], Done)
  }

  function MapRun<K(==, !new), V(!new)>(m: map<K, V>, ops: seq<Op<K, V>>): (map<K, V>, seq<Answer<V>>)
    decreases |ops|
  {
    if ops == [] then (m, [])
    else
      var (n, a) := MapApply(m, ops[0]);
      var (r, rest) := MapRun(n, ops[1..]);
      (r, [a] + rest)
  }

  function Run<K(==, !new), V(!new)>(t: Table<K, V>, ops: seq<Op<K, V>>): (Table<K, V>, seq<Answer<V>>)
    requires Sized(t)
    decreases |ops|
  {
    if ops == [] then (t, [])
    else
      var (u, a) := Apply(t, ops[0]);
      ApplySized(t, ops[0]);
      var (r, rest) := Run(u, ops[1..]);
      (r, [a] + rest)
  }

  lemma PushSized<K(!new), V(!new)>(t: Table<K, V>, k: K, v: V)
    requires Sized(t)
    ensures Sized(Push(t, k, v)) && Slack(Push(t, k, v)) == Slack(t)
  {
    AddrBound(t, t.hash(k));
  }

  lemma ReplaceSized<K(!new), V(!new)>(t: Table<K, V>, k: K, v: V)
    requires Sized(t)
    ensures Sized(Replace(t, k, v)) && Slack(Replace(t, k, v)) == Slack(t)
  {
    AddrBound(t, t.hash(k));
  }

  lemma RemoveSized<K(!new), V(!new)>(t: Table<K, V>, k: K)
    requires Sized(t)
    ensures Sized(Remove(t, k)) && Slack(Remove(t, k)) == Slack(t)
  {
    AddrBound(t, t.hash(k));
  }

  lemma ApplySized<K(!new), V(!new)>(t: Table<K, V>, op: Op<K, V>)
    requires Sized(t)
    ensures Sized(Apply(t, op).0)
  {
    match op
    case OpInsert(k, v) =>
      GrowSized(t, k, 5);
      PushSized(Grow(t, k, 5), k, v);
    case OpReplace(k, v) => ReplaceSized(t, k, v);
    case OpRemove(k) => RemoveSized(t, k);
    case OpLookup(k) =>
    case OpClear => DoublePow2(t.curr);
  }

  lemma ApplyLaw<K(!new), V(!new)>(t: Table<K, V>, m: map<K, V>, op: Op<K, V>)
    requires Represents(t, m)
    ensures Represents(Apply(t, op).0, MapApply(m, op).0)
    ensures Apply(t, op).1 == MapApply(m, op).1
  {
    match op
    case OpInsert(k, v) => InsertLaw(t, m, k, v);
    case OpReplace(k, v) => ReplaceLaw(t, m, k, v);
    case OpRemove(k) => RemoveLaw(t, m, k);
    case OpLookup(k) => LookupLaw(t, m, k);
    case OpClear => ClearLaw(t, m);
  }

  // In every run the table answers call for call as the map does, and ends up standing for it.
  lemma {:induction false} RunRefinesMap<K(!new), V(!new)>(t: Table<K, V>, m: map<K, V>, ops: seq<Op<K, V>>)
    requires Represents(t, m)
    ensures Represents(Run(t, ops).0, MapRun(m, ops).0)
    ensures Run(t, ops).1 == MapRun(m, ops).1
    decreases |ops|
  {
    if ops != [] {
      ApplyLaw(t, m, ops[0]);
      RunRefinesMap(Apply(t, ops[0]).0, MapApply(m, ops[0]).0, ops[1..]);
    }
  }

  // The same from a new table, of any size and bucket capacity.
  lemma RunFromNew<K(!new), V(!new)>(hash: K -> nat, size: nat, cap: nat, ops: seq<Op<K, V>>)
    ensures var t := Init<K, V>(hash, size, cap);
      && Sized(t)
      && Run(t, ops).1 == MapRun(map[], ops).1
      && Represents(Run(t, ops).0, MapRun(map[], ops).0)
  {
    InitLaw<K, V>(hash, size, cap);
    RunRefinesMap(Init<K, V>(hash, size, cap), map[], ops);
  }

  // ---------------------------------------------------------------- //
  // Growth

  // Buckets in use less splits made: what a run without clear conserves.
  function Slack<K(!new), V(!new)>(t: Table<K, V>): int
  {
    t.curr + t.split - t.splits
  }

  lemma {:induction false} GrowSlack<K(!new), V(!new)>(t: Table<K, V>, k: K, n: nat)
    requires Sized(t)
    ensures Slack(Grow(t, k, n)) == Slack(t) && Grow(t, k, n).splits <= t.splits + n
    decreases n
  {
    AddrBound(t, t.hash(k));
    if n > 0 && |t.buckets[Addr(t, k)]| >= t.cap {
      SplitSized(t);
      GrowSlack(Split(t), k, n - 1);
    }
  }

  // clear is the one call that can break the balance: it counts the whole directory as split.
  lemma ApplySlack<K(!new), V(!new)>(t: Table<K, V>, op: Op<K, V>)
    requires Sized(t)
    ensures Slack(Apply(t, op).0) == Slack(t) <==> (op.OpClear? ==> t.curr + t.split == t.next)
  {
    match op
    case OpInsert(k, v) =>
      GrowSlack(t, k, 5);
      GrowSized(t, k, 5);
      PushSized(Grow(t, k, 5), k, v);
    case OpReplace(k, v) => ReplaceSized(t, k, v);
    case OpRemove(k) => RemoveSized(t, k);
    case OpLookup(k) =>
    case OpClear =>
  }

  // Buckets in use are the initial ones and one more for each split, in every run without clear.
  lemma {:induction false} GrowthConserved<K(!new), V(!new)>(t: Table<K, V>, ops: seq<Op<K, V>>)
    requires Sized(t) && forall i :: 0 <= i < |ops| ==> !ops[i].OpClear?
    ensures var u := Run(t, ops).0;
      Sized(u) && u.curr + u.split - u.splits == t.curr + t.split - t.splits
    decreases |ops|
  {
    if ops != [] {
      ApplySized(t, ops[0]);
      ApplySlack(t, ops[0]);
      GrowthConserved(Apply(t, ops[0]).0, ops[1..]);
    }
  }

  // No pair lies past the buckets in use.
  lemma EmptyPastFrontier<K(!new), V(!new)>(t: Table<K, V>, m: map<K, V>, b: nat)
    requires Represents(t, m) && t.curr + t.split <= b < |t.buckets|
    ensures t.buckets[b] == []
  {
    if t.buckets[b] != [] {
      var p := t.buckets[b][0];
      var h := t.hash(p.key);
      assert p in t.buckets[b] && Addr(t, p.key) == b;
      MaskSplits(h, t.curr);
      assert false;
    }
  }

  // ---------------------------------------------------------------- //
  // What a cursor visits

  // All chains in directory order.
  function Flat<T>(bs: seq<seq<T>>): seq<T>
  {
    if bs == [] then [] else Flat(bs[..|bs| - 1]) + bs[|bs| - 1]
  }

  lemma TakeNext<T>(s: seq<T>, r: nat)
    requires r < |s|
    ensures s[..r] + [s[r]] == s[..r + 1]
  {
  }

  lemma FlatStep<T>(bs: seq<seq<T>>, b: nat)
    requires b < |bs|
    ensures Flat(bs[..b + 1]) == Flat(bs[..b]) + bs[b]
  {
    assert bs[..b + 1][..b] == bs[..b];
  }

  // Where the i-th element of chain b stands in the whole.
  lemma {:induction false} FlatIndex<T>(bs: seq<seq<T>>, b: nat, i: nat)
    requires b < |bs| && i < |bs[b]|
    ensures |Flat(bs[..b])| + i < |Flat(bs)| && Flat(bs)[|Flat(bs[..b])| + i] == bs[b][i]
    decreases |bs|
  {
    var d := bs[..|bs| - 1];
    if b == |bs| - 1 {
      assert bs[..b] == d;
    } else {
      FlatIndex(d, b, i);
      assert d[..b] == bs[..b];
    }
  }

  lemma {:induction false} FlatMember<T(!new)>(bs: seq<seq<T>>, x: T)
    ensures x in Flat(bs) <==> exists b :: 0 <= b < |bs| && x in bs[b]
  {
    if bs != [] {
      var d := bs[..|bs| - 1];
      FlatMember(d, x);
      if x in Flat(d) {
        var b :| 0 <= b < |d| && x in d[b];
        assert x in bs[b];
      }
      if b :| 0 <= b < |bs| && x in bs[b] {
        assert b < |d| ==> x in d[b];
      }
    }
  }

  lemma UniqueConcat<K(!new), V(!new)>(c: seq<Pair<K, V>>, d: seq<Pair<K, V>>)
    requires UniqueKeys(c) && UniqueKeys(d)
    requires forall p, q :: p in c && q in d ==> p.key != q.key
    ensures UniqueKeys(c + d)
  {
    forall i, j | 0 <= i < j < |c + d| ensures (c + d)[i].key != (c + d)[j].key {
      if i < |c| <= j {
        assert c[i] in c && d[j - |c|] in d;
      }
    }
  }

  lemma {:induction false} FlatUnique<K(!new), V(!new)>(t: Table<K, V>, m: map<K, V>, n: nat)
    requires Represents(t, m) && n <= |t.buckets|
    ensures UniqueKeys(Flat(t.buckets[..n]))
  {
    if n > 0 {
      var d := t.buckets[..n - 1];
      assert t.buckets[..n][..n - 1] == d;
      FlatUnique(t, m, n - 1);
      forall p: Pair<K, V>, q: Pair<K, V> | p in Flat(d) && q in t.buckets[n - 1] ensures p.key != q.key {
        FlatMember(d, p);
        var b :| 0 <= b < |d| && p in d[b];
        assert p in t.buckets[b];
      }
      UniqueConcat(Flat(d), t.buckets[n - 1]);
    }
  }

  lemma {:induction false} UniqueSize<K(!new), V(!new)>(c: seq<Pair<K, V>>, m: map<K, V>)
    requires UniqueKeys(c)
    requires forall p :: p in c <==> p.key in m && m[p.key] == p.val
    ensures |c| == |m|
  {
    if c == [] {
      assert forall k :: k in m ==> Pair(k, m[k]) in c;
      assert m == map[];
    } else {
      var d, p := c[1..], c[0];
      assert p in c;
      var n := m - {p.key};
      MapRemove(m, p.key);
      forall q ensures q in d <==> q.key in n && n[q.key] == q.val {
        if q in d {
          var i :| 0 <= i < |d| && d[i] == q;
          assert c[i + 1] == q;
        }
      }
      UniqueSize(d, n);
    }
  }

  // A pass over the table meets each pair of the map exactly once, and there are _num_pairs of them.
  lemma FlatIsMap<K(!new), V(!new)>(t: Table<K, V>, m: map<K, V>)
    requires Represents(t, m)
    ensures var f := Flat(t.buckets);
      && UniqueKeys(f) && |f| == |m| == t.pairs
      && forall p :: p in f <==> p.key in m && m[p.key] == p.val
  {
    var f := Flat(t.buckets);
    assert t.buckets[..|t.buckets|] == t.buckets;
    FlatUnique(t, m, |t.buckets|);
    forall p ensures p in f <==> p.key in m && m[p.key] == p.val {
      FlatMember(t.buckets, p);
      if p.key in m && m[p.key] == p.val {
        assert p in t.buckets[Addr(t, p.key)];
      }
    }
    UniqueSize(f, m);
  }
}
