/** Litwin's linear hashing as include/RDIHash.h runs it, on values: a directory of chains, a split
    pointer and two sizes.  The class HashTable.HashTable is proved against these functions; here
    they are proved to refine a finite map, through any number of splits and doublings. */
module LinearHash {
  import opened BitAnd
  import opened Sequences

  datatype Pair<+K, +V> = Pair(key: K, val: V)

  datatype Table<!K, +V> = Table(
    hash: K -> nat,
    curr: nat,     // _curr_size
    next: nat,     // _next_size
    split: nat,    // _split_idx
    pairs: int,    // _num_pairs
    cap: nat,      // _bcapacity
    splits: nat,   // _num_split
    buckets: seq<seq<Pair<K, V>>>)

  // ---------------------------------------------------------------- //
  // The operations

  // The directory size the constructor picks: the first power of two that is at least `size`.
  function InitSize(size: nat, s: nat := 1): (r: nat)
    requires s > 0
    decreases size - s
  {
    if s < size then InitSize(size, 2 * s) else s
  }

  function Init<K(!new), V(!new)>(hash: K -> nat, size: nat, cap: nat): Table<K, V>
  {
    var s := InitSize(size);
    Table(hash, s, s, 0, 0, if cap == 0 then 5 else cap, 0, seq(s, _ => []))
  }

  // pseudo_hash: the low bits under the current mask, one bit more for buckets already split.
  function BucketOf(curr: nat, next: nat, split: nat, h: nat): nat
    requires curr > 0 && next > 0
  {
    var b := And(h, curr - 1);
    if b < split then And(h, next - 1) else b
  }

  function AddrOf<K(!new), V(!new)>(t: Table<K, V>, h: nat): nat
    requires t.curr > 0 && t.next > 0
  {
    BucketOf(t.curr, t.next, t.split, h)
  }

  function Addr<K(!new), V(!new)>(t: Table<K, V>, k: K): nat
    requires t.curr > 0 && t.next > 0
  {
    AddrOf(t, t.hash(k))
  }

  // Position of the first pair with key k in a chain, or the chain's length.
  function Find<K(==, !new), V(!new)>(c: seq<Pair<K, V>>, k: K): (i: nat)
    ensures i <= |c|
    ensures forall j :: 0 <= j < i ==> c[j].key != k
    ensures i < |c| ==> c[i].key == k
  {
    if c == [] || c[0].key == k then 0 else 1 + Find(c[1..], k)
  }

  function Lookup<K(==, !new), V(!new)>(t: Table<K, V>, k: K): Option<V>
    requires Sized(t)
  {
    AddrBound(t, t.hash(k));
    var c := t.buckets[Addr(t, k)];
    var i := Find(c, k);
    if i < |c| then Some(c[i].val) else None
  }

  // The pairs of a split bucket that keep their address, in order.
  function Stay<K(!new), V(!new)>(c: seq<Pair<K, V>>, hash: K -> nat, mask: nat, idx: nat): (r: seq<Pair<K, V>>)
  {
    if c == [] then []
    else
      var rest := Stay(c[..|c| - 1], hash, mask, idx);
      var last := c[|c| - 1];
      if And(hash(last.key), mask) == idx then rest + [last] else rest
  }

  // The pairs of a split bucket that leave it, in order, each pushed on the chain its low bits name.
  function Scatter<K(!new), V(!new)>(
    bs: seq<seq<Pair<K, V>>>, c: seq<Pair<K, V>>, hash: K -> nat, mask: nat, idx: nat): (r: seq<seq<Pair<K, V>>>)
    ensures |r| == |bs|
  {
    if c == [] then bs
    else
      var rest := Scatter(bs, c[..|c| - 1], hash, mask, idx);
      var last := c[|c| - 1];
      var to := And(hash(last.key), mask);
      if to == idx || to >= |bs| then rest else rest[to := [last] + rest[to]]
  }

  // Doubling the directory: the old buckets followed by as many empty ones.
  function Double<K(!new), V(!new)>(t: Table<K, V>): Table<K, V>
  {
    if t.curr == t.next then t.(next := 2 * t.curr, buckets := t.buckets + seq(t.curr, _ => []))
    else t
  }

  function Wrap<K(!new), V(!new)>(t: Table<K, V>): Table<K, V>
  {
    t.(curr := t.next, split := 0)
  }

  function SplitBucket<K(!new), V(!new)>(t: Table<K, V>): Table<K, V>
    requires t.next > 0 && t.split < |t.buckets|
  {
    var c := t.buckets[t.split];
    var bs := t.buckets[t.split := Stay(c, t.hash, t.next - 1, t.split)];
    t.(buckets := Scatter(bs, c, t.hash, t.next - 1, t.split), split := t.split + 1, splits := t.splits + 1)
  }

  function Split<K(!new), V(!new)>(t: Table<K, V>): Table<K, V>
    requires Sized(t)
  {
    if t.split == t.curr then Wrap(t) else SplitBucket(Double(t))
  }

  // Splits made before inserting k: while its bucket is full, and at most n of them.
  function Grow<K(!new), V(!new)>(t: Table<K, V>, k: K, n: nat): Table<K, V>
    requires Sized(t)
    decreases n
  {
    AddrBound(t, t.hash(k));
    if n > 0 && |t.buckets[Addr(t, k)]| >= t.cap then SplitSized(t); Grow(Split(t), k, n - 1) else t
  }

  function Push<K(!new), V(!new)>(t: Table<K, V>, k: K, v: V): Table<K, V>
    requires Sized(t)
  {
    AddrBound(t, t.hash(k));
    Rechain(t, Addr(t, k), [Pair(k, v)] + t.buckets[Addr(t, k)], t.pairs + 1)
  }

  // An insert of a key that is not there: up to five splits, and the pair put first in its chain.
  function InsertNew<K(!new), V(!new)>(t: Table<K, V>, k: K, v: V): Table<K, V>
    requires Sized(t)
  {
    GrowSized(t, k, 5);
    Push(Grow(t, k, 5), k, v)
  }

  // The table and the return code of insert: -1 with no change when the key is there.
  function Insert<K(==, !new), V(!new)>(t: Table<K, V>, k: K, v: V): (Table<K, V>, int)
    requires Sized(t)
  {
    if Lookup(t, k).Some? then (t, -1) else (InsertNew(t, k, v), 0)
  }

  // The table with a new chain in one bucket.
  function Rechain<K(!new), V(!new)>(t: Table<K, V>, b: nat, c: seq<Pair<K, V>>, pairs: int): Table<K, V>
    requires b < |t.buckets|
  {
    t.(buckets := t.buckets[b := c], pairs := pairs)
  }

  function Replace<K(==, !new), V(!new)>(t: Table<K, V>, k: K, v: V): Table<K, V>
    requires Sized(t)
  {
    AddrBound(t, t.hash(k));
    ReplaceAt(t, Addr(t, k), Find(t.buckets[Addr(t, k)], k), v)
  }

  function ReplaceAt<K(!new), V(!new)>(t: Table<K, V>, b: nat, i: nat, v: V): Table<K, V>
    requires b < |t.buckets|
  {
    var c := t.buckets[b];
    if i < |c| then Rechain(t, b, c[i := Pair(c[i].key, v)], t.pairs) else t
  }

  function Remove<K(==, !new), V(!new)>(t: Table<K, V>, k: K): Table<K, V>
    requires Sized(t)
  {
    AddrBound(t, t.hash(k));
    RemoveAt(t, Addr(t, k), Find(t.buckets[Addr(t, k)], k))
  }

  function RemoveAt<K(!new), V(!new)>(t: Table<K, V>, b: nat, i: nat): Table<K, V>
    requires b < |t.buckets|
  {
    var c := t.buckets[b];
    if i < |c| then Rechain(t, b, Without(c, i), t.pairs - 1) else t
  }

  function Clear<K(!new), V(!new)>(t: Table<K, V>): Table<K, V>
  {
    t.(curr := t.next, split := 0, pairs := 0, buckets := seq(t.next, _ => []))
  }

  // ---------------------------------------------------------------- //
  // The invariant

  // Sizes, and the directory's length.
  ghost predicate Sized<K(!new), V(!new)>(t: Table<K, V>)
  {
    && IsPow2(t.curr)
    && (t.next == t.curr || t.next == 2 * t.curr)
    && t.split <= t.curr
    && (t.next == t.curr ==> t.split == 0)
    && |t.buckets| == t.next
    && t.cap > 0
  }

  ghost predicate UniqueKeys<K(!new), V(!new)>(c: seq<Pair<K, V>>)
  {
    forall i, j :: 0 <= i < j < |c| ==> c[i].key != c[j].key
  }

  // Every pair lies in the bucket pseudo_hash gives its key, and is one of the map's.
  ghost predicate Sound<K(!new), V(!new)>(t: Table<K, V>, m: map<K, V>)
    requires Sized(t)
  {
    forall b, p :: 0 <= b < |t.buckets| && p in t.buckets[b] ==> Addr(t, p.key) == b && p.key in m && m[p.key] == p.val
  }

  // Every pair of the map lies in its bucket.
  ghost predicate Complete<K(!new), V(!new)>(t: Table<K, V>, m: map<K, V>)
    requires Sized(t)
  {
    forall k {:trigger Addr(t, k)} :: k in m ==> Addr(t, k) < |t.buckets| && Pair(k, m[k]) in t.buckets[Addr(t, k)]
  }

  ghost predicate Unique<K(!new), V(!new)>(t: Table<K, V>)
  {
    forall b :: 0 <= b < |t.buckets| ==> UniqueKeys(t.buckets[b])
  }

  // The table is a well-formed linear hash table of the finite map m.
  ghost predicate Represents<K(!new), V(!new)>(t: Table<K, V>, m: map<K, V>)
  {
    Sized(t) && Sound(t, m) && Complete(t, m) && Unique(t) && t.pairs == |m|
  }

  // ---------------------------------------------------------------- //
  // Addresses

  lemma MaskSplits(h: nat, s: nat)
    requires IsPow2(s)
    ensures And(h, s - 1) < s
    ensures And(h, 2 * s - 1) == And(h, s - 1) || And(h, 2 * s - 1) == And(h, s - 1) + s
  {
    AndMask(h, s);
    DoublePow2(s);
    AndMask(h, 2 * s);
    ModDouble(h, s);
  }

  lemma BucketBound(curr: nat, next: nat, split: nat, h: nat)
    requires IsPow2(curr) && (next == curr || next == 2 * curr) && (next == curr ==> split == 0)
    ensures BucketOf(curr, next, split, h) < curr + split && BucketOf(curr, next, split, h) < next
  {
    MaskSplits(h, curr);
  }

  lemma AddrBound<K(!new), V(!new)>(t: Table<K, V>, h: nat)
    requires Sized(t)
    ensures AddrOf(t, h) < |t.buckets| && AddrOf(t, h) < t.curr + t.split
  {
    BucketBound(t.curr, t.next, t.split, h);
  }

  ghost predicate Full<K(!new), V(!new)>(t: Table<K, V>, k: K)
    requires Sized(t)
  {
    AddrBound(t, t.hash(k));
    |t.buckets[Addr(t, k)]| >= t.cap
  }

  lemma FindIs<K(!new), V(!new)>(c: seq<Pair<K, V>>, k: K, i: nat)
    requires i <= |c| && forall j :: 0 <= j < i ==> c[j].key != k
    requires i < |c| ==> c[i].key == k
    ensures Find(c, k) == i
  {
  }

  lemma {:induction false} ScatterKeeps<K(!new), V(!new)>(
    bs: seq<seq<Pair<K, V>>>, c: seq<Pair<K, V>>, hash: K -> nat, mask: nat, idx: nat)
    requires idx < |bs|
    ensures Scatter(bs, c, hash, mask, idx)[idx] == bs[idx]
  {
    if c != [] {
      ScatterKeeps(bs, c[..|c| - 1], hash, mask, idx);
    }
  }

  // The directory when the first i pairs of chain c, in bucket idx, have been redistributed.
  ghost function Redist<K(!new), V(!new)>(
    bs: seq<seq<Pair<K, V>>>, c: seq<Pair<K, V>>, hash: K -> nat, mask: nat, idx: nat, i: nat):
    (r: seq<seq<Pair<K, V>>>)
    requires idx < |bs| && i <= |c|
    ensures |r| == |bs| && |r[idx]| == |Stay(c[..i], hash, mask, idx)| + |c| - i
  {
    Scatter(bs, c[..i], hash, mask, idx)[idx := Stay(c[..i], hash, mask, idx) + c[i..]]
  }

  lemma RedistEnds<K(!new), V(!new)>(bs: seq<seq<Pair<K, V>>>, c: seq<Pair<K, V>>, hash: K -> nat, mask: nat, idx: nat)
    requires idx < |bs| && bs[idx] == Stay(c, hash, mask, idx)
    ensures Redist(bs, c, hash, mask, idx, 0) == bs[idx := c]
    ensures Redist(bs, c, hash, mask, idx, |c|) == Scatter(bs, c, hash, mask, idx)
  {
    assert c[..0] == [] && [] + c[0..] == c;
    assert c[..|c|] == c && c[|c|..] == [];
    assert Stay(c, hash, mask, idx) + [] == bs[idx];
    ScatterKeeps(bs, c, hash, mask, idx);
  }

  lemma RedistStep<K(!new), V(!new)>(
    bs: seq<seq<Pair<K, V>>>, c: seq<Pair<K, V>>, hash: K -> nat, mask: nat, idx: nat, i: nat)
    requires idx < |bs| && i < |c|
    ensures var r, r' := Redist(bs, c, hash, mask, idx, i), Redist(bs, c, hash, mask, idx, i + 1);
      var k, to := |Stay(c[..i], hash, mask, idx)|, And(hash(c[i].key), mask);
      && k < |r[idx]| && r[idx][k] == c[i]
      && |Stay(c[..i + 1], hash, mask, idx)| == (if to == idx then k + 1 else k)
      && (to == idx ==> r' == r)
      && (to != idx && to < |bs| ==> r' == r[idx := Without(r[idx], k)][to := [c[i]] + r[to]])
  {
    assert c[..i + 1][..i] == c[..i];
    assert c[i..] == [c[i]] + c[i + 1..];
    var stay, to := Stay(c[..i], hash, mask, idx), And(hash(c[i].key), mask);
    if to == idx {
      assert (stay + [c[i]]) + c[i + 1..] == stay + c[i..];
    } else {
      assert Without(stay + c[i..], |stay|) == stay + c[i + 1..];
    }
  }

  // The redistribution of a chain c, step by step: the directory before step i is dirs[i], and the
  // pair looked at there is the kept[i]-th of the split bucket's chain.
  datatype Plan<K, V> = Plan(idx: nat, c: seq<Pair<K, V>>,
    to: seq<nat>, kept: seq<nat>, dirs: seq<seq<seq<Pair<K, V>>>>)

  ghost predicate PlanStep<K(!new), V(!new)>(p: Plan<K, V>, n: nat, i: nat)
    requires |p.dirs| == |p.kept| == |p.c| + 1 && |p.to| == |p.c| && i < |p.c|
  {
    var r, k, to := p.dirs[i], p.kept[i], p.to[i];
    && |r| == n && p.idx < n && k + |p.c| - i == |r[p.idx]| && r[p.idx][k] == p.c[i]
    && (to == p.idx ==> p.dirs[i + 1] == r && p.kept[i + 1] == k + 1)
    && (to != p.idx && to < n ==>
          p.dirs[i + 1] == r[p.idx := Without(r[p.idx], k)][to := [p.c[i]] + r[to]] && p.kept[i + 1] == k)
  }

  ghost predicate PlanOk<K(!new), V(!new)>(p: Plan<K, V>, n: nat)
  {
    && |p.dirs| == |p.kept| == |p.c| + 1 && |p.to| == |p.c| && p.kept[0] == 0
    && |p.dirs[|p.c|]| == n && p.idx < n && p.kept[|p.c|] == |p.dirs[|p.c|][p.idx]|
    && forall i :: 0 <= i < |p.c| ==> PlanStep(p, n, i)
  }

  // The split bucket is walked to its end exactly when the plan is done.
  lemma PlanGoesOn<K(!new), V(!new)>(p: Plan<K, V>, n: nat, i: nat)
    requires PlanOk(p, n) && i <= |p.c| && |p.dirs[i]| == n
    ensures i < |p.c| <==> p.kept[i] < |p.dirs[i][p.idx]|
  {
    if i < |p.c| {
      assert PlanStep(p, n, i);
    }
  }

  ghost function PlanOf<K(!new), V(!new)>(
    bs: seq<seq<Pair<K, V>>>, c: seq<Pair<K, V>>, hash: K -> nat, mask: nat, idx: nat): (p: Plan<K, V>)
    requires idx < |bs|
    ensures p.idx == idx && p.c == c && |p.to| == |c| && |p.kept| == |p.dirs| == |c| + 1
    ensures forall i :: 0 <= i < |c| ==> p.to[i] == And(hash(c[i].key), mask)
    ensures forall i :: 0 <= i <= |c| ==>
      p.kept[i] == |Stay(c[..i], hash, mask, idx)| && p.dirs[i] == Redist(bs, c, hash, mask, idx, i)
  {
    Plan(idx, c,
         seq<nat>(|c|, i requires 0 <= i < |c| => And(hash(c[i].key), mask)),
         seq<nat>(|c| + 1, i requires 0 <= i <= |c| => |Stay(c[..i], hash, mask, idx)|),
         seq(|c| + 1, i requires 0 <= i <= |c| => Redist(bs, c, hash, mask, idx, i)))
  }

  lemma MakePlan<K(!new), V(!new)>(bs: seq<seq<Pair<K, V>>>, c: seq<Pair<K, V>>, hash: K -> nat, mask: nat, idx: nat)
    returns (p: Plan<K, V>)
    requires idx < |bs| && bs[idx] == Stay(c, hash, mask, idx)
    ensures PlanOk(p, |bs|) && p.c == c && p.idx == idx
    ensures forall i :: 0 <= i < |c| ==> p.to[i] == And(hash(c[i].key), mask)
    ensures p.dirs[0] == bs[idx := c] && p.dirs[|c|] == Scatter(bs, c, hash, mask, idx)
  {
    p := PlanOf(bs, c, hash, mask, idx);
    RedistEnds(bs, c, hash, mask, idx);
    forall i | 0 <= i < |c| ensures PlanStep(p, |bs|, i) {
      RedistStep(bs, c, hash, mask, idx, i);
    }
  }

  lemma SplitSized<K(!new), V(!new)>(t: Table<K, V>)
    requires Sized(t)
    ensures Sized(Split(t))
  {
    DoublePow2(t.curr);
  }

  lemma {:induction false} GrowSized<K(!new), V(!new)>(t: Table<K, V>, k: K, n: nat)
    requires Sized(t)
    ensures Sized(Grow(t, k, n))
    decreases n
  {
    AddrBound(t, t.hash(k));
    if n > 0 && |t.buckets[Addr(t, k)]| >= t.cap {
      SplitSized(t);
      GrowSized(Split(t), k, n - 1);
    }
  }

  // insert calls split as often as it finds the bucket of k full, and n times at most: the tables
  // in between, from the one it was called on to the one it pushes the new pair in.
  lemma {:induction false} GrowTrace<K(!new), V(!new)>(t: Table<K, V>, k: K, n: nat) returns (ts: seq<Table<K, V>>)
    requires Sized(t)
    ensures 1 <= |ts| <= n + 1 && ts[0] == t && ts[|ts| - 1] == Grow(t, k, n)
    ensures forall i :: 0 <= i < |ts| ==>
      Sized(ts[i]) && (Full(ts[i], k) <==> i < |ts| - 1 || (|ts| == n + 1 && Full(ts[n], k)))
    ensures forall i :: 0 < i < |ts| ==> ts[i] == Split(ts[i - 1])
    decreases n
  {
    if n > 0 && Full(t, k) {
      SplitSized(t);
      var rest := GrowTrace(Split(t), k, n - 1);
      ts := [t] + rest;
    } else {
      ts := [t];
    }
  }
}
