/** The hash table as its users see it: a finite map. */
module MapTable {
  import opened Sequences
  import opened LinearHash
  import opened LinearHashLaws
  import opened LinearHashRuns
  import HashTable

  // ---------------------------------------------------------------- //
  // Calls on a table that holds the map m, and leave it holding n

  ghost predicate Holds<K(!new), V(!new)>(t: HashTable.HashTable<K, V>, m: map<K, V>)
    reads t, t.Repr
  {
    t.Valid() && Represents(t.Table(), m)
  }

  method TableGet<K(==, !new), V(!new)>(t: HashTable.HashTable<K, V>, ghost m: map<K, V>, key: K) returns (r: Option<V>)
    requires Holds(t, m)
    ensures r == if key in m then Some(m[key]) else None
  {
    LookupLaw(t.Table(), m, key);
    r := t.Lookup(key);
  }

  method Put<K(==, !new), V(!new)>(t: HashTable.HashTable<K, V>, ghost m: map<K, V>, key: K, val: V, ghost n: map<K, V>)
    returns (rc: int)
    requires Holds(t, m) && n == if key in m then m else m[key := val]
    modifies t, t.Repr
    ensures fresh(t.Repr - old(t.Repr))
    ensures Holds(t, n)
    ensures rc == if key in m then -1 else 0
  {
    InsertLaw(t.Table(), m, key, val);
    rc := t.Insert(key, val);
  }

  method Set<K(==, !new), V(!new)>(t: HashTable.HashTable<K, V>, ghost m: map<K, V>, key: K, val: V, ghost n: map<K, V>)
    requires Holds(t, m) && n == if key in m then m[key := val] else m
    modifies t, t.Repr
    ensures fresh(t.Repr - old(t.Repr))
    ensures Holds(t, n)
  {
    ReplaceLaw(t.Table(), m, key, val);
    t.Replace(key, val);
  }

  method Erase<K(==, !new), V(!new)>(t: HashTable.HashTable<K, V>, ghost m: map<K, V>, key: K, ghost n: map<K, V>)
    requires Holds(t, m) && n == m - {key}
    modifies t, t.Repr
    ensures fresh(t.Repr - old(t.Repr))
    ensures Holds(t, n)
  {
    RemoveLaw(t.Table(), m, key);
    t.Remove(key);
  }

  lemma KeysAre<K(!new), V(!new)>(seen: seq<Pair<K, V>>, m: map<K, V>, keys: seq<K>)
    requires UniqueKeys(seen) && forall p :: p in seen <==> p.key in m && m[p.key] == p.val
    requires |keys| == |seen| && forall j :: 0 <= j < |keys| ==> keys[j] == seen[j].key
    ensures NoDup(keys) && forall k :: k in keys <==> k in m
  {
    forall k ensures k in keys <==> k in m {
      if k in m {
        assert Pair(k, m[k]) in seen;
        var i :| 0 <= i < |seen| && seen[i] == Pair(k, m[k]);
        assert keys[i] == k;
      }
      if k in keys {
        var i :| 0 <= i < |keys| && keys[i] == k;
        assert seen[i] in seen;
      }
    }
  }

  method KeysOf<K(!new), V(!new)>(seen: seq<Pair<K, V>>) returns (keys: seq<K>)
    ensures |keys| == |seen| && forall j :: 0 <= j < |keys| ==> keys[j] == seen[j].key
  {
    keys := [];
    for i := 0 to |seen|
      invariant |keys| == i
      invariant forall j :: 0 <= j < i ==> keys[j] == seen[j].key
    {
      keys := keys + [seen[i].key];
    }
  }

  method TableKeys<K(==, !new), V(!new)>(t: HashTable.HashTable<K, V>, ghost m: map<K, V>) returns (keys: seq<K>)
    requires Holds(t, m)
    ensures NoDup(keys) && |keys| == |m|
    ensures forall k :: k in keys <==> k in m
  {
    FlatIsMap(t.Table(), m);
    var seen := t.Visit();
    keys := KeysOf(seen);
    KeysAre(seen, m, keys);
  }

  // ---------------------------------------------------------------- //
  // The table and its map as one object

  class MapTable<K(==, !new), V(!new)> {
    const table: HashTable.HashTable<K, V>
    ghost var contents: map<K, V>
    ghost var Repr: set<object>

    ghost predicate Valid()
      reads this, Repr
    {
      && this in Repr && table in Repr && table.Repr <= Repr && this !in table.Repr
      && Holds(table, contents)
    }

    constructor (hash: K -> nat, rank: (K, K) -> int, size: nat, capa: nat)
      requires forall a, b :: rank(a, b) == 0 <==> a == b
      ensures Valid() && fresh(Repr) && contents == map[]
    {
      var t := new HashTable.HashTable(hash, rank, size, capa);
      InitLaw<K, V>(hash, size, capa);
      table, contents := t, map[];
      Repr := {this, t} + t.Repr;
    }

    method Get(key: K) returns (r: Option<V>)
      requires Valid()
      ensures r == if key in contents then Some(contents[key]) else None
    {
      r := TableGet(table, contents, key);
    }

    method Insert(key: K, val: V) returns (rc: int)
      requires Valid()
      modifies Repr
      ensures Valid()
      ensures fresh(Repr - old(Repr))
      ensures contents == if key in old(contents) then old(contents) else old(contents)[key := val]
      ensures rc == if key in old(contents) then -1 else 0
    {
      ghost var n := if key in contents then contents else contents[key := val];
      rc := Put(table, contents, key, val, n);
      contents := n;
      Repr := Repr + table.Repr;
    }

    method Replace(key: K, val: V)
      requires Valid()
      modifies Repr
      ensures Valid()
      ensures fresh(Repr - old(Repr))
      ensures contents == if key in old(contents) then old(contents)[key := val] else old(contents)
    {
      ghost var n := if key in contents then contents[key := val] else contents;
      Set(table, contents, key, val, n);
      contents := n;
      assert Holds(table, contents);
      Repr := Repr + table.Repr;
    }

    method Remove(key: K)
      requires Valid()
      modifies Repr
      ensures Valid()
      ensures fresh(Repr - old(Repr))
      ensures contents == old(contents) - {key}
    {
      ghost var n := contents - {key};
      Erase(table, contents, key, n);
      contents := n;
      assert Holds(table, contents);
      Repr := Repr + table.Repr;
    }

    // The keys, as a cursor meets them.
    method Keys() returns (keys: seq<K>)
      requires Valid()
      ensures NoDup(keys) && |keys| == |contents|
      ensures forall k :: k in keys <==> k in contents
    {
      keys := TableKeys(table, contents);
    }
  }
}
