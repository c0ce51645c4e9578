/** The operations of RDI_EventType on sequences (include/RDIEvent.h), as they run: in place, with
    bitmaps for what is marked.  Each is proved to compute the sequence SubscriptionLaws or EventType
    speaks of. */
module Subscription {
  import opened EventType
  import opened SubscriptionLaws
  import opened Bitmap

  // CosN::EventTypeSeq
  class TypeSeq {
    var elts: seq<EventType>

    constructor (elts: seq<EventType>)
      ensures this.elts == elts
    {
      this.elts := elts;
    }

    // length(n), when it cuts the sequence
    method Truncate(n: nat)
      requires n <= |elts|
      modifies this
      ensures elts == old(elts)[..n]
    {
      elts := elts[..n];
    }
  }

  // ---------------------------------------------------------------- //
  // Marking what goes and what is there already

  method MarkDeleted(orgnl: Types, deled: Types) returns (otmap: Bitmap)
    ensures fresh(otmap) && fresh(otmap.bits) && otmap.Valid() && otmap.nbit == |orgnl|
    ensures forall iz: nat :: iz in otmap.Members() <==> iz < |orgnl| && orgnl[iz] in deled
  {
    otmap := new Bitmap(|orgnl|);
    for iz := 0 to |orgnl|
      invariant otmap.Valid() && otmap.nbit == |orgnl| && fresh(otmap.bits)
      invariant forall k: nat :: k in otmap.Members() <==> k < iz && orgnl[k] in deled
    {
      for ix := 0 to |deled|
        invariant otmap.Valid() && otmap.nbit == |orgnl| && fresh(otmap.bits)
        invariant forall k: nat :: k in otmap.Members() <==>
          (k < iz && orgnl[k] in deled) || (k == iz && orgnl[k] in deled[..ix])
      {
        if orgnl[iz] == deled[ix] {
          otmap.Set(iz, 1);
        }
      }
      assert deled[..|deled|] == deled;
    }
  }

  // The places before n that hold x.
  ghost function Hits(s: Types, x: EventType, n: nat): (r: set<nat>)
    requires n <= |s|
    ensures forall k: nat :: k in r <==> k < n && s[k] == x
  {
    set k: nat | k < n && s[k] == x
  }

  ghost function If(c: bool, k: nat): set<nat> {
    if c then {k} else {}
  }

  // One original and one added type: if they are equal, the added one is marked and the deletion of
  // the original one unmarked.
  method MarkPair(x: EventType, iz: nat, y: EventType, ix: nat, otmap: Bitmap, ntmap: Bitmap)
    requires otmap.Valid() && iz < otmap.nbit && ntmap.Valid() && ix < ntmap.nbit && otmap.bits != ntmap.bits
    modifies otmap.bits, ntmap.bits
    ensures otmap.Members() == old(otmap.Members()) - If(x == y, iz)
    ensures ntmap.Members() == old(ntmap.Members()) + If(x == y, ix)
  {
    if x == y {
      ntmap.Set(ix, 1);
      assert Interval(ix, ix + 1) == {ix};
      if otmap.IsSet(iz) {
        otmap.Clear(iz, 1);
        assert Interval(iz, iz + 1) == {iz};
      }
    }
  }

  // From the marks (o, n), an original type x at iz and the first ix added types lead to (o', n').
  ghost predicate Marked(
    o: set<nat>, n: set<nat>, x: EventType, iz: nat, added: Types, ix: nat, o': set<nat>, n': set<nat>)
    requires ix <= |added|
  {
    o' == o - If(x in added[..ix], iz) && n' == n + Hits(added, x, ix)
  }

  lemma MarkedNext(o: set<nat>, n: set<nat>, x: EventType, iz: nat, added: Types, ix: nat, o': set<nat>, n': set<nat>)
    requires ix < |added| && Marked(o, n, x, iz, added, ix, o', n')
    ensures Marked(o, n, x, iz, added, ix + 1, o' - If(x == added[ix], iz), n' + If(x == added[ix], ix))
  {
    assert x in added[..ix + 1] <==> x in added[..ix] || x == added[ix];
    assert Hits(added, x, ix + 1) == Hits(added, x, ix) + If(x == added[ix], ix);
  }

  // The inner loop for one original type.
  method MarkOne(x: EventType, iz: nat, added: Types, otmap: Bitmap, ntmap: Bitmap)
    requires otmap.Valid() && iz < otmap.nbit && ntmap.Valid() && ntmap.nbit == |added| && otmap.bits != ntmap.bits
    modifies otmap.bits, ntmap.bits
    ensures Marked(old(otmap.Members()), old(ntmap.Members()), x, iz, added, |added|, otmap.Members(), ntmap.Members())
  {
    ghost var o, n := otmap.Members(), ntmap.Members();
    for ix := 0 to |added|
      invariant Marked(o, n, x, iz, added, ix, otmap.Members(), ntmap.Members())
    {
      MarkedNext(o, n, x, iz, added, ix, otmap.Members(), ntmap.Members());
      MarkPair(x, iz, added[ix], ix, otmap, ntmap);
    }
  }

  // From the marks o, the first iz original types lead to (o', n').
  ghost predicate MarkedAll(o: set<nat>, orgnl: Types, iz: nat, added: Types, o': set<nat>, n': set<nat>)
    requires iz <= |orgnl|
  {
    && (forall k: nat :: k in o' <==> k in o && (k < iz ==> orgnl[k] !in added))
    && (forall k: nat :: k in n' <==> k < |added| && added[k] in orgnl[..iz])
  }

  lemma MarkedAllNext(
    o: set<nat>, orgnl: Types, iz: nat, added: Types, o': set<nat>, n': set<nat>, o'': set<nat>, n'': set<nat>)
    requires iz < |orgnl| && MarkedAll(o, orgnl, iz, added, o', n')
    requires Marked(o', n', orgnl[iz], iz, added, |added|, o'', n'')
    ensures MarkedAll(o, orgnl, iz + 1, added, o'', n'')
  {
    assert added[..|added|] == added;
    assert forall x :: x in orgnl[..iz + 1] <==> x in orgnl[..iz] || x == orgnl[iz];
  }

  method MarkAdded(orgnl: Types, added: Types, otmap: Bitmap) returns (ntmap: Bitmap)
    requires otmap.Valid() && otmap.nbit == |orgnl|
    modifies otmap.bits
    ensures fresh(ntmap) && fresh(ntmap.bits) && ntmap.Valid() && ntmap.nbit == |added|
    ensures MarkedAll(old(otmap.Members()), orgnl, |orgnl|, added, otmap.Members(), ntmap.Members())
  {
    ntmap := new Bitmap(|added|);
    ghost var o := otmap.Members();
    for iz := 0 to |orgnl|
      invariant ntmap.Valid() && ntmap.nbit == |added| && fresh(ntmap.bits)
      invariant MarkedAll(o, orgnl, iz, added, otmap.Members(), ntmap.Members())
    {
      ghost var o', n' := otmap.Members(), ntmap.Members();
      MarkOne(orgnl[iz], iz, added, otmap, ntmap);
      MarkedAllNext(o, orgnl, iz, added, o', n', otmap.Members(), ntmap.Members());
    }
  }

  // Both maps: the types that go, and the added types the original has.
  method Mark(orgnl: Types, added: Types, deled: Types) returns (otmap: Bitmap, ntmap: Bitmap)
    ensures fresh(otmap) && fresh(otmap.bits) && otmap.Valid() && otmap.nbit == |orgnl|
    ensures fresh(ntmap) && fresh(ntmap.bits) && ntmap.Valid() && ntmap.nbit == |added|
    ensures forall iz: nat :: iz in otmap.Members() <==> iz < |orgnl| && Dropped(orgnl[iz], added, deled)
    ensures forall ix: nat :: ix in ntmap.Members() <==> ix < |added| && added[ix] in orgnl
  {
    otmap := MarkDeleted(orgnl, deled);
    ntmap := MarkAdded(orgnl, added, otmap);
    assert orgnl[..|orgnl|] == orgnl;
  }

  // ---------------------------------------------------------------- //
  // The delta, and the update in place

  method ComputeDiff(orgnl: Types, added: Types, deled: Types, toadd: TypeSeq, todel: TypeSeq)
    requires toadd != todel
    modifies toadd, todel
    ensures (toadd.elts, todel.elts) == Diff(orgnl, added, deled)
  {
    toadd.elts, todel.elts := [], [];
    var otmap, ntmap := Mark(orgnl, added, deled);
    for iz := 0 to |orgnl|
      modifies todel
      invariant todel.elts == Gone(orgnl[..iz], added, deled)
    {
      FilterNext(orgnl, iz, (x: EventType) => Dropped(x, added, deled));
      if otmap.IsSet(iz) {
        todel.elts := todel.elts + [orgnl[iz]];
      }
    }
    assert orgnl[..|orgnl|] == orgnl;
    AddNew(orgnl, added, ntmap, toadd);
    assert [] + Extra(orgnl, added) == Extra(orgnl, added);
  }

  // The map marks the entries that do not stay.
  ghost predicate Marks(otmap: Bitmap, o: Types, stays: EventType -> bool)
    reads otmap, otmap.bits
  {
    && otmap.Valid() && otmap.nbit == |o|
    && forall iz: nat :: iz < |o| ==> (iz in otmap.Members() <==> !stays(o[iz]))
  }

  // The first iz added types are looked at, and those that stay appended.
  predicate Appended(e: Types, e0: Types, added: Types, iz: nat, stays: EventType -> bool) {
    iz <= |added| && e == e0 + Filter(added[..iz], stays)
  }

  lemma AppendedNext(e: Types, e0: Types, added: Types, iz: nat, stays: EventType -> bool)
    requires iz < |added| && Appended(e, e0, added, iz, stays)
    ensures Appended(if stays(added[iz]) then e + [added[iz]] else e, e0, added, iz + 1, stays)
  {
    FilterNext(added, iz, stays);
  }

  lemma AppendedEnds(e: Types, e0: Types, added: Types, stays: EventType -> bool)
    ensures Appended(e0, e0, added, 0, stays)
    ensures Appended(e, e0, added, |added|, stays) ==> e == e0 + Filter(added, stays)
  {
    assert added[..|added|] == added && added[..0] == [];
  }

  // Append the added types that are not marked as there already.
  method AddNew(ghost orgnl: Types, added: Types, ntmap: Bitmap, ts: TypeSeq)
    requires ntmap.Valid() && ntmap.nbit == |added|
    requires forall ix: nat :: ix in ntmap.Members() <==> ix < |added| && added[ix] in orgnl
    modifies ts
    ensures ts.elts == old(ts.elts) + Extra(orgnl, added)
  {
    ghost var extra := (x: EventType) => x !in orgnl;
    AppendMarked(added, ntmap, ts, extra);
    FilterSame(added, extra, (x: EventType) => x !in orgnl);
  }

  method AppendMarked(added: Types, ntmap: Bitmap, ts: TypeSeq, ghost stays: EventType -> bool)
    requires Marks(ntmap, added, stays)
    modifies ts
    ensures ts.elts == old(ts.elts) + Filter(added, stays)
  {
    ghost var e0 := ts.elts;
    AppendedEnds(e0, e0, added, stays);
    for iz := 0 to |added|
      modifies ts
      invariant Appended(ts.elts, e0, added, iz, stays)
    {
      AppendedNext(ts.elts, e0, added, iz, stays);
      if ntmap.IsClear(iz) {
        ts.elts := ts.elts + [added[iz]];
      }
    }
    AppendedEnds(ts.elts, e0, added, stays);
  }

  // Before ix are the entries that stay of those before iz; from iz on nothing has moved.
  predicate Shifted(e: Types, o: Types, ix: nat, iz: nat, stays: EventType -> bool) {
    ix < iz <= |e| == |o| && e[..ix] == Filter(o[..iz], stays) && e[iz..] == o[iz..]
  }

  lemma ShiftNext(e: Types, o: Types, ix: nat, iz: nat, stays: EventType -> bool)
    requires iz < |e| && Shifted(e, o, ix, iz, stays)
    ensures if stays(o[iz]) then Shifted(e[ix := e[iz]], o, ix + 1, iz + 1, stays) else Shifted(e, o, ix, iz + 1, stays)
  {
    FilterNext(o, iz, stays);
    assert e[iz] == e[iz..][0] == o[iz];
    assert e[iz + 1..] == e[iz..][1..];
    assert e[ix := e[iz]][..ix + 1] == e[..ix] + [e[iz]];
    assert e[ix := e[iz]][iz + 1..] == e[iz + 1..];
  }

  // One entry: moved down if it stays.
  method ShiftOne(orgnl: TypeSeq, ix: nat, iz: nat, otmap: Bitmap, ghost o: Types, ghost stays: EventType -> bool)
    returns (next: nat)
    requires Shifted(orgnl.elts, o, ix, iz, stays)
    requires Marks(otmap, o, stays) && iz < |o|
    modifies orgnl
    ensures Shifted(orgnl.elts, o, next, iz + 1, stays)
  {
    ShiftNext(orgnl.elts, o, ix, iz, stays);
    next := ix;
    if otmap.IsClear(iz) {
      orgnl.elts := orgnl.elts[ix := orgnl.elts[iz]];
      next := ix + 1;
    }
  }

  lemma ShiftedEnds(e: Types, o: Types, ix: nat, stays: EventType -> bool)
    ensures ix < |o| && Filter(o[..ix + 1], stays) == o[..ix] ==> Shifted(o, o, ix, ix + 1, stays)
    ensures Shifted(e, o, ix, |o|, stays) ==> |e| == |o| && ix <= |o| && e[..ix] == Filter(o, stays)
  {
    assert o[..|o|] == o;
  }

  // Shift the entries that stay over those that go, from the first that goes on.  The entries before
  // the result are then the ones that stay.
  method Shift(orgnl: TypeSeq, first: nat, otmap: Bitmap, ghost stays: EventType -> bool) returns (ix: nat)
    requires Marks(otmap, orgnl.elts, stays) && Shifted(orgnl.elts, orgnl.elts, first, first + 1, stays)
    modifies orgnl
    ensures Shifted(orgnl.elts, old(orgnl.elts), ix, old(|orgnl.elts|), stays)
  {
    ghost var o := orgnl.elts;
    ix := first;
    for iz := ix + 1 to |orgnl.elts|
      modifies orgnl
      invariant Marks(otmap, o, stays)
      invariant Shifted(orgnl.elts, o, ix, iz, stays)
    {
      ix := ShiftOne(orgnl, ix, iz, otmap, o, stays);
    }
  }

  // Drop the marked entries, in place.
  method Compact(orgnl: TypeSeq, added: Types, deled: Types, otmap: Bitmap)
    requires otmap.Valid() && otmap.nbit == |orgnl.elts|
    requires forall iz: nat :: iz in otmap.Members() <==> iz < |orgnl.elts| && Dropped(orgnl.elts[iz], added, deled)
    modifies orgnl
    ensures orgnl.elts == Keep(old(orgnl.elts), added, deled)
  {
    ghost var stays := (x: EventType) => !Dropped(x, added, deled);
    FilterSame(orgnl.elts, stays, (x: EventType) => !Dropped(x, added, deled));
    var numSet := otmap.NumSet();
    if numSet != 0 {
      var first := otmap.FirstSet(0);
      assert |otmap.Members()| > 0;
      FilterAll(orgnl.elts[..first], stays);
      FilterNext(orgnl.elts, first, stays);
      ghost var o := orgnl.elts;
      ShiftedEnds(o, o, first, stays);
      var ix := Shift(orgnl, first, otmap, stays);
      ShiftedEnds(orgnl.elts, o, ix, stays);
      orgnl.Truncate(ix);
    } else {
      FilterAll(orgnl.elts, stays);
    }
  }

  method Update(orgnl: TypeSeq, added: Types, deled: Types)
    modifies orgnl
    ensures orgnl.elts == SubscriptionLaws.Update(old(orgnl.elts), added, deled)
  {
    var otmap, ntmap := Mark(orgnl.elts, added, deled);
    ghost var o := orgnl.elts;
    Compact(orgnl, added, deled, otmap);
    AddNew(o, added, ntmap, orgnl);
  }

  // ---------------------------------------------------------------- //
  // Validation

  // One type: the wildcard spellings rewritten, and whether what they leave is acceptable.
  method ValidOne(tseq: TypeSeq, ix: nat) returns (ok: bool)
    requires ix < |tseq.elts|
    modifies tseq
    ensures tseq.elts == old(tseq.elts)[ix := Rewrite(old(tseq.elts)[ix])]
    ensures ok <==> Acceptable(old(tseq.elts)[ix])
  {
    if |tseq.elts[ix].name| == 0 {
      tseq.elts := tseq.elts[ix := tseq.elts[ix].(name := "*")];
    }
    if |tseq.elts[ix].domain| == 0 {
      tseq.elts := tseq.elts[ix := tseq.elts[ix].(domain := "*")];
    }
    if tseq.elts[ix].name == "%ALL" {
      if tseq.elts[ix].domain != "*" {
        return false;
      }
      tseq.elts := tseq.elts[ix := tseq.elts[ix].(name := "*")];
    }
    if |tseq.elts[ix].name| > 1 && '*' in tseq.elts[ix].name {
      return false;
    }
    if |tseq.elts[ix].domain| > 1 && '*' in tseq.elts[ix].domain {
      return false;
    }
    return true;
  }

  lemma RewriteNext(o: Types, ix: nat)
    requires ix < |o|
    ensures var done := RewriteSeq(o)[..ix] + o[ix..];
      |done| == |o| && done[ix] == o[ix] && done[ix := Rewrite(o[ix])] == RewriteSeq(o)[..ix + 1] + o[ix + 1..]
    ensures AcceptableSeq(o[..ix + 1]) <==> AcceptableSeq(o[..ix]) && Acceptable(o[ix])
  {
    assert o[..ix + 1] == o[..ix] + [o[ix]];
  }

  lemma RewriteSeqMeans(o: Types)
    requires AcceptableSeq(o)
    ensures forall i :: 0 <= i < |o| ==> WellSpelled(o[i])
    ensures forall i, domain, name :: 0 <= i < |o| && Concrete(domain, name) ==>
      (Matches(RewriteSeq(o)[i], domain, name) <==>
         o[i].domain in {"", "*", domain} && o[i].name in {"", "*", "%ALL", name})
  {
    forall i | 0 <= i < |o| ensures WellSpelled(o[i]) {
      AcceptableExactly(o[i]);
    }
    forall i, domain, name | 0 <= i < |o| && Concrete(domain, name)
      ensures Matches(RewriteSeq(o)[i], domain, name) <==>
        o[i].domain in {"", "*", domain} && o[i].name in {"", "*", "%ALL", name}
    {
      RewriteMeans(o[i], domain, name);
    }
  }

  // Rewrites the types one by one and stops at the first it does not accept, leaving that one
  // rewritten and the rest as they were.  What an accepted type stands for is what it was spelled as.
  method ValidSequence(tseq: TypeSeq) returns (ok: bool, invalidIndex: nat)
    modifies tseq
    ensures ok ==> AcceptableSeq(old(tseq.elts))
    ensures ok ==> tseq.elts == RewriteSeq(old(tseq.elts)) && NormalSeq(tseq.elts)
    ensures !ok ==> invalidIndex < |old(tseq.elts)| && !Acceptable(old(tseq.elts)[invalidIndex])
    ensures !ok ==> AcceptableSeq(old(tseq.elts)[..invalidIndex])
    ensures !ok ==> tseq.elts == RewriteSeq(old(tseq.elts))[..invalidIndex + 1] + old(tseq.elts)[invalidIndex + 1..]
    ensures ok <==> forall i :: 0 <= i < old(|tseq.elts|) ==> WellSpelled(old(tseq.elts)[i])
    ensures ok ==> forall i, domain, name :: 0 <= i < |tseq.elts| && Concrete(domain, name) ==>
      (Matches(tseq.elts[i], domain, name) <==>
         old(tseq.elts)[i].domain in {"", "*", domain} && old(tseq.elts)[i].name in {"", "*", "%ALL", name})
  {
    invalidIndex := 0;
    ghost var o := tseq.elts;
    for ix := 0 to |tseq.elts|
      modifies tseq
      invariant AcceptableSeq(o[..ix])
      invariant tseq.elts == RewriteSeq(o)[..ix] + o[ix..]
    {
      RewriteNext(o, ix);
      var valid := ValidOne(tseq, ix);
      if !valid {
        AcceptableExactly(o[ix]);
        assert !WellSpelled(o[ix]);
        return false, ix;
      }
    }
    assert o[..|o|] == o;
    RewriteSeqNormal(o);
    RewriteSeqMeans(o);
    return true, invalidIndex;
  }

  method ExternalizeSequence(tseq: TypeSeq)
    modifies tseq
    ensures tseq.elts == ExternalizeSeq(old(tseq.elts))
    ensures EventType("*", "*") !in tseq.elts && |tseq.elts| == old(|tseq.elts|)
    ensures forall i :: 0 <= i < |tseq.elts| ==>
      tseq.elts[i] == if old(tseq.elts)[i] == EventType("*", "*") then EventType("", "%ALL") else old(tseq.elts)[i]
  {
    ghost var o := tseq.elts;
    for ix := 0 to |tseq.elts|
      modifies tseq
      invariant |tseq.elts| == |o|
      invariant forall i :: 0 <= i < ix ==> tseq.elts[i] == Externalize(o[i])
      invariant forall i :: ix <= i < |o| ==> tseq.elts[i] == o[i]
    {
      if tseq.elts[ix].domain == "*" && tseq.elts[ix].name == "*" {
        tseq.elts := tseq.elts[ix := EventType("", "%ALL")];
      }
    }
  }
}
