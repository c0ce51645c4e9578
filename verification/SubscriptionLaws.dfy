/** Subscription changes on sequences of event types (include/RDIEvent.h), as values: what is added,
    what is deleted, and the sequence they leave.  An added type is never deleted, whatever the list
    of deletions says. */
module SubscriptionLaws {
  import opened EventType
  import opened Sequences

  // ---------------------------------------------------------------- //
  // Filtering

  function Filter<T(!new)>(s: seq<T>, p: T -> bool): seq<T> {
    if s == [] then []
    else
      var rest := Filter(s[..|s| - 1], p);
      if p(s[|s| - 1]) then rest + [s[|s| - 1]] else rest
  }

  lemma FilterNext<T(!new)>(s: seq<T>, i: nat, p: T -> bool)
    requires i < |s|
    ensures Filter(s[..i + 1], p) == Filter(s[..i], p) + (if p(s[i]) then [s[i]] else [])
  {
    assert s[..i + 1][..i] == s[..i];
  }

  lemma {:induction false} FilterIn<T(!new)>(s: seq<T>, p: T -> bool)
    ensures forall x :: x in Filter(s, p) <==> x in s && p(x)
    ensures |Filter(s, p)| <= |s|
  {
    if s != [] {
      var d := s[..|s| - 1];
      FilterIn(d, p);
      assert forall x :: x in s <==> x in d || x == s[|s| - 1];
    }
  }

  lemma {:induction false} FilterSame<T(!new)>(s: seq<T>, p: T -> bool, q: T -> bool)
    requires forall x :: x in s ==> p(x) == q(x)
    ensures Filter(s, p) == Filter(s, q)
  {
    if s != [] {
      FilterSame(s[..|s| - 1], p, q);
    }
  }

  lemma {:induction false} FilterAll<T(!new)>(s: seq<T>, p: T -> bool)
    requires forall x :: x in s ==> p(x)
    ensures Filter(s, p) == s
  {
    if s != [] {
      FilterAll(s[..|s| - 1], p);
    }
  }

  lemma {:induction false} FilterNone<T(!new)>(s: seq<T>, p: T -> bool)
    requires forall x :: x in s ==> !p(x)
    ensures Filter(s, p) == []
  {
    if s != [] {
      FilterNone(s[..|s| - 1], p);
    }
  }

  lemma {:induction false} FilterConcat<T(!new)>(s: seq<T>, t: seq<T>, p: T -> bool)
    ensures Filter(s + t, p) == Filter(s, p) + Filter(t, p)
  {
    if t == [] {
      assert s + t == s;
    } else {
      assert (s + t)[..|s + t| - 1] == s + t[..|t| - 1];
      FilterConcat(s, t[..|t| - 1], p);
    }
  }

  // A filter keeps an element with all its occurrences or none.
  lemma {:induction false} FilterCount<T(!new)>(s: seq<T>, p: T -> bool, x: T)
    ensures multiset(Filter(s, p))[x] == if p(x) then multiset(s)[x] else 0
  {
    if s != [] {
      var d, last := s[..|s| - 1], s[|s| - 1];
      FilterCount(d, p, x);
      assert s == d + [last];
    }
  }

  // A sequence is what a filter keeps and what it drops.
  lemma FilterSplit<T(!new)>(s: seq<T>, p: T -> bool, q: T -> bool)
    requires forall x :: x in s ==> q(x) == !p(x)
    ensures multiset(Filter(s, p)) + multiset(Filter(s, q)) == multiset(s)
  {
    forall x ensures (multiset(Filter(s, p)) + multiset(Filter(s, q)))[x] == multiset(s)[x] {
      FilterCount(s, p, x);
      FilterCount(s, q, x);
      assert x !in s ==> multiset(s)[x] == 0;
    }
  }

  lemma NoDupConcat<T(!new)>(s: seq<T>, t: seq<T>)
    requires NoDup(s) && NoDup(t) && forall x :: x in s ==> x !in t
    ensures NoDup(s + t)
  {
    forall i, j | 0 <= i < j < |s + t| ensures (s + t)[i] != (s + t)[j] {
      if i < |s| <= j {
        assert s[i] in s && t[j - |s|] in t;
      }
    }
  }

  lemma {:induction false} FilterNoDup<T(!new)>(s: seq<T>, p: T -> bool)
    requires NoDup(s)
    ensures NoDup(Filter(s, p))
  {
    if s != [] {
      var d, last := s[..|s| - 1], s[|s| - 1];
      FilterNoDup(d, p);
      FilterIn(d, p);
      if p(last) {
        NoDupConcat(Filter(d, p), [last]);
      }
    }
  }

  // ---------------------------------------------------------------- //
  // The change

  type Types = seq<EventType>

  predicate Dropped(x: EventType, added: Types, deled: Types) {
    x in deled && x !in added
  }

  // The types of the original that stay, those that go, and the added ones it does not have.
  function Keep(o: Types, added: Types, deled: Types): Types {
    Filter(o, (x: EventType) => !Dropped(x, added, deled))
  }

  function Gone(o: Types, added: Types, deled: Types): Types {
    Filter(o, (x: EventType) => Dropped(x, added, deled))
  }

  function Extra(o: Types, added: Types): Types {
    Filter(added, (x: EventType) => x !in o)
  }

  function Update(o: Types, added: Types, deled: Types): Types {
    Keep(o, added, deled) + Extra(o, added)
  }

  // (toadd, todel) of compute_diff
  function Diff(o: Types, added: Types, deled: Types): (Types, Types) {
    (Extra(o, added), Gone(o, added, deled))
  }

  // As a set: the original without the deleted, and the added.
  lemma UpdateMembers(o: Types, added: Types, deled: Types)
    ensures forall x :: x in Update(o, added, deled) <==> (x in o && x !in deled) || x in added
  {
    FilterIn(o, (x: EventType) => !Dropped(x, added, deled));
    FilterIn(added, (x: EventType) => x !in o);
  }

  lemma DiffMembers(o: Types, added: Types, deled: Types)
    ensures var (toadd, todel) := Diff(o, added, deled);
      && (forall x :: x in toadd <==> x in added && x !in o)
      && (forall x :: x in todel <==> x in o && x in deled && x !in added)
  {
    FilterIn(o, (x: EventType) => Dropped(x, added, deled));
    FilterIn(added, (x: EventType) => x !in o);
  }

  // The delta is faithful: it leads to the same sequence as the change it was computed from, and
  // that sequence is the original without todel, followed by toadd.
  lemma DiffIsFaithful(o: Types, added: Types, deled: Types)
    ensures var (toadd, todel) := Diff(o, added, deled);
      && Update(o, toadd, todel) == Update(o, added, deled)
      && Update(o, added, deled) == Filter(o, (x: EventType) => x !in todel) + toadd
  {
    var (toadd, todel) := Diff(o, added, deled);
    DiffMembers(o, added, deled);
    FilterSame(o, (x: EventType) => !Dropped(x, toadd, todel), (x: EventType) => !Dropped(x, added, deled));
    FilterSame(o, (x: EventType) => x !in todel, (x: EventType) => !Dropped(x, added, deled));
    FilterAll(toadd, (x: EventType) => x !in o);
  }

  // The same change again changes nothing.
  lemma UpdateIdempotent(o: Types, added: Types, deled: Types)
    ensures Update(Update(o, added, deled), added, deled) == Update(o, added, deled)
  {
    var u := Update(o, added, deled);
    UpdateMembers(o, added, deled);
    FilterAll(u, (x: EventType) => !Dropped(x, added, deled));
    FilterNone(added, (x: EventType) => x !in u);
  }

  lemma UpdateNoDup(o: Types, added: Types, deled: Types)
    requires NoDup(o) && NoDup(added)
    ensures NoDup(Update(o, added, deled))
  {
    FilterNoDup(o, (x: EventType) => !Dropped(x, added, deled));
    FilterNoDup(added, (x: EventType) => x !in o);
    FilterIn(o, (x: EventType) => !Dropped(x, added, deled));
    FilterIn(added, (x: EventType) => x !in o);
    NoDupConcat(Keep(o, added, deled), Extra(o, added));
  }

  // Taking off a tail that shares nothing with what is before it, and putting on another.
  lemma UndoIs(stay: Types, tail: Types, other: Types)
    requires forall x :: x in stay ==> x !in tail && x !in other
    requires forall x :: x in tail ==> x !in other
    ensures Update(stay + tail, other, tail) == stay + other
  {
    var keeps := (x: EventType) => !Dropped(x, other, tail);
    FilterConcat(stay, tail, keeps);
    FilterAll(stay, keeps);
    FilterNone(tail, keeps);
    FilterAll(other, (x: EventType) => x !in stay + tail);
    assert stay + [] == stay;
  }

  // Swapping the delta's two halves undoes it: the original comes back but for its order, with
  // every duplicate it had.
  lemma DiffUndoes(o: Types, added: Types, deled: Types)
    ensures var (toadd, todel) := Diff(o, added, deled);
      multiset(Update(Update(o, toadd, todel), todel, toadd)) == multiset(o)
  {
    var (toadd, todel) := Diff(o, added, deled);
    var u := Update(o, toadd, todel);
    var stays := (x: EventType) => x !in todel;
    DiffMembers(o, added, deled);
    DiffIsFaithful(o, added, deled);
    FilterIn(o, stays);
    UndoIs(Filter(o, stays), toadd, todel);
    FilterSplit(o, stays, (x: EventType) => Dropped(x, added, deled));
  }

  // ---------------------------------------------------------------- //
  // The external form

  lemma ExternalizeInjective(a: EventType, b: EventType)
    requires Normal(a) && Normal(b)
    ensures Externalize(a) == Externalize(b) <==> a == b
  {
  }

  lemma ExternalizeIn(ts: Types, x: EventType)
    requires NormalSeq(ts) && Normal(x)
    ensures Externalize(x) in ExternalizeSeq(ts) <==> x in ts
  {
    var es := ExternalizeSeq(ts);
    if x in ts {
      var i :| 0 <= i < |ts| && ts[i] == x;
      assert es[i] == Externalize(x);
    }
    if Externalize(x) in es {
      var i :| 0 <= i < |es| && es[i] == Externalize(x);
      ExternalizeInjective(ts[i], x);
    }
  }

  lemma {:induction false} FilterExternal(s: Types, p: EventType -> bool, q: EventType -> bool)
    requires forall x :: x in s ==> q(Externalize(x)) == p(x)
    ensures Filter(ExternalizeSeq(s), q) == ExternalizeSeq(Filter(s, p))
  {
    if s != [] {
      var d := s[..|s| - 1];
      FilterExternal(d, p, q);
      assert ExternalizeSeq(s)[..|s| - 1] == ExternalizeSeq(d);
    }
  }

  lemma KeepExternal(o: Types, added: Types, deled: Types)
    requires NormalSeq(o) && NormalSeq(added) && NormalSeq(deled)
    ensures Keep(ExternalizeSeq(o), ExternalizeSeq(added), ExternalizeSeq(deled)) ==
      ExternalizeSeq(Keep(o, added, deled))
  {
    var xa, xd := ExternalizeSeq(added), ExternalizeSeq(deled);
    forall x | x in o ensures Dropped(Externalize(x), xa, xd) == Dropped(x, added, deled) {
      ExternalizeIn(added, x);
      ExternalizeIn(deled, x);
    }
    FilterExternal(o, (x: EventType) => !Dropped(x, added, deled), (x: EventType) => !Dropped(x, xa, xd));
  }

  lemma ExtraExternal(o: Types, added: Types)
    requires NormalSeq(o) && NormalSeq(added)
    ensures Extra(ExternalizeSeq(o), ExternalizeSeq(added)) == ExternalizeSeq(Extra(o, added))
  {
    var xo := ExternalizeSeq(o);
    forall x | x in added ensures Externalize(x) !in xo <==> x !in o {
      ExternalizeIn(o, x);
    }
    FilterExternal(added, (x: EventType) => x !in o, (x: EventType) => x !in xo);
  }

  // An update commutes with externalization: a list kept in the external form, from announcements in
  // the external form, is the external form of the list.
  lemma UpdateExternal(o: Types, added: Types, deled: Types)
    requires NormalSeq(o) && NormalSeq(added) && NormalSeq(deled)
    ensures Update(ExternalizeSeq(o), ExternalizeSeq(added), ExternalizeSeq(deled)) ==
      ExternalizeSeq(Update(o, added, deled))
  {
    KeepExternal(o, added, deled);
    ExtraExternal(o, added);
  }

  lemma UpdateNormal(o: Types, added: Types, deled: Types)
    requires NormalSeq(o) && NormalSeq(added)
    ensures NormalSeq(Update(o, added, deled))
  {
    var u := Update(o, added, deled);
    UpdateMembers(o, added, deled);
    forall i | 0 <= i < |u| ensures Normal(u[i]) {
      assert u[i] in u;
    }
  }
}
