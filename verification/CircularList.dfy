/** The list of include/RDISafeList.h as a value: its elements and the iterator's place among them.
    The iterator returns each element and then one null per round, while elements come and go
    between its steps. */
module CircularList {
  import opened BitAnd
  import opened Sequences

  // The list and the iterator's place in its round: elts[..pos] have had their turn in it.
  datatype Cursor<T> = Cursor(elts: seq<T>, pos: nat)

  ghost predicate Within<T>(c: Cursor<T>) {
    c.pos <= |c.elts|
  }

  // ---------------------------------------------------------------- //
  // The operations on a list with a place

  // The first position, from `from` on and round, of n positions, that holds x; |s| if none does.
  function Search<T(==)>(s: seq<T>, x: T, from: nat, n: nat): (i: nat)
    requires s != []
    ensures i <= |s| && (i < |s| ==> s[i] == x)
    decreases n
  {
    if n == 0 then |s| else if s[from % |s|] == x then from % |s| else Search(s, x, from + 1, n - 1)
  }

  function Insert<T>(c: Cursor<T>, x: T): Cursor<T> {
    Cursor(c.elts + [x], c.pos)
  }

  function RemoveAt<T>(c: Cursor<T>, i: nat): Cursor<T>
    requires i < |c.elts|
  {
    Cursor(Without(c.elts, i), if i < c.pos then c.pos - 1 else c.pos)
  }

  // The search starts at the element returned last.
  function Remove<T(==)>(c: Cursor<T>, x: T): Cursor<T>
    requires Within(c)
  {
    if c.elts == [] then c
    else
      var i := Search(c.elts, x, c.pos + |c.elts| - 1, |c.elts|);
      if i < |c.elts| then RemoveAt(c, i) else c
  }

  function Next<T>(c: Cursor<T>): (Option<T>, Cursor<T>)
    requires Within(c)
  {
    if c.pos < |c.elts| then (Some(c.elts[c.pos]), Cursor(c.elts, c.pos + 1)) else (None, Cursor(c.elts, 0))
  }

  // ---------------------------------------------------------------- //
  // Runs

  datatype Op<+T> = OpInsert(x: T) | OpRemove(x: T) | OpNext

  // The list after a call, and what the call returned: one answer for iter_next, none for the rest.
  function Step<T(==)>(c: Cursor<T>, op: Op<T>): (r: (Cursor<T>, seq<Option<T>>))
    requires Within(c)
    ensures Within(r.0)
  {
    match op
    case OpInsert(x) => (Insert(c, x), [])
    case OpRemove(x) => (Remove(c, x), [])
    case OpNext => (Next(c).1, [Next(c).0])
  }

  function Run<T(==)>(c: Cursor<T>, ops: seq<Op<T>>): (r: (Cursor<T>, seq<Option<T>>))
    requires Within(c)
    ensures Within(r.0)
    decreases |ops|
  {
    if ops == [] then (c, [])
    else
      var (d, out) := Step(c, ops[0]);
      var (e, rest) := Run(d, ops[1..]);
      (e, out + rest)
  }

  // No element is inserted that is in the list at the time.
  ghost predicate Fresh<T>(c: Cursor<T>, ops: seq<Op<T>>)
    requires Within(c)
    decreases |ops|
  {
    ops == [] || ((ops[0].OpInsert? ==> ops[0].x !in c.elts) && Fresh(Step(c, ops[0]).0, ops[1..]))
  }

  function Count<T(==)>(s: seq<T>, x: T): nat {
    if s == [] then 0 else (if s[0] == x then 1 else 0) + Count(s[1..], x)
  }

  function If(b: bool): nat {
    if b then 1 else 0
  }

  // Removals of y before its turn came.
  function Lost<T(==)>(c: Cursor<T>, ops: seq<Op<T>>, y: T): nat
    requires Within(c)
    decreases |ops|
  {
    if ops == [] then 0
    else If(ops[0] == OpRemove(y) && y in c.elts[c.pos..]) + Lost(Step(c, ops[0]).0, ops[1..], y)
  }

  lemma {:induction false} CountConcat<T>(s: seq<T>, t: seq<T>, x: T)
    ensures Count(s + t, x) == Count(s, x) + Count(t, x)
  {
    if s == [] {
      assert s + t == t;
    } else {
      assert (s + t)[1..] == s[1..] + t;
      CountConcat(s[1..], t, x);
    }
  }

  // ---------------------------------------------------------------- //
  // Removal

  lemma NoDupWithout<T>(s: seq<T>, i: nat)
    requires NoDup(s) && i < |s|
    ensures NoDup(Without(s, i)) && s[i] !in Without(s, i)
    ensures forall y :: y != s[i] ==> (y in Without(s, i) <==> y in s)
  {
    var w := Without(s, i);
    assert forall j :: 0 <= j < |w| ==> w[j] == s[if j < i then j else j + 1];
    forall y | y != s[i] && y in s ensures y in w {
      var j :| 0 <= j < |s| && s[j] == y;
      assert w[if j < i then j else j - 1] == y;
    }
  }

  lemma {:induction false} SearchMisses<T>(s: seq<T>, x: T, from: nat, n: nat, k: nat)
    requires s != [] && Search(s, x, from, n) == |s| && k < n
    ensures s[(from + k) % |s|] != x
    decreases n
  {
    if k > 0 {
      assert from + k == (from + 1) + (k - 1);
      SearchMisses(s, x, from + 1, n - 1, k - 1);
    }
  }

  // Going round from `from`, every index comes up within one round.
  lemma RoundReaches(from: nat, len: nat, i: nat) returns (k: nat)
    requires i < len
    ensures k < len && (from + k) % len == i
  {
    var q, r := from / len, from % len;
    assert from == q * len + r;
    if i >= r {
      k := i - r;
      DivModUnique(from + k, len, q, i);
    } else {
      k := i + len - r;
      assert (q + 1) * len == q * len + len;
      DivModUnique(from + k, len, q + 1, i);
    }
  }

  // A search all the way round finds an element that is there.
  lemma SearchFinds<T>(s: seq<T>, x: T, from: nat)
    requires x in s
    ensures Search(s, x, from, |s|) < |s|
  {
    var i :| 0 <= i < |s| && s[i] == x;
    var k := RoundReaches(from, |s|, i);
    if Search(s, x, from, |s|) == |s| {
      SearchMisses(s, x, from, |s|, k);
    }
  }

  // The steps a search makes before it finds x.
  function Steps<T(==)>(s: seq<T>, x: T, from: nat, n: nat): nat
    requires s != []
    decreases n
  {
    if n == 0 || s[from % |s|] == x then 0 else 1 + Steps(s, x, from + 1, n - 1)
  }

  lemma {:induction false} SearchSteps<T>(s: seq<T>, x: T, from: nat, n: nat)
    requires s != [] && Search(s, x, from, n) < |s|
    ensures Steps(s, x, from, n) < n && Search(s, x, from, n) == (from + Steps(s, x, from, n)) % |s|
    decreases n
  {
    if s[from % |s|] != x {
      SearchSteps(s, x, from + 1, n - 1);
      assert (from + 1) + Steps(s, x, from + 1, n - 1) == from + Steps(s, x, from, n);
    }
  }

  lemma {:induction false} FewestSteps<T>(s: seq<T>, x: T, from: nat, n: nat, l: nat)
    requires s != [] && l < n && s[(from + l) % |s|] == x
    ensures Steps(s, x, from, n) <= l
    decreases n
  {
    if s[from % |s|] != x {
      assert l > 0 && from + l == (from + 1) + (l - 1);
      FewestSteps(s, x, from + 1, n - 1, l - 1);
    }
  }

  // The element returned last, and how far on and round from it another stands.
  function Last<T>(c: Cursor<T>): nat
    requires c.elts != []
  {
    if c.pos == 0 then |c.elts| - 1 else c.pos - 1
  }

  ghost function Onward<T>(c: Cursor<T>, i: nat): nat
    requires Within(c) && c.elts != []
  {
    if i >= Last(c) then i - Last(c) else i + |c.elts| - Last(c)
  }

  lemma OnwardIs<T>(c: Cursor<T>, k: nat)
    requires Within(c) && c.elts != [] && k < |c.elts|
    ensures var i := (c.pos + |c.elts| - 1 + k) % |c.elts|; i < |c.elts| && Onward(c, i) == k
  {
    var n, last := |c.elts|, Last(c);
    var i := if last + k < n then last + k else last + k - n;
    var q := (if c.pos == 0 then 0 else 1) + if last + k < n then 0 else 1;
    assert q == 0 || q == 1 || q == 2;
    DivModUnique(c.pos + n - 1 + k, n, q, i);
  }

  // Of the occurrences of an element, remove takes the first from the element returned last on and round.
  lemma RemoveNearest<T>(c: Cursor<T>, x: T) returns (i: nat)
    requires Within(c) && x in c.elts
    ensures i < |c.elts| && c.elts[i] == x
    ensures Remove(c, x) == Cursor(c.elts[..i] + c.elts[i + 1..], if i < c.pos then c.pos - 1 else c.pos)
    ensures forall j :: 0 <= j < |c.elts| && c.elts[j] == x ==> Onward(c, i) <= Onward(c, j)
  {
    var from, n := c.pos + |c.elts| - 1, |c.elts|;
    SearchFinds(c.elts, x, from);
    i := Search(c.elts, x, from, n);
    SearchSteps(c.elts, x, from, n);
    OnwardIs(c, Steps(c.elts, x, from, n));
    forall j | 0 <= j < n && c.elts[j] == x ensures Onward(c, i) <= Onward(c, j) {
      var l := RoundReaches(from, n, j);
      OnwardIs(c, l);
      FewestSteps(c.elts, x, from, n, l);
    }
  }

  // The elements whose turn is to come, after a removal before the place and at or after it.
  lemma TurnsAfter<T>(c: Cursor<T>, i: nat)
    requires Within(c) && i < |c.elts|
    ensures var d := RemoveAt(c, i);
      Within(d) && d.elts[d.pos..] == if i < c.pos then c.elts[c.pos..] else Without(c.elts[c.pos..], i - c.pos)
  {
  }

  lemma RemoveAtLaw<T>(c: Cursor<T>, i: nat)
    requires Within(c) && NoDup(c.elts) && i < |c.elts|
    ensures var d := RemoveAt(c, i);
      && NoDup(d.elts) && c.elts[i] !in d.elts
      && (forall y :: y != c.elts[i] ==> (y in d.elts <==> y in c.elts))
  {
    NoDupWithout(c.elts, i);
  }

  lemma RemoveAtTurns<T>(c: Cursor<T>, i: nat)
    requires Within(c) && NoDup(c.elts) && i < |c.elts|
    ensures var d := RemoveAt(c, i);
      forall y :: y != c.elts[i] ==> (y in d.elts[d.pos..] <==> y in c.elts[c.pos..])
  {
    TurnsAfter(c, i);
    if i >= c.pos {
      NoDupWithout(c.elts[c.pos..], i - c.pos);
    }
  }

  // remove takes out exactly the entry it is given, and the others keep their turns.
  lemma RemoveLaw<T>(c: Cursor<T>, x: T)
    requires Within(c) && NoDup(c.elts)
    ensures var d := Remove(c, x);
      && NoDup(d.elts) && x !in d.elts
      && (x !in c.elts ==> d == c)
      && (forall y :: y != x ==> (y in d.elts <==> y in c.elts) && (y in d.elts[d.pos..] <==> y in c.elts[c.pos..]))
  {
    if x in c.elts {
      RemoveIs(c, x);
      RemoveAtLaw(c, IndexOf(c.elts, x));
      RemoveAtTurns(c, IndexOf(c.elts, x));
    }
  }

  // ---------------------------------------------------------------- //
  // One pass

  lemma StepBalance<T>(c: Cursor<T>, op: Op<T>, y: T)
    requires Within(c) && NoDup(c.elts)
    requires op.OpInsert? ==> op.x !in c.elts
    requires op.OpNext? ==> c.pos < |c.elts|
    ensures var (d, out) := Step(c, op);
      && NoDup(d.elts)
      && Count(out, Some(y)) + If(y in d.elts[d.pos..]) + If(op == OpRemove(y) && y in c.elts[c.pos..])
         == If(y in c.elts[c.pos..]) + If(op == OpInsert(y))
  {
    match op
    case OpInsert(x) =>
      assert Insert(c, x).elts[c.pos..] == c.elts[c.pos..] + [x];
    case OpRemove(x) =>
      RemoveLaw(c, x);
    case OpNext =>
      assert c.elts[c.pos..] == [c.elts[c.pos]] + c.elts[c.pos + 1..];
  }

  // In a stretch of calls with no null result, the returns of y, and its turns lost by removal or
  // still to come, are its turn if it had one to come and its insertions.
  lemma {:induction false} PassBalance<T>(c: Cursor<T>, ops: seq<Op<T>>, y: T)
    requires Within(c) && NoDup(c.elts) && Fresh(c, ops)
    requires None !in Run(c, ops).1
    ensures var (d, out) := Run(c, ops);
      Count(out, Some(y)) + If(y in d.elts[d.pos..]) + Lost(c, ops, y)
      == If(y in c.elts[c.pos..]) + Count(ops, OpInsert(y))
    decreases |ops|
  {
    if ops != [] {
      var (d, out) := Step(c, ops[0]);
      var (e, rest) := Run(d, ops[1..]);
      assert Run(c, ops).1 == out + rest;
      assert None !in out && None !in rest;
      if ops[0].OpNext? {
        assert out[0] in out;
      }
      StepBalance(c, ops[0], y);
      CountConcat(out, rest, Some(y));
      PassBalance(d, ops[1..], y);
    }
  }

  lemma {:induction false} MembersBalance<T>(c: Cursor<T>, ops: seq<Op<T>>, y: T)
    requires Within(c) && NoDup(c.elts) && Fresh(c, ops) && OpRemove(y) !in ops
    ensures If(y in Run(c, ops).0.elts) == If(y in c.elts) + Count(ops, OpInsert(y))
    ensures Lost(c, ops, y) == 0
    decreases |ops|
  {
    if ops != [] {
      var op := ops[0];
      if op.OpRemove? {
        RemoveLaw(c, op.x);
      }
      assert op in ops;
      MembersBalance(Step(c, op).0, ops[1..], y);
    }
  }

  // A pass is the calls from one null result up to the next.  What is in the list at its end and
  // was not taken out in it was returned in it exactly once, whatever else came and went; what is
  // not, not at all.
  lemma OncePerPass<T>(c: Cursor<T>, ops: seq<Op<T>>, y: T)
    requires Within(c) && NoDup(c.elts) && Fresh(c, ops)
    requires c.pos == 0 && None !in Run(c, ops).1 && Next(Run(c, ops).0).0 == None
    requires OpRemove(y) !in ops
    ensures Count(Run(c, ops).1, Some(y)) == If(y in Run(c, ops).0.elts)
  {
    PassBalance(c, ops, y);
    MembersBalance(c, ops, y);
    assert c.elts[0..] == c.elts;
  }

  // No element is returned more often in a pass than it had a turn to come or was inserted anew.
  lemma NeverTwice<T>(c: Cursor<T>, ops: seq<Op<T>>, y: T)
    requires Within(c) && NoDup(c.elts) && Fresh(c, ops)
    requires None !in Run(c, ops).1
    ensures Count(Run(c, ops).1, Some(y)) <= If(y in c.elts[c.pos..]) + Count(ops, OpInsert(y))
  {
    PassBalance(c, ops, y);
  }

  // The insertions count: taken out and put back in the same pass, an element has a second turn.
  lemma ReinsertedTwice<T>(y: T)
    ensures var c, ops := Cursor([y], 0), [OpNext, OpRemove(y), OpInsert(y), OpNext];
      Fresh(c, ops) && Run(c, ops).1 == [Some(y), Some(y)]
  {
    var c := Cursor([y], 0);
    var c1, c2: Cursor<T>, c3 := Cursor([y], 1), Cursor([], 0), Cursor([y], 0);
    assert Search([y], y, 1, 1) == 0;
    assert Step(c, OpNext) == (c1, [Some(y)]);
    assert Step(c1, OpRemove(y)) == (c2, []);
    assert c2.elts + [y] == [y];
    assert Step(c2, OpInsert(y)) == (c3, []);
    assert Step(c3, OpNext) == (c1, [Some(y)]);
    var o4, o3, o2, o1 := [OpNext], [OpInsert(y), OpNext], [OpRemove(y), OpInsert(y), OpNext],
      [OpNext, OpRemove(y), OpInsert(y), OpNext];
    assert o1[1..] == o2 && o2[1..] == o3 && o3[1..] == o4 && o4[1..] == [];
    assert [Some(y)] + [] == [Some(y)] && [] + [Some(y)] == [Some(y)];
    assert Run(c3, o4) == (c1, [Some(y)]);
    assert Run(c2, o3) == (c1, [Some(y)]);
    assert Run(c1, o2) == (c1, [Some(y)]);
    assert Fresh(c1, []) && Fresh(c3, o4) && Fresh(c2, o3) && Fresh(c1, o2);
  }

  // Two nulls in a row say the list is empty.
  lemma NullTwice<T>(c: Cursor<T>)
    requires Within(c)
    ensures Next(c).0 == None && Next(Next(c).1).0 == None <==> c.elts == []
  {
    if c.elts != [] && c.pos == |c.elts| {
      assert Next(Next(c).1).0 == Some(c.elts[0]);
    }
  }

  // ---------------------------------------------------------------- //
  // How long an element waits

  function IndexOf<T(==)>(s: seq<T>, x: T): (i: nat)
    requires x in s
    ensures i < |s| && s[i] == x
  {
    if s[0] == x then 0 else 1 + IndexOf(s[1..], x)
  }

  // Calls of iter_next before the one that returns x.
  function Wait<T(==)>(c: Cursor<T>, x: T): nat
    requires Within(c) && x in c.elts
  {
    var i := IndexOf(c.elts, x);
    if c.pos <= i then i - c.pos else |c.elts| - c.pos + 1 + i
  }

  ghost predicate Pending<T>(c: Cursor<T>, x: T)
    requires Within(c)
  {
    x in c.elts[c.pos..]
  }

  lemma IndexIs<T>(s: seq<T>, i: nat)
    requires NoDup(s) && i < |s|
    ensures IndexOf(s, s[i]) == i
  {
  }

  lemma PendingIndex<T>(c: Cursor<T>, x: T)
    requires Within(c) && NoDup(c.elts) && x in c.elts
    ensures Pending(c, x) <==> c.pos <= IndexOf(c.elts, x)
  {
    var i := IndexOf(c.elts, x);
    if c.pos <= i {
      assert c.elts[c.pos..][i - c.pos] == x;
    }
    if Pending(c, x) {
      var j :| 0 <= j < |c.elts| - c.pos && c.elts[c.pos..][j] == x;
      IndexIs(c.elts, c.pos + j);
    }
  }

  lemma WaitStep<T>(c: Cursor<T>, x: T)
    requires Within(c) && NoDup(c.elts) && x in c.elts
    ensures Wait(c, x) == 0 <==> Next(c).0 == Some(x)
    ensures Wait(c, x) > 0 ==> Wait(Next(c).1, x) == Wait(c, x) - 1
  {
    if c.pos < |c.elts| {
      IndexIs(c.elts, c.pos);
    }
  }

  function Nexts<T>(n: nat): seq<Op<T>> {
    if n == 0 then [] else [OpNext] + Nexts(n - 1)
  }

  // The wait is what its name says: that many calls return something else, and the next returns x.
  lemma {:induction false} WaitIsWait<T>(c: Cursor<T>, x: T)
    requires Within(c) && NoDup(c.elts) && x in c.elts
    ensures var n, out := Wait(c, x), Run(c, Nexts(Wait(c, x) + 1)).1;
      |out| == n + 1 && out[n] == Some(x) && Some(x) !in out[..n]
    decreases Wait(c, x)
  {
    var n := Wait(c, x);
    WaitStep(c, x);
    var (o, d) := Next(c);
    var rest := Run(d, Nexts(n)).1;
    assert Run(c, Nexts(n + 1)).1 == [o] + rest by {
      assert Nexts<T>(n + 1)[0] == OpNext && Nexts<T>(n + 1)[1..] == Nexts(n);
    }
    if n > 0 {
      WaitIsWait(d, x);
      assert ([o] + rest)[..n] == [o] + rest[..n - 1];
    } else {
      assert rest == [];
    }
  }

  // An insertion lengthens no pending wait; an element that had its turn waits one call longer.
  lemma InsertWait<T>(c: Cursor<T>, x: T, y: T)
    requires Within(c) && NoDup(c.elts) && x in c.elts && y !in c.elts
    ensures Wait(Insert(c, y), x) == Wait(c, x) + If(!Pending(c, x))
  {
    var i := IndexOf(c.elts, x);
    var d := Insert(c, y);
    assert d.elts[i] == x;
    IndexIs(d.elts, i);
    PendingIndex(c, x);
  }

  lemma WithoutIndex<T>(s: seq<T>, i: nat, j: nat)
    requires NoDup(s) && i < |s| && j < |s| && i != j
    ensures s[i] in Without(s, j) && IndexOf(Without(s, j), s[i]) == if i < j then i else i - 1
  {
    NoDupWithout(s, j);
    var k := if i < j then i else i - 1;
    assert Without(s, j)[k] == s[i];
    IndexIs(Without(s, j), k);
  }

  lemma RemoveIs<T>(c: Cursor<T>, x: T)
    requires Within(c) && NoDup(c.elts) && x in c.elts
    ensures Remove(c, x) == RemoveAt(c, IndexOf(c.elts, x))
  {
    SearchFinds(c.elts, x, c.pos + |c.elts| - 1);
    IndexIs(c.elts, Search(c.elts, x, c.pos + |c.elts| - 1, |c.elts|));
  }

  // Removing another element lengthens no wait, and shortens it by one exactly when that element
  // stood between: its turn would have come first.
  lemma RemoveWait<T>(c: Cursor<T>, x: T, y: T)
    requires Within(c) && NoDup(c.elts) && x in c.elts && y in c.elts && x != y
    ensures x in Remove(c, y).elts
    ensures Wait(Remove(c, y), x) == Wait(c, x) - If(Wait(c, y) < Wait(c, x))
  {
    RemoveIs(c, y);
    WithoutIndex(c.elts, IndexOf(c.elts, x), IndexOf(c.elts, y));
  }
}
