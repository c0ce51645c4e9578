/** Hashing and ranking of C strings (include/RDIHashFuncs.h) and of event types (include/RDIEvent.h),
    as the hash tables are instantiated with them.  A string is the characters before its NUL. */
module Strings {
  import opened EventType

  const WORD := 0x1_0000_0000

  // h += (h << 7) + g + 987654321L, in 32 bits
  function StrHash(s: string): (h: nat)
    ensures h < WORD
  {
    if s == "" then 0
    else
      var h := StrHash(s[..|s| - 1]);
      (129 * h + s[|s| - 1] as int + 987654321) % WORD
  }

  // Adding whole words changes nothing in a word.
  lemma WordWraps(x: int, q: int)
    ensures (x + WORD * q) % WORD == x % WORD
  {
  }

  function Power(b: nat, n: nat): nat {
    if n == 0 then 1 else b * Power(b, n - 1)
  }

  // Each character, raised by the constant, weighs 129 to the number of characters after it.
  function WeightedSum(s: string): nat {
    if s == "" then 0 else Power(129, |s| - 1) * (s[0] as int + 987654321) + WeightedSum(s[1..])
  }

  lemma {:induction false} WeightedSumLast(s: string)
    requires s != ""
    ensures WeightedSum(s) == 129 * WeightedSum(s[..|s| - 1]) + s[|s| - 1] as int + 987654321
    decreases |s|
  {
    var n := |s| - 1;
    if n > 0 {
      WeightedSumLast(s[1..]);
      assert s[1..][..n - 1] == s[..n][1..];
      ShiftPower(n, s[0] as int + 987654321);
    }
  }

  lemma ShiftPower(n: nat, c: int)
    requires n > 0
    ensures Power(129, n) * c == 129 * (Power(129, n - 1) * c)
  {
  }

  // The hash is that sum in 32 bits.
  lemma {:induction false} StrHashIs(s: string)
    ensures StrHash(s) == WeightedSum(s) % WORD
  {
    if s != "" {
      var d := s[..|s| - 1];
      StrHashIs(d);
      WeightedSumLast(s);
      WordWraps(129 * StrHash(d) + s[|s| - 1] as int + 987654321, 129 * (WeightedSum(d) / WORD));
    }
  }

  method StrHashOf(s: string) returns (h: nat)
    ensures h == StrHash(s)
  {
    h := 0;
    for i := 0 to |s|
      invariant h == StrHash(s[..i]) < WORD
    {
      var g := s[i] as int;
      var shifted := (h * 128) % WORD;
      assert s[..i + 1][..i] == s[..i];
      WordWraps(h + shifted + g + 987654321, (h * 128) / WORD);
      h := (h + shifted + g + 987654321) % WORD;
    }
    assert s[..|s|] == s;
  }

  // The first n characters are the same, and what follows comes earlier in l: its end, or a lesser character.
  predicate LessAt(l: string, r: string, n: nat) {
    n <= |l| && n < |r| && l[..n] == r[..n] && (n == |l| || l[n] < r[n])
  }

  // strcmp: the first difference decides, a proper prefix is less.
  function StrRank(l: string, r: string): int
    decreases |l|
  {
    if l == "" then (if r == "" then 0 else -1)
    else if r == "" then 1
    else if l[0] != r[0] then (if l[0] < r[0] then -1 else 1)
    else StrRank(l[1..], r[1..])
  }

  // Rank 0 is equality, which is what the hash table takes it for.
  lemma {:induction false} StrRankEqual(l: string, r: string)
    ensures StrRank(l, r) == 0 <==> l == r
    decreases |l|
  {
    if l != "" && r != "" && l[0] == r[0] {
      StrRankEqual(l[1..], r[1..]);
      assert l == [l[0]] + l[1..] && r == [r[0]] + r[1..];
    }
  }

  // A negative rank is the lexicographic order.
  lemma {:induction false} StrRankLess(l: string, r: string)
    ensures StrRank(l, r) < 0 <==> exists n: nat :: LessAt(l, r, n)
    decreases |l|
  {
    if l == "" && r != "" {
      assert LessAt(l, r, 0);
    } else if l != "" && r != "" && l[0] != r[0] {
      assert l[0] < r[0] ==> LessAt(l, r, 0);
      assert forall n: nat :: 0 < n <= |l| && n < |r| ==> l[..n][0] != r[..n][0];
    } else if l != "" && r != "" {
      StrRankLess(l[1..], r[1..]);
      LessAtNext(l, r);
    }
  }

  lemma LessAtNext(l: string, r: string)
    requires l != "" && r != "" && l[0] == r[0]
    ensures (exists n: nat :: LessAt(l, r, n)) <==> exists n: nat :: LessAt(l[1..], r[1..], n)
  {
    if n: nat :| LessAt(l, r, n) {
      assert l[..n][1..] == l[1..][..n - 1] && r[..n][1..] == r[1..][..n - 1];
      assert LessAt(l[1..], r[1..], n - 1);
    }
    if n: nat :| LessAt(l[1..], r[1..], n) {
      assert l[..n + 1] == [l[0]] + l[1..][..n] && r[..n + 1] == [r[0]] + r[1..][..n];
      assert LessAt(l, r, n + 1);
    }
  }

  lemma {:induction false} StrRankOrders(a: string, b: string, c: string)
    ensures StrRank(a, b) == -StrRank(b, a)
    ensures StrRank(a, b) <= 0 && StrRank(b, c) <= 0 ==> StrRank(a, c) <= 0
    decreases |a|
  {
    if a != "" && b != "" && c != "" {
      StrRankOrders(a[1..], b[1..], c[1..]);
    } else if a != "" && b != "" {
      StrRankOrders(a[1..], b[1..], c);
    }
  }

  function Mix(domain: bv32, name: bv32): bv32 {
    (domain << 24) ^ name
  }

  // The low byte of the domain's hash goes to the top, over the name's; the rest is the name's.
  lemma MixBytes(domain: bv32, name: bv32)
    ensures Mix(domain, name) & 0xFF_FFFF == name & 0xFF_FFFF
    ensures Mix(domain, name) >> 24 == (domain & 0xFF) ^ (name >> 24)
  {
  }

  function EventHash(t: EventType): (h: nat)
    ensures h < WORD
  {
    Mix(StrHash(t.domain) as bv32, StrHash(t.name) as bv32) as nat
  }

  function EventRank(l: EventType, r: EventType): int {
    var drank := StrRank(l.domain, r.domain);
    if drank == 0 then StrRank(l.name, r.name) else drank
  }

  // The domain decides, and the name between types of one domain.
  lemma EventRankLess(l: EventType, r: EventType)
    ensures EventRank(l, r) < 0 <==>
      || (exists n: nat :: LessAt(l.domain, r.domain, n))
      || (l.domain == r.domain && exists n: nat :: LessAt(l.name, r.name, n))
  {
    StrRankEqual(l.domain, r.domain);
    StrRankLess(l.domain, r.domain);
    StrRankLess(l.name, r.name);
  }

  lemma EventRankEqual(l: EventType, r: EventType)
    ensures EventRank(l, r) == 0 <==> l == r
  {
    StrRankEqual(l.domain, r.domain);
    StrRankEqual(l.name, r.name);
  }
}
