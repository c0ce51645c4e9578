/** Bitwise AND on naturals, and the one fact linear hashing needs of it: a mask one below a
    power of two keeps exactly the remainder modulo that power. */
module BitAnd {

  function And(a: nat, b: nat): nat
    decreases a
  {
    if a == 0 || b == 0 then 0
    else (if a % 2 == 1 && b % 2 == 1 then 1 else 0) + 2 * And(a / 2, b / 2)
  }

  ghost predicate IsPow2(n: nat)
  {
    n == 1 || (n > 1 && n % 2 == 0 && IsPow2(n / 2))
  }

  lemma DoublePow2(n: nat)
    requires IsPow2(n)
    ensures IsPow2(2 * n)
  {
    assert (2 * n) / 2 == n;
  }

  lemma MulGap(d: int, s: nat)
    ensures d >= 1 ==> d * s >= s
    ensures d <= -1 ==> d * s + s <= 0
  {
  }

  // A quotient and remainder that add up are the quotient and remainder.
  lemma DivModUnique(h: nat, s: nat, q: nat, r: nat)
    requires s > 0 && r < s && h == q * s + r
    ensures h / s == q && h % s == r
  {
    var a, b := h / s, h % s;
    assert h == a * s + b;
    assert (a - q) * s == a * s - q * s;
    MulGap(a - q, s);
  }

  lemma HalfMod(h: nat, m: nat)
    requires m > 0
    ensures h % (2 * m) == 2 * ((h / 2) % m) + h % 2
  {
    var g := h / 2;
    var q, c := g / m, g % m;
    assert g == q * m + c;
    assert 2 * (q * m) == q * (2 * m);
    DivModUnique(h, 2 * m, q, 2 * c + h % 2);
  }

  lemma {:induction false} AndMask(h: nat, s: nat)
    requires IsPow2(s)
    ensures And(h, s - 1) == h % s
    decreases h
  {
    if s == 1 {
      assert And(h, 0) == 0;
    } else if h == 0 {
      assert And(0, s - 1) == 0;
    } else {
      var m := s / 2;
      var g := h / 2;
      assert s == 2 * m && (s - 1) % 2 == 1 && (s - 1) / 2 == m - 1;
      AndMask(g, m);
      HalfMod(h, m);
    }
  }

  lemma AndBound(h: nat, mask: nat)
    requires IsPow2(mask + 1)
    ensures And(h, mask) <= mask
  {
    AndMask(h, mask + 1);
  }

  lemma TwiceOut(p: nat, s: nat)
    ensures p * (2 * s) == 2 * (p * s) == (2 * p) * s
    ensures (2 * p + 1) * s == 2 * (p * s) + s
  {
  }

  // Doubling the modulus leaves the remainder alone or adds the old modulus to it.
  lemma ModDouble(h: nat, s: nat)
    requires s > 0
    ensures h % (2 * s) == h % s || h % (2 * s) == h % s + s
  {
    var q, r := h / s, h % s;
    var p := q / 2;
    TwiceOut(p, s);
    if q == 2 * p {
      DivModUnique(h, 2 * s, p, r);
    } else {
      assert q == 2 * p + 1;
      DivModUnique(h, 2 * s, p, r + s);
    }
  }
}
