/**
 Division of two whole numbers, correctly rounded to a double: a 53-bit significand, ties to even.
 Only quotients up to one arise, so a result is `significand / 2^scale` and no range limit is met.
 */
module Rounding {
  import opened Powers

  /** 2^52: the least significand that fills 53 bits. */
  const FILLED: nat := 0x10_0000_0000_0000

  lemma FilledIsPower()
    ensures Pow2(51) == FILLED / 2 && Pow2(52) == FILLED && Pow2(53) == 2 * FILLED && Pow2(54) == 4 * FILLED
  {
    assert Pow2(12) == 4096;
    Pow2Adds(12, 12);
    Pow2Adds(24, 24);
    assert Pow2(48) == 0x1_0000_0000_0000;
    assert Pow2(51) == 2 * Pow2(50) == 4 * Pow2(49) == 8 * Pow2(48);
  }

  datatype Double = Double(significand: nat, scale: nat)

  /** The nearest whole number to `n / d`, ties to even. */
  function Nearest(n: nat, d: nat): (r: nat)
    requires d > 0
    ensures 2 * n <= 2 * (d * r) + d && 2 * (d * r) <= 2 * n + d
    ensures 2 * n == 2 * (d * r) + d || 2 * (d * r) == 2 * n + d ==> r % 2 == 0
  {
    var q, r := n / d, n % d;
    DivMod(n, d);
    NextMultiple(d, q);
    if 2 * r < d || (2 * r == d && q % 2 == 0) then q else q + 1
  }

  lemma DivMod(n: nat, d: nat)
    requires d > 0
    ensures n == d * (n / d) + n % d && n % d < d
  {
  }

  lemma NextMultiple(d: nat, q: nat)
    ensures d * (q + 1) == d * q + d
  {
  }

  /** The least scale from `e` on at which `n / d` fills 53 bits. */
  function Scale(n: nat, d: nat, e: nat): (s: nat)
    requires n > 0 && d > 0
    requires e == 0 || n * Pow2(e - 1) < FILLED * d
    ensures n * Pow2(s) >= FILLED * d
    ensures s == 0 || n * Pow2(s - 1) < FILLED * d
    decreases FILLED * d - n * Pow2(e)
  {
    if n * Pow2(e) >= FILLED * d then
      e
    else
      DoubleGrows(n, Pow2(e));
      Scale(n, d, e + 1)
  }

  lemma DoubleGrows(n: nat, p: nat)
    requires n > 0 && p > 0
    ensures n * p < n * (2 * p)
  {
    assert n * (2 * p) == n * p + n * p;
    Ordered(n, 1, p);
  }

  function Quotient(n: nat, d: nat): Double
    requires d > 0
  {
    if n == 0 then Double(0, 0)
    else
      var s := Scale(n, d, 0);
      Double(Nearest(n * Pow2(s), d), s)
  }

  /** `x >= 1.0`. */
  predicate AtLeastOne(x: Double) {
    x.significand >= Pow2(x.scale)
  }

  /** A scale is pinned down by filling 53 bits and no more. */
  lemma ScaleIs(n: nat, d: nat, s: nat)
    requires n > 0 && d > 0
    requires n * Pow2(s) >= FILLED * d
    requires s > 0 && n * Pow2(s - 1) < FILLED * d
    ensures Scale(n, d, 0) == s
  {
    var t := Scale(n, d, 0);
    if t < s {
      if t < s - 1 {
        Pow2Grows(t, s - 1);
      }
      Ordered(n, Pow2(t), Pow2(s - 1));
      assert false;
    } else if s < t {
      if s < t - 1 {
        Pow2Grows(s, t - 1);
      }
      Ordered(n, Pow2(s), Pow2(t - 1));
      assert false;
    }
  }

  lemma Ordered(n: nat, a: nat, b: nat)
    requires a <= b
    ensures n * a <= n * b
  {
  }

  lemma FewerMultiples(d: nat, r: nat, p: nat)
    requires r < p
    ensures d * r + d <= d * p
    ensures d > 0 && r + 1 < p ==> d * r + d < d * p
  {
    assert d * p == d * r + d * (p - r);
    assert d * (p - r) == d + d * (p - r - 1);
  }

  /** Rounding up to an even target: it is reached when the shortfall is at most half of `d`. */
  lemma ReachesTarget(x: nat, d: nat, p: nat)
    requires d > 0 && p % 2 == 0 && x <= d * p
    ensures Nearest(x, d) >= p <==> 2 * (d * p - x) <= d
  {
    var r := Nearest(x, d);
    if r < p {
      FewerMultiples(d, r, p);
    } else {
      Ordered(d, p, r);
    }
  }

  /** A quotient of one stays one. */
  lemma WholeIsOne(d: nat)
    requires d > 0
    ensures AtLeastOne(Quotient(d, d))
  {
    FilledIsPower();
    ScaleIs(d, d, 52);
    ReachesTarget(d * FILLED, d, FILLED);
  }

  lemma Doubled(n: nat, p: nat)
    ensures n * (2 * p) == 2 * (n * p) == (2 * n) * p
  {
  }

  /** Just below one, the shortfall decides: it vanishes when it is at most half a unit in the last place. */
  lemma UpperHalf(n: nat, d: nat)
    requires 0 < n < d && 2 * n >= d
    ensures AtLeastOne(Quotient(n, d)) <==> (d - n) * Pow2(54) <= d
  {
    FilledIsPower();
    ScaleIs(n, d, 53);
    ReachesTarget(n * (2 * FILLED), d, 2 * FILLED);
  }

  lemma SmallSignificand(x: nat, d: nat)
    requires d > 0 && x < 2 * (FILLED * d)
    ensures Nearest(x, d) < 4 * FILLED
  {
    var r := Nearest(x, d);
    if r >= 4 * FILLED {
      Ordered(d, 4 * FILLED, r);
    }
  }

  lemma LowerHalf(n: nat, d: nat)
    requires 2 * n < d
    ensures !AtLeastOne(Quotient(n, d))
  {
    if n > 0 {
      var s := Scale(n, d, 0);
      ScaleBeyond(n, d, s);
      FilledIsPower();
      Pow2Grows(53, s);
      Doubled(n, Pow2(s - 1));
      SmallSignificand(n * Pow2(s), d);
    }
  }

  lemma ScaleBeyond(n: nat, d: nat, s: nat)
    requires 0 < n && 2 * n < d && n * Pow2(s) >= FILLED * d
    ensures s > 53
  {
    FilledIsPower();
    if s < 53 {
      Pow2Grows(s, 53);
      Ordered(n, Pow2(s), Pow2(53));
    }
  }

  /** Exactly when the rounded quotient of a part by the whole reaches 1.0. */
  lemma RoundsToOne(n: nat, d: nat)
    requires n <= d && d > 0
    ensures AtLeastOne(Quotient(n, d)) <==> (d - n) * Pow2(54) <= d
  {
    if n == d {
      WholeIsOne(d);
    } else if 2 * n >= d {
      UpperHalf(n, d);
    } else {
      LowerHalf(n, d);
      FilledIsPower();
    }
  }
}
