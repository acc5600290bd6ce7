/** Powers of two, and the few facts about products and quotients of reals that the proofs need. */
module Arith {
  /** What the code adds to a denominator that may be 0. */
  const EPS: real := 0.000000000001

  function Pow2(n: nat): (r: nat)
    ensures r > 0
  {
    if n == 0 then 1 else 2 * Pow2(n - 1)
  }

  lemma Quotient(x: real, y: real)
    requires y > 0.0
    ensures x / y * y == x
  {
  }

  lemma QuotientSign(x: real, y: real)
    requires y > 0.0
    ensures x / y >= 0.0 <==> x >= 0.0
    ensures x / y == 0.0 <==> x == 0.0
  {
  }

  lemma QuotientEq(x: real, y: real, d: real)
    requires d != 0.0 && x == y
    ensures x / d == y / d
  {
  }

  lemma QuotientAdd(x: real, y: real, d: real)
    requires d > 0.0
    ensures x / d + y / d == (x + y) / d
  {
  }

  lemma QuotientLe(x: real, y: real, d: real)
    requires d > 0.0
    ensures x / d <= y / d <==> x <= y
  {
  }

  lemma TimesLe(x: real, y: real, d: real)
    requires d >= 0.0 && x <= y
    ensures x * d <= y * d
  {
  }

  lemma Distribute(x: real, y: real, d: real)
    ensures (x + y) * d == x * d + y * d
  {
  }

  lemma TimesLt(x: real, y: real, d: real)
    requires d > 0.0 && x < y
    ensures x * d < y * d
  {
  }

  lemma QuotientOne(x: real, d: real)
    requires d > 0.0
    ensures x / d <= 1.0 <==> x <= d
    ensures x / d == 1.0 <==> x == d
  {
  }

  lemma TimesPositive(x: real, y: real, z: real)
    requires x > 0.0 && y > 0.0 && z == x * y
    ensures z > 0.0
  {
  }

  lemma Positive(p: real, y: real)
    requires p * y > 0.0 && y > 0.0
    ensures p > 0.0
  {
  }

  lemma Cancel(a: real, b: real, d: real)
    requires d > 0.0 && a * d == b * d
    ensures a == b
  {
  }

  lemma CancelLe(a: real, b: real, d: real)
    requires d > 0.0 && a * d <= b * d
    ensures a <= b
  {
  }

  lemma QuotientBetween(lo: real, t: real, hi: real, d: real)
    requires d > 0.0 && lo * d <= t <= hi * d
    ensures lo <= t / d <= hi
  {
  }

  lemma QuotientComplement(x: real, d: real)
    requires d > 0.0
    ensures (d - x) / d == 1.0 - x / d
  {
    var q := x / d;
    Quotient(x, d);
    Quotient(d - x, d);
    assert (1.0 - q) * d == d - q * d;
    Cancel((d - x) / d, 1.0 - q, d);
  }
}
