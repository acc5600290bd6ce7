/** Ratios with the 0.0 the metrics report for an empty denominator, and the F1 score of two of them. */
module Shares {
  import opened Arith

  function Ratio(x: real, y: real): real { if y > 0.0 then x / y else 0.0 }

  function FScore(precision: real, recall: real): real {
    Ratio(2.0 * precision * recall, precision + recall)
  }

  lemma RatioTimes(x: real, y: real)
    requires y > 0.0
    ensures Ratio(x, y) * y == x
  {
    Quotient(x, y);
  }

  lemma RatioShare(x: real, y: real)
    requires 0.0 <= x <= y
    ensures 0.0 <= Ratio(x, y) <= 1.0
    ensures Ratio(x, y) == 1.0 <==> x == y && y > 0.0
    ensures x > 0.0 ==> Ratio(x, y) > 0.0
    ensures x == 0.0 ==> Ratio(x, y) == 0.0
  {
    if y > 0.0 {
      QuotientSign(x, y);
      QuotientOne(x, y);
    }
  }

  /** What determines a ratio. */
  lemma RatioIs(x: real, y: real, q: real)
    requires y > 0.0 && q * y == x
    ensures Ratio(x, y) == q
  {
    RatioTimes(x, y);
    Cancel(Ratio(x, y), q, y);
  }

  lemma FScoreSymmetric(p: real, r: real)
    ensures FScore(p, r) == FScore(r, p)
  {
    assert 2.0 * p * r == 2.0 * r * p;
  }

  lemma FScoreOfEqual(x: real)
    requires x >= 0.0
    ensures FScore(x, x) == x
  {
    if x > 0.0 {
      assert x * (x + x) == 2.0 * x * x;
      hide Ratio;
      RatioIs(2.0 * x * x, x + x, x);
    }
  }

  lemma ProductLe(x: real, y: real, d: real, xd: real, yd: real)
    requires x <= y && d >= 0.0 && xd == x * d && yd == y * d
    ensures xd <= yd
  {
  }

  lemma HarmonicBounds(x: real, y: real, d: real, f: real)
    requires 0.0 <= x <= y && d == x + y && d > 0.0 && f * d == 2.0 * x * y
    ensures x <= f <= y
  {
    var xx, xy, yy := x * x, x * y, y * y;
    ProductLe(x, y, x, xx, xy);
    ProductLe(x, y, y, xy, yy);
    assert x * d == xx + xy && y * d == xy + yy && f * d == xy + xy;
    CancelLe(x, f, d);
    CancelLe(f, y, d);
  }

  /** F1 lies between its two scores. */
  lemma FScoreBetween(x: real, y: real)
    requires 0.0 <= x <= y
    ensures x <= FScore(x, y) <= y
    ensures FScore(x, y) == FScore(y, x)
  {
    FScoreSymmetric(x, y);
    if x + y > 0.0 {
      RatioTimes(2.0 * x * y, x + y);
      hide Ratio;
      HarmonicBounds(x, y, x + y, FScore(x, y));
    }
  }

  lemma FScoreWithOne(x: real)
    requires 0.0 <= x <= 1.0
    ensures FScore(x, 1.0) == 1.0 <==> x == 1.0
  {
    RatioShare(2.0 * x, x + 1.0);
    assert 2.0 * x * 1.0 == 2.0 * x;
  }

  /** F1 is 1 only for two perfect scores. */
  lemma FScoreOne(x: real, y: real)
    requires 0.0 <= x <= 1.0 && 0.0 <= y <= 1.0
    ensures FScore(x, y) == 1.0 <==> x == 1.0 && y == 1.0
  {
    if x <= y { FScoreBetween(x, y); } else { FScoreBetween(y, x); }
    hide FScore;
    if y == 1.0 { FScoreWithOne(x); }
    if x == 1.0 { FScoreWithOne(y); }
  }

  lemma HarmonicCross(x: real, y: real, z: real, p: real, r: real, q: real)
    requires p * y == x && r * z == x && y + z > 0.0 && q * (y + z) == 2.0 * x
    ensures q * (p + r) * (y + z) == 2.0 * p * r * (y + z)
  {
    calc {
      q * (p + r) * (y + z);
      q * (y + z) * (p + r);
      2.0 * x * (p + r);
      2.0 * (r * (p * y)) + 2.0 * (p * (r * z));
      2.0 * p * r * (y + z);
    }
  }

  /** The F1 of x/y and x/z is 2x/(y + z). */
  lemma FScoreOfRatios(x: real, y: real, z: real)
    requires 0.0 <= x <= y && x <= z
    ensures FScore(Ratio(x, y), Ratio(x, z)) == Ratio(2.0 * x, y + z)
  {
    RatioShare(x, y);
    RatioShare(x, z);
    RatioShare(2.0 * x, y + z);
    if x > 0.0 {
      var p, r, q := Ratio(x, y), Ratio(x, z), Ratio(2.0 * x, y + z);
      RatioTimes(x, y);
      RatioTimes(x, z);
      RatioTimes(2.0 * x, y + z);
      hide Ratio;
      HarmonicCross(x, y, z, p, r, q);
      Cancel(q * (p + r), 2.0 * p * r, y + z);
      RatioIs(2.0 * p * r, p + r, q);
    }
  }
}
