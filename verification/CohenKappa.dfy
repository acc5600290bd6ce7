/** `cohen_kappa` (melp/stats/significance.py). */
module CohenKappa {
  import opened Sums
  import opened Arith
  import opened Categories

  function Agrees(x: seq<int>, y: seq<int>): nat -> real {
    (i: nat) => if i < |x| && i < |y| then Indicator(x[i] == y[i]) else 0.0
  }

  function Frequency(x: seq<int>, v: int): real {
    if x == [] then 0.0 else CountOf(x, v) / |x| as real
  }

  /** Observed agreement. */
  function Observed(x: seq<int>, y: seq<int>): real {
    if x == [] then 0.0 else Sum(|x|, Agrees(x, y)) / |x| as real
  }

  function Frequencies(x: seq<int>, cats: seq<int>): nat -> real {
    (k: nat) => if k < |cats| then Frequency(x, cats[k]) else 0.0
  }

  /** Agreement expected by chance, over the categories either rater used. */
  function Expected(x: seq<int>, y: seq<int>): real {
    var cats := Unique(x + y);
    Sum(|cats|, Times(Frequencies(x, cats), Frequencies(y, cats)))
  }

  /** `cohen_kappa`. */
  function Kappa(x: seq<int>, y: seq<int>): real
    requires |x| == |y| > 0
  {
    var po, pe := Observed(x, y), Expected(x, y);
    ExpectedBounds(x, y);
    (po - pe) / (1.0 - pe + EPS)
  }

  // ---------- frequencies ----------

  lemma FrequencyBounds(x: seq<int>, v: int)
    requires x != []
    ensures 0.0 <= Frequency(x, v) <= 1.0
    ensures Frequency(x, v) == 0.0 <==> v !in x
    ensures Frequency(x, v) == 1.0 <==> forall i | 0 <= i < |x| :: x[i] == v
  {
    CountBounds(x, v);
    QuotientSign(CountOf(x, v), |x| as real);
    QuotientOne(CountOf(x, v), |x| as real);
  }

  lemma FrequenciesAddUp(x: seq<int>, cats: seq<int>)
    requires x != [] && Increasing(cats) && forall i | 0 <= i < |x| :: x[i] in cats
    ensures Sum(|cats|, Frequencies(x, cats)) == 1.0
  {
    var counts := (k: nat) => if k < |cats| then CountOf(x, cats[k]) else 0.0;
    CountsAddUp(x, cats, counts);
    SumQuotient(|cats|, counts, |x| as real, Frequencies(x, cats));
    QuotientOne(|x| as real, |x| as real);
  }

  lemma ObservedBounds(x: seq<int>, y: seq<int>)
    requires |x| == |y| > 0
    ensures 0.0 <= Observed(x, y) <= 1.0
    ensures Observed(x, y) == 1.0 <==> x == y
  {
    var n := |x|;
    SumNonNegative(n, Agrees(x, y));
    var differs := (i: nat) => 1.0 - Agrees(x, y)(i);
    SumNonNegative(n, differs);
    SumConst(n, 1.0, _ => 1.0);
    SumLinear(n, 1.0, _ => 1.0, -1.0, Agrees(x, y), differs);
    QuotientSign(Sum(n, Agrees(x, y)), n as real);
    QuotientOne(Sum(n, Agrees(x, y)), n as real);
    assert x == y <==> forall i: nat | i < n :: differs(i) == 0.0 by {
      forall i: nat | i < n
        ensures differs(i) == Indicator(x[i] != y[i])
      {
      }
    }
  }

  /** Two frequencies of one category overshoot 1 by at most the observed agreement. */
  lemma FrequenciesOverlap(x: seq<int>, y: seq<int>, v: int)
    requires |x| == |y| > 0
    ensures Frequency(x, v) + Frequency(y, v) <= 1.0 + Observed(x, y)
  {
    var n := |x|;
    var both := (i: nat) => Is(x, v)(i) + Is(y, v)(i);
    var bound := (i: nat) => 1.0 + Agrees(x, y)(i);
    SumLinear(n, 1.0, Is(x, v), 1.0, Is(y, v), both);
    SumConst(n, 1.0, _ => 1.0);
    SumLinear(n, 1.0, _ => 1.0, 1.0, Agrees(x, y), bound);
    SumLe(n, both, bound);
    QuotientAdd(CountOf(x, v), CountOf(y, v), n as real);
    QuotientAdd(n as real, Sum(n, Agrees(x, y)), n as real);
    QuotientLe(CountOf(x, v) + CountOf(y, v), n as real + Sum(n, Agrees(x, y)), n as real);
    QuotientOne(n as real, n as real);
  }

  lemma ProductBound(f: real, g: real, m: real)
    requires f >= 0.0 && g >= 0.0 && f + g <= m
    ensures 4.0 * (f * g) <= (f + g) * m
  {
  }

  lemma ChanceAtMostOne(c: nat, f: nat -> real, g: nat -> real)
    requires forall k: nat | k < c :: f(k) >= 0.0 && 0.0 <= g(k) <= 1.0
    ensures 0.0 <= Sum(c, Times(f, g)) <= Sum(c, f)
  {
  }

  /** When the terms of f and g overlap by at most m, so do their product sums. */
  lemma {:induction false} ChanceAtMostHalf(c: nat, f: nat -> real, g: nat -> real, m: real)
    requires forall k: nat | k < c :: f(k) >= 0.0 && g(k) >= 0.0 && f(k) + g(k) <= m
    ensures 4.0 * Sum(c, Times(f, g)) <= (Sum(c, f) + Sum(c, g)) * m
  {
    if c > 0 {
      ChanceAtMostHalf(c - 1, f, g, m);
      ProductBound(f(c - 1), g(c - 1), m);
      Distribute(Sum(c - 1, f) + Sum(c - 1, g), f(c - 1) + g(c - 1), m);
    }
  }

  lemma ChanceBound(c: nat, f: nat -> real, g: nat -> real, m: real)
    requires forall k: nat | k < c :: f(k) >= 0.0 && 0.0 <= g(k) <= 1.0 && f(k) + g(k) <= m
    requires Sum(c, f) == 1.0 && Sum(c, g) == 1.0
    ensures 0.0 <= Sum(c, Times(f, g)) <= 1.0
    ensures 2.0 * Sum(c, Times(f, g)) <= m
  {
    ChanceAtMostOne(c, f, g);
    ChanceAtMostHalf(c, f, g, m);
  }

  /** Chance agreement never exceeds 1, nor half of 1 plus the observed agreement. */
  lemma ExpectedBounds(x: seq<int>, y: seq<int>)
    requires |x| == |y| > 0
    ensures 0.0 <= Expected(x, y) <= 1.0
    ensures 2.0 * Expected(x, y) <= 1.0 + Observed(x, y)
  {
    var cats, m := Unique(x + y), 1.0 + Observed(x, y);
    var f, g := Frequencies(x, cats), Frequencies(y, cats);
    forall k: nat | k < |cats|
      ensures f(k) >= 0.0 && 0.0 <= g(k) <= 1.0 && f(k) + g(k) <= m
    {
      FrequencyBounds(x, cats[k]);
      FrequencyBounds(y, cats[k]);
      FrequenciesOverlap(x, y, cats[k]);
    }
    FrequenciesAddUp(x, cats);
    FrequenciesAddUp(y, cats);
    ChanceBound(|cats|, f, g, m);
  }

  // ---------- kappa ----------

  /** Kappa is always defined and stays strictly between -1 and 1. */
  lemma KappaBounds(x: seq<int>, y: seq<int>)
    requires |x| == |y| > 0
    ensures 1.0 - Expected(x, y) + EPS > 0.0
    ensures -1.0 < Kappa(x, y) < 1.0
    ensures Kappa(x, y) >= 0.0 <==> Observed(x, y) >= Expected(x, y)
  {
    ExpectedBounds(x, y);
    ObservedBounds(x, y);
    var po, pe := Observed(x, y), Expected(x, y);
    var d := 1.0 - pe + EPS;
    QuotientSign(po - pe, d);
    QuotientOne(po - pe, d);
    QuotientSign(po - pe + d, d);
    QuotientAdd(po - pe, d, d);
    QuotientOne(d, d);
  }

  lemma KappaSymmetric(x: seq<int>, y: seq<int>)
    requires |x| == |y| > 0
    ensures Kappa(x, y) == Kappa(y, x)
  {
    SumEq(|x|, Agrees(x, y), Agrees(y, x));
    assert forall v :: v in x + y <==> v in y + x;
    SameCategories(Unique(x + y), Unique(y + x));
    var cats := Unique(x + y);
    var f, g := Frequencies(x, cats), Frequencies(y, cats);
    SumEq(|cats|, Times(f, g), Times(g, f));
  }

  lemma FirstIsMember(w: seq<int>)
    ensures w != [] ==> w[0] in w
  {
  }

  lemma {:induction false} SameCategories(u: seq<int>, w: seq<int>)
    requires Increasing(u) && Increasing(w)
    requires forall v :: v in u <==> v in w
    ensures u == w
  {
    if u == [] {
      FirstIsMember(w);
    } else {
      assert u[0] in w && (w[0] in u);
      assert u[0] == w[0];
      forall v
        ensures v in u[1..] <==> v in w[1..]
      {
        assert v in u[1..] <==> v in u && v != u[0];
        assert v in w[1..] <==> v in w && v != w[0];
      }
      SameCategories(u[1..], w[1..]);
    }
  }

  lemma SelfProduct(f: real)
    requires 0.0 < f <= 1.0
    ensures f - f * f >= 0.0
    ensures f - f * f == 0.0 <==> f == 1.0
  {
    assert f - f * f == (1.0 - f) * f;
    TimesLe(0.0, 1.0 - f, f);
    if f < 1.0 { TimesLt(0.0, 1.0 - f, f); }
  }

  /** A distribution with positive shares has squares adding up to 1 only if every share is 1. */
  lemma SquaresOfShares(c: nat, f: nat -> real)
    requires forall k: nat | k < c :: 0.0 < f(k) <= 1.0
    requires Sum(c, f) == 1.0
    ensures Sum(c, Times(f, f)) == 1.0 <==> forall k: nat | k < c :: f(k) == 1.0
  {
    var lost := (k: nat) => f(k) - Times(f, f)(k);
    forall k: nat | k < c
      ensures lost(k) >= 0.0 && (lost(k) == 0.0 <==> f(k) == 1.0)
    {
      SelfProduct(f(k));
    }
    SumLinear(c, 1.0, f, -1.0, Times(f, f), lost);
    SumNonNegative(c, lost);
  }

  lemma SelfExpected(x: seq<int>)
    requires x != []
    ensures Expected(x, x) == 1.0 <==> forall i | 0 <= i < |x| :: x[i] == x[0]
  {
    var cats := Unique(x + x);
    var f := Frequencies(x, cats);
    forall k: nat | k < |cats|
      ensures 0.0 < f(k) <= 1.0
      ensures f(k) == 1.0 <==> forall i | 0 <= i < |x| :: x[i] == cats[k]
    {
      assert cats[k] in x + x;
      FrequencyBounds(x, cats[k]);
    }
    FrequenciesAddUp(x, cats);
    SquaresOfShares(|cats|, f);
    assert x[0] in x + x;
    var k: nat :| k < |cats| && cats[k] == x[0];
    if forall i | 0 <= i < |x| :: x[i] == x[0] {
      forall l: nat | l < |cats|
        ensures f(l) == 1.0
      {
        assert cats[l] in x + x;
      }
    } else {
      assert f(k) != 1.0;
    }
  }

  /** Perfect agreement gives a positive kappa only if at least two categories occur: when both
      raters use one and the same category throughout, kappa is 0 and not 1. */
  lemma PerfectAgreement(x: seq<int>)
    requires x != []
    ensures Kappa(x, x) >= 0.0
    ensures Kappa(x, x) == 0.0 <==> forall i | 0 <= i < |x| :: x[i] == x[0]
  {
    ObservedBounds(x, x);
    ExpectedBounds(x, x);
    SelfExpected(x);
    QuotientSign(1.0 - Expected(x, x), 1.0 - Expected(x, x) + EPS);
  }

  // ---------- kappa in counts ----------

  /** The items both raters put in the same category. */
  function Agreeing(x: seq<int>, y: seq<int>): set<nat>
    requires |x| == |y|
  {
    set i: nat | i < |x| && x[i] == y[i]
  }

  /** The pairs of a rating of x and a rating of y that name the same category. */
  function Matching(x: seq<int>, y: seq<int>): set<(nat, nat)> {
    set i: nat, j: nat | i < |x| && j < |y| && x[i] == y[j] :: (i, j)
  }

  lemma ObservedCount(x: seq<int>, y: seq<int>)
    requires |x| == |y| > 0
    ensures Observed(x, y) * |x| as real == |Agreeing(x, y)| as real
  {
    SumCounts(|x|, Agrees(x, y), Agreeing(x, y));
    Quotient(Sum(|x|, Agrees(x, y)), |x| as real);
  }

  function Carrying(y: seq<int>): int -> real { (c: int) => CountOf(y, c) }

  function SameValue(x: seq<int>, y: seq<int>): (nat, nat) -> real {
    (i: nat, j: nat) => if i < |x| && j < |y| then Indicator(x[i] == y[j]) else 0.0
  }

  lemma MatchingPairs(x: seq<int>, y: seq<int>)
    ensures Sum(|x|, ByEntry(Carrying(y), x)) == |Matching(x, y)| as real
  {
    var M := SameValue(x, y);
    forall i: nat | i < |x|
      ensures ByEntry(Carrying(y), x)(i) == RowSums(|y|, M)(i)
    {
      SumEq(|y|, Is(y, x[i]), Row(M, i));
    }
    SumEq(|x|, ByEntry(Carrying(y), x), RowSums(|y|, M));
    SumCountsPairs(|x|, |y|, M, Matching(x, y));
  }

  lemma ShareProduct(f: real, g: real, n: real)
    requires n > 0.0
    ensures n * n > 0.0 && (f / n) * (g / n) == (f * g) / (n * n)
  {
    var p, q := f / n, g / n;
    Quotient(f, n);
    Quotient(g, n);
    TimesPositive(n, n, n * n);
    Quotient(f * g, n * n);
    assert p * q * (n * n) == (p * n) * (q * n);
    Cancel(p * q, (f * g) / (n * n), n * n);
  }

  /** n squared. */
  function Squared(n: nat): real { n as real * n as real }

  lemma FrequencyProduct(x: seq<int>, y: seq<int>, cats: seq<int>, k: nat)
    requires |x| == |y| > 0 && k < |cats|
    ensures ByCategory(Carrying(y), x, cats)(k) == Squared(|x|) * Times(Frequencies(x, cats), Frequencies(y, cats))(k)
  {
    var n, f, g := |x| as real, CountOf(x, cats[k]), CountOf(y, cats[k]);
    hide CountOf;
    ShareProduct(f, g, n);
    Quotient(f * g, n * n);
  }

  lemma ChanceTotal(x: seq<int>, y: seq<int>, cats: seq<int>)
    requires |x| == |y| > 0
    ensures Sum(|cats|, ByCategory(Carrying(y), x, cats))
            == Squared(|x|) * Sum(|cats|, Times(Frequencies(x, cats), Frequencies(y, cats)))
  {
    hide *;
    var c, f, h := Squared(|x|), Times(Frequencies(x, cats), Frequencies(y, cats)), ByCategory(Carrying(y), x, cats);
    forall k: nat | k < |cats|
      ensures h(k) == c * f(k)
    {
      FrequencyProduct(x, y, cats, k);
    }
    SumScale(|cats|, c, f, h);
  }

  lemma FirstInUnion(x: seq<int>, y: seq<int>)
    ensures forall i | 0 <= i < |x| :: x[i] in Unique(x + y)
  {
    forall i | 0 <= i < |x| ensures x[i] in Unique(x + y) { assert (x + y)[i] == x[i]; }
  }

  lemma ExpectedCount(x: seq<int>, y: seq<int>)
    requires |x| == |y| > 0
    ensures Squared(|x|) * Expected(x, y) == |Matching(x, y)| as real
  {
    hide *;
    ExpectedIs(x, y);
    CategoryPairs(x, y);
    ChanceTotal(x, y, Unique(x + y));
  }

  lemma ExpectedIs(x: seq<int>, y: seq<int>)
    ensures var cats := Unique(x + y);
            Expected(x, y) == Sum(|cats|, Times(Frequencies(x, cats), Frequencies(y, cats)))
  {
  }

  lemma CategoryPairs(x: seq<int>, y: seq<int>)
    ensures Sum(|Unique(x + y)|, ByCategory(Carrying(y), x, Unique(x + y))) == |Matching(x, y)| as real
  {
    hide *;
    FirstInUnion(x, y);
    SumByCategory(Carrying(y), x, Unique(x + y));
    MatchingPairs(x, y);
  }

  lemma KappaScaled(po: real, pe: real, n: real, agreeing: real, matching: real, kappa: real)
    requires kappa * (1.0 - pe + EPS) == po - pe && po * n == agreeing && n * n * pe == matching
    ensures kappa * (n * n - matching + 0.000000000001 * n * n) == n * agreeing - matching
  {
    var d := 1.0 - pe + EPS;
    calc {
      kappa * (n * n - matching + 0.000000000001 * n * n);
      kappa * (d * (n * n));
      (kappa * d) * (n * n);
      (po - pe) * (n * n);
      n * (po * n) - n * n * pe;
    }
  }

  lemma KappaTimes(x: seq<int>, y: seq<int>)
    requires |x| == |y| > 0
    ensures Kappa(x, y) * (1.0 - Expected(x, y) + EPS) == Observed(x, y) - Expected(x, y)
  {
    KappaBounds(x, y);
    hide Observed, Expected;
    Quotient(Observed(x, y) - Expected(x, y), 1.0 - Expected(x, y) + EPS);
  }

  /** Kappa in counts: of n ratings A agree, and of the n^2 pairs of one rating each M match. */
  lemma KappaInCounts(x: seq<int>, y: seq<int>)
    requires |x| == |y| > 0
    ensures var n, agreeing, matching := |x| as real, |Agreeing(x, y)| as real, |Matching(x, y)| as real;
            Kappa(x, y) * (n * n - matching + 0.000000000001 * n * n) == n * agreeing - matching
  {
    KappaTimes(x, y);
    ObservedCount(x, y);
    ExpectedCount(x, y);
    hide Kappa, Observed, Expected, Agreeing, Matching;
    KappaScaled(Observed(x, y), Expected(x, y), |x| as real, |Agreeing(x, y)| as real, |Matching(x, y)| as real, Kappa(x, y));
  }
}
