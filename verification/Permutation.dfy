/** `paired_permutation_test` (melp/stats/significance.py): its p-value for any drawn sign rows, and
    exactly over the full sign cube. */
module Permutation {
  import opened Wrappers
  import opened Sums
  import opened Arith

  /** One drawn row of `rng.choice([-1, 1])`; true stands for +1. */
  type Signs = seq<bool>

  function Signed(positive: bool, x: real): real { if positive then x else -x }

  /** The signed absolute differences of one row. */
  function Flipped(diffs: seq<real>, signs: Signs): nat -> real {
    (i: nat) => if i < |diffs| && i < |signs| then Signed(signs[i], Abs(diffs[i])) else 0.0
  }

  function RowMean(diffs: seq<real>, signs: Signs): real {
    if diffs == [] then 0.0 else Sum(|diffs|, Flipped(diffs, signs)) / |diffs| as real
  }

  /** `abs(null) >= abs(obs)` for one row; with no differences both are NaN and the test fails. */
  predicate Extreme(diffs: seq<real>, signs: Signs) {
    diffs != [] && Abs(RowMean(diffs, signs)) >= Abs(Mean(diffs))
  }

  function CountExtreme(diffs: seq<real>, rows: seq<Signs>): nat {
    if rows == [] then 0
    else CountExtreme(diffs, rows[..|rows| - 1]) + if Extreme(diffs, rows[|rows| - 1]) then 1 else 0
  }

  function Share(count: nat, total: nat): real
    requires total > 0
  {
    count as real / total as real
  }

  function PValue(diffs: seq<real>, rows: seq<Signs>): real
    requires rows != []
  {
    Share(CountExtreme(diffs, rows), |rows|)
  }

  function Differences(a: seq<real>, b: seq<real>): seq<real>
    requires |a| == |b|
  {
    seq(|a|, i requires 0 <= i < |a| => a[i] - b[i])
  }

  /** The p-value and the observed statistic (None for NaN); a shape mismatch raises. `rows` is the
      draw of at least one row. */
  function PairedPermutation(a: seq<real>, b: seq<real>, rows: seq<Signs>): Result<(real, Option<real>), string>
    requires rows != []
  {
    if |a| != |b| then Err("paired samples must be same shape")
    else
      var diffs := Differences(a, b);
      Ok((PValue(diffs, rows), if diffs == [] then None else Some(Mean(diffs))))
  }

  lemma {:induction false} CountBounds(diffs: seq<real>, rows: seq<Signs>)
    ensures CountExtreme(diffs, rows) <= |rows|
  {
    if rows != [] { CountBounds(diffs, rows[..|rows| - 1]); }
  }

  lemma PValueInUnitInterval(diffs: seq<real>, rows: seq<Signs>)
    requires rows != []
    ensures 0.0 <= PValue(diffs, rows) <= 1.0
  {
    CountBounds(diffs, rows);
    QuotientSign(CountExtreme(diffs, rows) as real, |rows| as real);
    QuotientOne(CountExtreme(diffs, rows) as real, |rows| as real);
  }

  // ---------- exchanging the two samples ----------

  lemma SwappedMean(a: seq<real>, b: seq<real>)
    requires |a| == |b|
    ensures Mean(Differences(b, a)) == -Mean(Differences(a, b))
  {
    hide Sum;
    var d, e, n := Differences(a, b), Differences(b, a), |a|;
    SumScale(n, -1.0, At(d), At(e));
    if n > 0 {
      QuotientNegate(Total(d), n as real);
      QuotientEq(Total(e), -Total(d), n as real);
    }
  }

  lemma SwappedDifferences(a: seq<real>, b: seq<real>, signs: Signs)
    requires |a| == |b|
    ensures Mean(Differences(b, a)) == -Mean(Differences(a, b))
    ensures Extreme(Differences(a, b), signs) == Extreme(Differences(b, a), signs)
  {
    var d, e, n := Differences(a, b), Differences(b, a), |a|;
    SumEq(n, Flipped(d, signs), Flipped(e, signs));
    SwappedMean(a, b);
    hide Mean, Sum, Flipped, Differences;
  }

  lemma QuotientNegate(x: real, d: real)
    requires d > 0.0
    ensures (-x) / d == -(x / d)
  {
  }

  lemma {:induction false} SwappedCounts(a: seq<real>, b: seq<real>, rows: seq<Signs>)
    requires |a| == |b|
    ensures CountExtreme(Differences(a, b), rows) == CountExtreme(Differences(b, a), rows)
  {
    hide Extreme;
    if rows != [] {
      SwappedCounts(a, b, rows[..|rows| - 1]);
      SwappedDifferences(a, b, rows[|rows| - 1]);
    }
  }

  /** Exchanging the samples keeps the p-value of every draw and negates the statistic. */
  lemma SwapKeepsPValue(a: seq<real>, b: seq<real>, rows: seq<Signs>)
    requires |a| == |b| && rows != []
    ensures PairedPermutation(b, a, rows).Ok? && PairedPermutation(a, b, rows).Ok?
    ensures PairedPermutation(b, a, rows).value.0 == PairedPermutation(a, b, rows).value.0
    ensures match (PairedPermutation(a, b, rows).value.1, PairedPermutation(b, a, rows).value.1)
            case (Some(x), Some(y)) => y == -x
            case (None, None) => a == []
            case _ => false
  {
    SwappedCounts(a, b, rows);
    SwappedDifferences(a, b, []);
  }

  // ---------- the effect size ----------

  function SquaredDeviation(diffs: seq<real>): nat -> real {
    (i: nat) => (At(diffs)(i) - Mean(diffs)) * (At(diffs)(i) - Mean(diffs))
  }

  /** `s` is the standard deviation with one degree of freedom subtracted. */
  ghost predicate IsStd(s: real, diffs: seq<real>) {
    s >= 0.0 && s * s * (|diffs| as real - 1.0) == Sum(|diffs|, SquaredDeviation(diffs))
  }

  /** The observed mean difference in standard deviations. */
  function Effect(diffs: seq<real>, s: real): real
    requires s >= 0.0
  {
    Mean(diffs) / (s + EPS)
  }

  lemma SquareGrows(s: real, t: real)
    requires 0.0 <= s < t
    ensures s * s < t * t
  {
    var z := (t - s) * (t + s);
    TimesPositive(t - s, t + s, z);
    assert z == t * t - s * s;
  }

  lemma RootIsUnique(s: real, t: real, k: real)
    requires s >= 0.0 && t >= 0.0 && k > 0.0 && s * s * k == t * t * k
    ensures s == t
  {
    Cancel(s * s, t * t, k);
    if s < t { SquareGrows(s, t); }
    if t < s { SquareGrows(t, s); }
  }

  lemma StdIsUnique(diffs: seq<real>, s: real, t: real)
    requires |diffs| >= 2 && IsStd(s, diffs) && IsStd(t, diffs)
    ensures s == t
  {
    hide Sum, SquaredDeviation;
    RootIsUnique(s, t, |diffs| as real - 1.0);
  }

  lemma OppositeSquare(x: real, y: real)
    requires x == -y
    ensures x * x == y * y
  {
  }

  lemma OppositeDeviation(a: seq<real>, b: seq<real>, i: nat)
    requires |a| == |b| && i < |a| && Mean(Differences(b, a)) == -Mean(Differences(a, b))
    ensures SquaredDeviation(Differences(b, a))(i) == SquaredDeviation(Differences(a, b))(i)
  {
    var d, e := Differences(a, b), Differences(b, a);
    assert At(e)(i) == -At(d)(i);
    hide Mean, Differences;
    OppositeSquare(At(e)(i) - Mean(e), At(d)(i) - Mean(d));
  }

  lemma SwappedDeviations(a: seq<real>, b: seq<real>)
    requires |a| == |b|
    ensures Sum(|a|, SquaredDeviation(Differences(b, a))) == Sum(|a|, SquaredDeviation(Differences(a, b)))
  {
    hide *;
    var f, g := SquaredDeviation(Differences(b, a)), SquaredDeviation(Differences(a, b));
    SwappedDifferences(a, b, []);
    forall i: nat | i < |a|
      ensures f(i) == g(i)
    {
      OppositeDeviation(a, b, i);
    }
    SumEq(|a|, f, g);
  }

  /** Exchanging the samples keeps the standard deviation and negates the effect size. */
  lemma SwapNegatesEffect(a: seq<real>, b: seq<real>, s: real, t: real)
    requires |a| == |b| >= 2 && IsStd(s, Differences(a, b)) && IsStd(t, Differences(b, a))
    ensures t == s && Effect(Differences(b, a), t) == -Effect(Differences(a, b), s)
  {
    SwappedDeviations(a, b);
    SwappedDifferences(a, b, []);
    hide Sum, SquaredDeviation, Mean;
    StdIsUnique(Differences(b, a), t, s);
    QuotientNegate(Mean(Differences(a, b)), s + EPS);
  }

  // ---------- the result in totals and counts ----------

  lemma DifferenceTotal(a: seq<real>, b: seq<real>)
    requires |a| == |b|
    ensures Total(Differences(a, b)) == Total(a) - Total(b)
  {
    SumLinear(|a|, 1.0, At(a), -1.0, At(b), At(Differences(a, b)));
  }

  lemma MeanTimes(xs: seq<real>)
    requires xs != []
    ensures Mean(xs) * |xs| as real == Total(xs)
  {
    Quotient(Total(xs), |xs| as real);
  }

  /** The sum of the first n absolute differences, with the signs of a row. */
  function SignedTotal(a: seq<real>, b: seq<real>, signs: Signs, n: nat): real
    requires n <= |a| == |b| == |signs|
  {
    if n == 0 then 0.0
    else
      var gap := Abs(a[n - 1] - b[n - 1]);
      SignedTotal(a, b, signs, n - 1) + if signs[n - 1] then gap else -gap
  }

  lemma {:induction false} SignedTotalIsSum(a: seq<real>, b: seq<real>, signs: Signs, n: nat)
    requires n <= |a| == |b| == |signs|
    ensures SignedTotal(a, b, signs, n) == Sum(n, Flipped(Differences(a, b), signs))
  {
    if n > 0 { SignedTotalIsSum(a, b, signs, n - 1); }
  }

  /** The rows whose signed total is at least as far from 0 as the observed difference of totals. */
  function ExtremeRows(a: seq<real>, b: seq<real>, rows: seq<Signs>): set<nat>
    requires |a| == |b| && AllOfLength(rows, |a|)
  {
    set k: nat | k < |rows| && Abs(SignedTotal(a, b, rows[k], |a|)) >= Abs(Total(a) - Total(b))
  }

  lemma {:induction false} CountExtremeRows(a: seq<real>, b: seq<real>, rows: seq<Signs>)
    requires |a| == |b| > 0 && AllOfLength(rows, |a|)
    ensures CountExtreme(Differences(a, b), rows) == |ExtremeRows(a, b, rows)|
  {
    hide Sum, Flipped, Extreme, Differences, SignedTotal;
    if rows != [] {
      var n := |rows| - 1;
      CountExtremeRows(a, b, rows[..n]);
      ExtremeRowIff(a, b, rows[n]);
      assert ExtremeRows(a, b, rows) - {n} == ExtremeRows(a, b, rows[..n]);
    } else {
      assert ExtremeRows(a, b, rows) == {};
    }
  }

  lemma ExtremeRowIff(a: seq<real>, b: seq<real>, signs: Signs)
    requires |a| == |b| == |signs| > 0
    ensures Extreme(Differences(a, b), signs) <==> Abs(SignedTotal(a, b, signs, |a|)) >= Abs(Total(a) - Total(b))
  {
    SignedTotalIsSum(a, b, signs, |a|);
    DifferenceTotal(a, b);
    ExtremeBySums(Differences(a, b), signs);
  }

  lemma PValueTimes(diffs: seq<real>, rows: seq<Signs>)
    requires rows != []
    ensures PValue(diffs, rows) * |rows| as real == CountExtreme(diffs, rows) as real
  {
    hide CountExtreme;
    Quotient(CountExtreme(diffs, rows) as real, |rows| as real);
  }

  lemma ResultIs(a: seq<real>, b: seq<real>, rows: seq<Signs>)
    requires |a| == |b| > 0 && rows != []
    ensures |Differences(a, b)| == |a|
    ensures PairedPermutation(a, b, rows) == Ok((PValue(Differences(a, b), rows), Some(Mean(Differences(a, b)))))
  {
    hide Mean, PValue;
  }

  /** The p-value is the share of extreme rows, the statistic the difference of the totals per example. */
  lemma ResultInTotals(a: seq<real>, b: seq<real>, rows: seq<Signs>)
    requires |a| == |b| > 0 && rows != [] && AllOfLength(rows, |a|)
    ensures PairedPermutation(a, b, rows).Ok? && PairedPermutation(a, b, rows).value.1.Some?
    ensures var (p, x) := PairedPermutation(a, b, rows).value;
            && p * |rows| as real == |ExtremeRows(a, b, rows)| as real
            && x.value * |a| as real == Total(a) - Total(b)
  {
    hide *;
    ResultIs(a, b, rows);
    CountExtremeRows(a, b, rows);
    PValueTimes(Differences(a, b), rows);
    DifferenceTotal(a, b);
    MeanTimes(Differences(a, b));
  }

  function SquareAt(diffs: seq<real>): nat -> real { (i: nat) => At(diffs)(i) * At(diffs)(i) }

  function Shift(diffs: seq<real>): nat -> real {
    (i: nat) => Mean(diffs) * Mean(diffs) - 2.0 * Mean(diffs) * At(diffs)(i)
  }

  lemma DeviationSplits(diffs: seq<real>)
    ensures Sum(|diffs|, SquaredDeviation(diffs)) == Sum(|diffs|, SquareAt(diffs)) + Sum(|diffs|, Shift(diffs))
  {
    hide Mean, Sum;
    forall i: nat | i < |diffs|
      ensures SquaredDeviation(diffs)(i) == 1.0 * SquareAt(diffs)(i) + 1.0 * Shift(diffs)(i)
    {
      SquareOfDifference(At(diffs)(i), Mean(diffs));
    }
    SumLinear(|diffs|, 1.0, SquareAt(diffs), 1.0, Shift(diffs), SquaredDeviation(diffs));
  }

  /** The sum of squared deviations, n times over, in sums of squares. */
  lemma DeviationsInTotals(diffs: seq<real>)
    requires diffs != []
    ensures |diffs| as real * Sum(|diffs|, SquaredDeviation(diffs))
            == |diffs| as real * Sum(|diffs|, SquareAt(diffs)) - Total(diffs) * Total(diffs)
  {
    hide *;
    DeviationSplits(diffs);
    ShiftTotal(diffs);
    MeanTimes(diffs);
    ScaledShift(|diffs| as real, Mean(diffs), Total(diffs), Sum(|diffs|, SquareAt(diffs)), Sum(|diffs|, Shift(diffs)));
  }

  lemma SquareOfDifference(x: real, m: real)
    ensures (x - m) * (x - m) == x * x + (m * m - 2.0 * m * x)
  {
  }

  lemma ShiftAt(diffs: seq<real>, one: nat -> real, i: nat)
    requires one(i) == 1.0
    ensures Shift(diffs)(i) == Mean(diffs) * Mean(diffs) * one(i) + -2.0 * Mean(diffs) * At(diffs)(i)
  {
    hide Mean, At;
  }

  lemma ShiftTotal(diffs: seq<real>)
    ensures Sum(|diffs|, Shift(diffs)) == |diffs| as real * (Mean(diffs) * Mean(diffs)) - 2.0 * Mean(diffs) * Total(diffs)
  {
    hide Mean, Sum, At, Shift;
    var n, m, one, f, shift := |diffs|, Mean(diffs), (i: nat) => 1.0, At(diffs), Shift(diffs);
    SumConst(n, 1.0, one);
    forall i: nat | i < n
      ensures shift(i) == m * m * one(i) + -2.0 * m * f(i)
    {
      ShiftAt(diffs, one, i);
    }
    SumLinear(n, m * m, one, -2.0 * m, f, shift);
  }

  lemma ScaledShift(n: real, m: real, total: real, squares: real, shift: real)
    requires m * n == total && shift == n * (m * m) - 2.0 * m * total
    ensures n * (squares + shift) == n * squares - total * total
  {
    calc {
      n * shift;
      n * (n * (m * m)) - n * (2.0 * m * total);
      (m * n) * (m * n) - 2.0 * (m * n) * total;
      -total * total;
    }
    Distribute(squares, shift, n);
  }

  lemma EffectTimes(diffs: seq<real>, s: real)
    requires s >= 0.0
    ensures Effect(diffs, s) * (s + 0.000000000001) == Mean(diffs)
  {
    hide Mean;
    Quotient(Mean(diffs), s + 0.000000000001);
  }

  lemma StdTimes(diffs: seq<real>, s: real)
    requires IsStd(s, diffs)
    ensures s >= 0.0 && |diffs| as real * (s * s * (|diffs| as real - 1.0)) == |diffs| as real * Sum(|diffs|, SquaredDeviation(diffs))
  {
    hide Sum, SquaredDeviation;
  }

  /** What the effect size is: the difference of the totals per example, over s + 10^-12, where s is
      the sample standard deviation in its textbook form. */
  lemma EffectInTotals(a: seq<real>, b: seq<real>, s: real)
    requires |a| == |b| > 0 && IsStd(s, Differences(a, b))
    ensures var (n, d) := (|a| as real, Differences(a, b));
            && s >= 0.0
            && n * (s * s * (n - 1.0)) == n * Sum(|a|, SquareAt(d)) - Total(d) * Total(d)
            && Total(d) == Total(a) - Total(b)
            && Effect(d, s) * (s + 0.000000000001) * n == Total(a) - Total(b)
  {
    hide *;
    var d := Differences(a, b);
    ResultIs(a, b, [[]]);
    StdTimes(d, s);
    DeviationsInTotals(d);
    DifferenceTotal(a, b);
    EffectTimes(d, s);
    MeanTimes(d);
  }

  // ---------- one-sided differences ----------

  ghost predicate NonNegative(diffs: seq<real>) { forall i | 0 <= i < |diffs| :: diffs[i] >= 0.0 }

  ghost predicate NonPositive(diffs: seq<real>) { forall i | 0 <= i < |diffs| :: diffs[i] <= 0.0 }

  /** All differences point one way. */
  ghost predicate OneSided(diffs: seq<real>) { NonNegative(diffs) || NonPositive(diffs) }

  /** The row has sign s on every nonzero difference. */
  predicate Uniform(diffs: seq<real>, signs: Signs, s: bool)
    requires |signs| == |diffs|
  {
    forall i | 0 <= i < |diffs| && diffs[i] != 0.0 :: signs[i] == s
  }

  /** The row repeats the observed signs (s) or reverses them (!s) wherever there is a difference. */
  predicate Matches(diffs: seq<real>, signs: Signs, s: bool)
    requires |signs| == |diffs|
  {
    forall i | 0 <= i < |diffs| && diffs[i] != 0.0 :: signs[i] == (s == (diffs[i] > 0.0))
  }

  /** Repeating or reversing the observed signs reproduces the observed mean up to its sign. */
  lemma MatchingRowIsExtreme(diffs: seq<real>, signs: Signs, s: bool)
    requires |signs| == |diffs| > 0 && Matches(diffs, signs, s)
    ensures Extreme(diffs, signs)
  {
    var n, c := |diffs|, Signed(s, 1.0);
    forall i: nat | i < n
      ensures Flipped(diffs, signs)(i) == c * At(diffs)(i)
    {
    }
    SumScale(n, c, At(diffs), Flipped(diffs, signs));
    ExtremeBySums(diffs, signs);
  }

  /** |a + b| for nonnegative parts taken with signs: strictly less than the whole once the signs
      of two nonzero parts differ. */
  lemma {:induction false} MixedSignsLose(n: nat, f: nat -> real, g: nat -> real)
    requires forall i: nat | i < n :: f(i) >= 0.0 && (g(i) == f(i) || g(i) == -f(i))
    ensures Abs(Sum(n, g)) <= Sum(n, f)
    ensures Sum(n, g) == Sum(n, f) <==> forall i: nat | i < n :: g(i) == f(i)
    ensures Sum(n, g) == -Sum(n, f) <==> forall i: nat | i < n :: g(i) == -f(i)
  {
    if n > 0 { MixedSignsLose(n - 1, f, g); }
  }

  function AbsAt(diffs: seq<real>): nat -> real {
    (i: nat) => if i < |diffs| then Abs(diffs[i]) else 0.0
  }

  lemma OneSidedTotal(diffs: seq<real>)
    requires OneSided(diffs)
    ensures Abs(Total(diffs)) == Sum(|diffs|, AbsAt(diffs))
  {
    SumNonNegative(|diffs|, AbsAt(diffs));
    if NonNegative(diffs) {
      SumEq(|diffs|, At(diffs), AbsAt(diffs));
    } else {
      SumScale(|diffs|, -1.0, AbsAt(diffs), At(diffs));
    }
  }

  lemma AbsQuotient(x: real, d: real)
    requires d > 0.0
    ensures Abs(x / d) == Abs(x) / d
  {
  }

  /** Dividing by n does not change which rows are extreme. */
  lemma ExtremeBySums(diffs: seq<real>, signs: Signs)
    requires diffs != []
    ensures Extreme(diffs, signs) <==> Abs(Sum(|diffs|, Flipped(diffs, signs))) >= Abs(Total(diffs))
  {
    var n := |diffs| as real;
    var x, y := Sum(|diffs|, Flipped(diffs, signs)), Total(diffs);
    AbsQuotient(x, n);
    AbsQuotient(y, n);
    QuotientLe(Abs(y), Abs(x), n);
  }

  /** When all differences point one way, a row counts exactly if its signs agree on every nonzero
      difference. */
  lemma OneSidedExtreme(diffs: seq<real>, signs: Signs)
    requires |signs| == |diffs| > 0 && OneSided(diffs)
    ensures Extreme(diffs, signs) <==> Uniform(diffs, signs, true) || Uniform(diffs, signs, false)
  {
    var n := |diffs|;
    ExtremeBySums(diffs, signs);
    OneSidedTotal(diffs);
    var f, g := AbsAt(diffs), Flipped(diffs, signs);
    MixedSignsLose(n, f, g);
    forall i: nat | i < n
      ensures g(i) == f(i) <==> diffs[i] == 0.0 || signs[i]
      ensures g(i) == -f(i) <==> diffs[i] == 0.0 || !signs[i]
    {
    }
    assert Uniform(diffs, signs, true) <==> forall i: nat | i < n :: g(i) == f(i);
    assert Uniform(diffs, signs, false) <==> forall i: nat | i < n :: g(i) == -f(i);
  }

  // ---------- the full sign cube ----------

  function AppendAll(rows: seq<Signs>, s: bool): seq<Signs> {
    seq(|rows|, i requires 0 <= i < |rows| => rows[i] + [s])
  }

  /** Every sign vector of length n, once. */
  function SignCube(n: nat): seq<Signs> {
    if n == 0 then [[]] else AppendAll(SignCube(n - 1), true) + AppendAll(SignCube(n - 1), false)
  }

  ghost predicate AllOfLength(rows: seq<Signs>, n: nat) { forall k | 0 <= k < |rows| :: |rows[k]| == n }

  lemma {:induction false} CubeShape(n: nat)
    ensures |SignCube(n)| == Pow2(n) > 0 && AllOfLength(SignCube(n), n)
  {
    if n > 0 {
      CubeShape(n - 1);
    }
  }

  lemma {:induction false} CubeIsComplete(n: nat, signs: Signs)
    requires |signs| == n
    ensures signs in SignCube(n)
  {
    if n > 0 {
      var front, s := signs[..n - 1], signs[n - 1];
      CubeIsComplete(n - 1, front);
      var k :| 0 <= k < |SignCube(n - 1)| && SignCube(n - 1)[k] == front;
      assert AppendAll(SignCube(n - 1), s)[k] == signs;
    }
  }

  function CountMatches(diffs: seq<real>, rows: seq<Signs>, s: bool): nat
    requires AllOfLength(rows, |diffs|)
  {
    if rows == [] then 0
    else CountMatches(diffs, rows[..|rows| - 1], s) + if Matches(diffs, rows[|rows| - 1], s) then 1 else 0
  }

  lemma {:induction false} CountMatchesAppend(diffs: seq<real>, xs: seq<Signs>, ys: seq<Signs>, s: bool)
    requires AllOfLength(xs, |diffs|) && AllOfLength(ys, |diffs|)
    ensures CountMatches(diffs, xs + ys, s) == CountMatches(diffs, xs, s) + CountMatches(diffs, ys, s)
  {
    hide Matches;
    if ys == [] {
      assert xs + ys == xs;
    } else {
      CountMatchesAppend(diffs, xs, ys[..|ys| - 1], s);
      assert (xs + ys)[..|xs + ys| - 1] == xs + ys[..|ys| - 1];
    }
  }

  lemma MatchesSnoc(diffs: seq<real>, x: real, signs: Signs, t: bool, s: bool)
    requires |signs| == |diffs|
    ensures Matches(diffs + [x], signs + [t], s) <==> Matches(diffs, signs, s) && (x == 0.0 || t == (s == (x > 0.0)))
  {
    var d, r := diffs + [x], signs + [t];
    if Matches(d, r, s) {
      forall i | 0 <= i < |diffs| && diffs[i] != 0.0
        ensures signs[i] == (s == (diffs[i] > 0.0))
      {
        assert d[i] == diffs[i] && r[i] == signs[i];
      }
      assert d[|diffs|] == x && r[|diffs|] == t;
    }
  }

  lemma {:induction false} CountMatchesLifted(diffs: seq<real>, x: real, rows: seq<Signs>, t: bool, s: bool)
    requires AllOfLength(rows, |diffs|)
    ensures CountMatches(diffs + [x], AppendAll(rows, t), s)
            == if x == 0.0 || t == (s == (x > 0.0)) then CountMatches(diffs, rows, s) else 0
  {
    hide Matches;
    if rows != [] {
      var front := rows[..|rows| - 1];
      CountMatchesLifted(diffs, x, front, t, s);
      assert AppendAll(rows, t)[..|rows| - 1] == AppendAll(front, t);
      MatchesSnoc(diffs, x, rows[|rows| - 1], t, s);
    }
  }

  /** How many differences are zero. */
  function Zeros(diffs: seq<real>): nat {
    if diffs == [] then 0
    else Zeros(diffs[..|diffs| - 1]) + if diffs[|diffs| - 1] == 0.0 then 1 else 0
  }

  /** One more difference: both choices of its sign count if it is zero, one of them otherwise. */
  lemma CubeMatchesStep(diffs: seq<real>, x: real, s: bool)
    ensures AllOfLength(SignCube(|diffs|), |diffs|) && AllOfLength(SignCube(|diffs| + 1), |diffs| + 1)
    ensures CountMatches(diffs + [x], SignCube(|diffs| + 1), s)
            == (if x == 0.0 then 2 else 1) * CountMatches(diffs, SignCube(|diffs|), s)
  {
    CubeShape(|diffs|);
    CubeShape(|diffs| + 1);
    hide CountMatches, Matches;
    var cube := SignCube(|diffs|);
    CountMatchesLifted(diffs, x, cube, true, s);
    CountMatchesLifted(diffs, x, cube, false, s);
    CountMatchesAppend(diffs + [x], AppendAll(cube, true), AppendAll(cube, false), s);
  }

  lemma NoDifferences(s: bool)
    ensures AllOfLength(SignCube(0), 0) && CountMatches([], SignCube(0), s) == 1
  {
  }

  /** In the cube, exactly 2^zeros rows repeat the observed signs, and as many reverse them. */
  lemma {:induction false} CubeMatches(diffs: seq<real>, s: bool)
    ensures AllOfLength(SignCube(|diffs|), |diffs|)
    ensures CountMatches(diffs, SignCube(|diffs|), s) == Pow2(Zeros(diffs))
  {
    hide CountMatches, SignCube, AllOfLength;
    CubeShape(|diffs|);
    if diffs == [] {
      NoDifferences(s);
    } else {
      var n := |diffs| - 1;
      CubeMatches(diffs[..n], s);
      assert diffs == diffs[..n] + [diffs[n]];
      CubeMatchesStep(diffs[..n], diffs[n], s);
    }
  }

  lemma {:induction false} ZerosBound(diffs: seq<real>)
    ensures Zeros(diffs) <= |diffs|
    ensures Zeros(diffs) == |diffs| <==> forall i | 0 <= i < |diffs| :: diffs[i] == 0.0
  {
    if diffs != [] { ZerosBound(diffs[..|diffs| - 1]); }
  }

  lemma NoRowMatchesBothWays(diffs: seq<real>, signs: Signs, k: nat)
    requires |signs| == |diffs| && k < |diffs| && diffs[k] != 0.0
    ensures !(Matches(diffs, signs, true) && Matches(diffs, signs, false))
  {
  }

  /** Rows that repeat or reverse the observed signs are extreme; for one-sided differences no other
      row is. */
  lemma {:induction false} ExtremeCounts(diffs: seq<real>, rows: seq<Signs>, k: nat)
    requires AllOfLength(rows, |diffs|) && k < |diffs| && diffs[k] != 0.0
    ensures CountExtreme(diffs, rows) >= CountMatches(diffs, rows, true) + CountMatches(diffs, rows, false)
    ensures OneSided(diffs) ==>
              CountExtreme(diffs, rows) == CountMatches(diffs, rows, true) + CountMatches(diffs, rows, false)
  {
    if rows != [] {
      ExtremeCounts(diffs, rows[..|rows| - 1], k);
      var r := rows[|rows| - 1];
      NoRowMatchesBothWays(diffs, r, k);
      OneSidedMatches(diffs, r);
      if Matches(diffs, r, true) { MatchingRowIsExtreme(diffs, r, true); }
      if Matches(diffs, r, false) { MatchingRowIsExtreme(diffs, r, false); }
    }
  }

  lemma OneSidedMatches(diffs: seq<real>, signs: Signs)
    requires |signs| == |diffs| > 0
    ensures OneSided(diffs) ==>
              (Extreme(diffs, signs) <==> Matches(diffs, signs, true) || Matches(diffs, signs, false))
  {
    hide Extreme;
    if NonNegative(diffs) {
      OneSidedExtreme(diffs, signs);
      assert Matches(diffs, signs, true) == Uniform(diffs, signs, true);
      assert Matches(diffs, signs, false) == Uniform(diffs, signs, false);
    } else if NonPositive(diffs) {
      OneSidedExtreme(diffs, signs);
      assert Matches(diffs, signs, true) == Uniform(diffs, signs, false);
      assert Matches(diffs, signs, false) == Uniform(diffs, signs, true);
    }
  }

  lemma CubeCount(diffs: seq<real>)
    requires Zeros(diffs) < |diffs|
    ensures CountExtreme(diffs, SignCube(|diffs|)) >= Pow2(Zeros(diffs) + 1)
    ensures OneSided(diffs) ==> CountExtreme(diffs, SignCube(|diffs|)) == Pow2(Zeros(diffs) + 1)
  {
    ZerosBound(diffs);
    hide SignCube, CountMatches, CountExtreme, Zeros;
    CubeShape(|diffs|);
    var k: nat :| k < |diffs| && diffs[k] != 0.0;
    CubeMatches(diffs, true);
    CubeMatches(diffs, false);
    ExtremeCounts(diffs, SignCube(|diffs|), k);
  }

  lemma PValueAtLeast(diffs: seq<real>, rows: seq<Signs>, c: nat, n: nat)
    requires |rows| == n > 0 && CountExtreme(diffs, rows) >= c
    ensures PValue(diffs, rows) >= Share(c, n)
    ensures CountExtreme(diffs, rows) == c ==> PValue(diffs, rows) == Share(c, n)
  {
  }

  /** Over the full sign cube: with z zero differences and some nonzero one the p-value is at least
      2^(z + 1) / 2^n, hence at least 2 / 2^n, and exactly that when all differences point one way. */
  lemma CubePValue(diffs: seq<real>)
    requires Zeros(diffs) < |diffs|
    ensures SignCube(|diffs|) != []
    ensures PValue(diffs, SignCube(|diffs|)) >= Share(Pow2(Zeros(diffs) + 1), Pow2(|diffs|))
    ensures OneSided(diffs) ==>
              PValue(diffs, SignCube(|diffs|)) == Share(Pow2(Zeros(diffs) + 1), Pow2(|diffs|))
  {
    hide *;
    CubeShape(|diffs|);
    CubeCount(diffs);
    PValueAtLeast(diffs, SignCube(|diffs|), Pow2(Zeros(diffs) + 1), Pow2(|diffs|));
  }

  /** With no difference at all every row is extreme: the p-value is 1 for every draw. */
  lemma {:induction false} NoDifferenceIsCertain(diffs: seq<real>, rows: seq<Signs>)
    requires diffs != [] && Zeros(diffs) == |diffs|
    requires AllOfLength(rows, |diffs|)
    ensures CountExtreme(diffs, rows) == |rows|
  {
    if rows != [] {
      ZerosBound(diffs);
      NoDifferenceIsCertain(diffs, rows[..|rows| - 1]);
      MatchingRowIsExtreme(diffs, rows[|rows| - 1], true);
    }
  }
}
