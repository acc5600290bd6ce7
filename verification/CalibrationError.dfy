/** `expected_calibration_error` (melp/metrics/probability.py). */
module CalibrationError {
  import opened Sums
  import opened Arith
  import opened Bins
  import opened Categories

  /** `bins[i]` of `np.linspace(0, 1, nBins + 1)`. */
  function Edge(nBins: nat, b: nat): real
    requires nBins > 0
  {
    b as real / nBins as real
  }

  /** Bins are half-open, except the last, which contains its upper edge. */
  predicate InBin(nBins: nat, b: nat, x: real)
    requires b < nBins
  {
    Edge(nBins, b) <= x && if b < nBins - 1 then x < Edge(nBins, b + 1) else x <= Edge(nBins, b + 1)
  }

  function Holds(p: seq<real>, nBins: nat): (nat, nat) -> bool {
    (b: nat, i: nat) => b < nBins && i < |p| && InBin(nBins, b, p[i])
  }

  /** The signed miscalibration of example i: its confidence minus whether the label is 1. */
  function GapAt(p: seq<real>, y: seq<int>, i: nat): real { At(p)(i) - Is(y, 1)(i) }

  function Gap(p: seq<real>, y: seq<int>): nat -> real { (i: nat) => GapAt(p, y, i) }

  function AbsGap(p: seq<real>, y: seq<int>): nat -> real { (i: nat) => Abs(GapAt(p, y, i)) }

  /** The contribution of one bin: the size of the summed gap over its examples. */
  function BinGap(p: seq<real>, y: seq<int>, nBins: nat): nat -> real {
    AbsBinTotal(|p|, Holds(p, nBins), Gap(p, y))
  }

  // ---------- the bins partition [0, 1] ----------

  /** Scanning the upper edges finds a bin for every score in [0, 1]. */
  lemma {:induction false} SomeBin(nBins: nat, x: real, b: nat) returns (found: nat)
    requires b < nBins && Edge(nBins, b) <= x <= 1.0
    ensures found < nBins && InBin(nBins, found, x)
    decreases nBins - b
  {
    if b == nBins - 1 {
      QuotientOne(nBins as real, nBins as real);
      found := b;
    } else if x < Edge(nBins, b + 1) {
      found := b;
    } else {
      found := SomeBin(nBins, x, b + 1);
    }
  }

  lemma BinsAreDisjoint(p: seq<real>, nBins: nat)
    ensures Disjoint(nBins, |p|, Holds(p, nBins))
  {
    forall b: nat, c: nat, i: nat | b < c < nBins && i < |p|
      ensures !(Holds(p, nBins)(b, i) && Holds(p, nBins)(c, i))
    {
      QuotientLe((b + 1) as real, c as real, nBins as real);
    }
  }

  ghost predicate InUnitInterval(p: seq<real>) {
    forall i | 0 <= i < |p| :: 0.0 <= p[i] <= 1.0
  }

  lemma BinsCover(p: seq<real>, nBins: nat)
    requires nBins > 0 && InUnitInterval(p)
    ensures Covers(nBins, |p|, Holds(p, nBins))
  {
    forall i: nat | i < |p|
      ensures HasBin(nBins, Holds(p, nBins), i)
    {
      QuotientSign(0.0, nBins as real);
      var b := SomeBin(nBins, p[i], 0);
      assert Holds(p, nBins)(b, i);
    }
  }

  // ---------- the program ----------

  function One(i: nat): real { 1.0 }

  lemma BinGapSplits(p: seq<real>, y: seq<int>, nBins: nat, b: nat)
    ensures BinTotal(|p|, Holds(p, nBins), Gap(p, y), b)
            == BinTotal(|p|, Holds(p, nBins), At(p), b) - BinTotal(|p|, Holds(p, nBins), Is(y, 1), b)
  {
    var h := Holds(p, nBins);
    SumLinear(|p|, 1.0, Row(Cell(h, At(p)), b), -1.0, Row(Cell(h, Is(y, 1)), b), Row(Cell(h, Gap(p, y)), b));
  }

  /** Within a bin, |confidence - accuracy| times the share of the bin is the summed gap over n. */
  lemma BinTerm(scores: real, hits: real, count: real, n: real)
    requires count > 0.0 && n > 0.0
    ensures Abs(scores / count - hits / count) * count / n == Abs(scores - hits) / n
  {
  }

  lemma CountNonNegative(n: nat, holds: (nat, nat) -> bool, b: nat)
    ensures BinTotal(n, holds, One, b) >= 0.0
  {
    SumNonNegative(n, Row(Cell(holds, One), b));
  }

  lemma EmptyBin(p: seq<real>, y: seq<int>, nBins: nat, b: nat)
    requires BinTotal(|p|, Holds(p, nBins), One, b) == 0.0
    ensures BinGap(p, y, nBins)(b) == 0.0
  {
    var h := Holds(p, nBins);
    SumNonNegative(|p|, Row(Cell(h, One), b));
    forall i: nat | i < |p|
      ensures Row(Cell(h, Gap(p, y)), b)(i) == 0.0
    {
      assert Row(Cell(h, One), b)(i) == 0.0;
    }
    SumConst(|p|, 0.0, Row(Cell(h, Gap(p, y)), b));
  }

  /** One nonempty bin of the loop. */
  method BinContribution(p: seq<real>, y: seq<int>, nBins: nat, b: nat, count: real) returns (term: real)
    requires |p| == |y| > 0 && count > 0.0
    ensures term == Abs(BinTotal(|p|, Holds(p, nBins), At(p), b) / count
                        - BinTotal(|p|, Holds(p, nBins), Is(y, 1), b) / count) * count / |p| as real
    ensures term == BinGap(p, y, nBins)(b) / |p| as real
  {
    var n, h := |p|, Holds(p, nBins);
    var scores, hits := BinTotal(n, h, At(p), b), BinTotal(n, h, Is(y, 1), b);
    var conf, acc := scores / count, hits / count;
    term := Abs(conf - acc) * count / n as real;
    BinTerm(scores, hits, count, n as real);
    BinGapSplits(p, y, nBins, b);
    QuotientEq(Abs(scores - hits), BinGap(p, y, nBins)(b), n as real);
  }

  /** `expected_calibration_error`: the per-bin gaps, added up and divided by n. */
  method Ece(p: seq<real>, y: seq<int>, nBins: nat) returns (ece: real)
    requires |p| == |y|
    ensures p == [] ==> ece == 0.0
    ensures p != [] ==> ece == Sum(nBins, BinGap(p, y, nBins)) / |p| as real
  {
    ece := 0.0;
    var n := |p|;
    if n > 0 {
      QuotientSign(0.0, n as real);
    }
    for b := 0 to nBins
      invariant n == 0 ==> ece == 0.0
      invariant n > 0 ==> ece == Sum(b, BinGap(p, y, nBins)) / n as real
    {
      var count := BinTotal(n, Holds(p, nBins), One, b);
      if count == 0.0 {
        EmptyBin(p, y, nBins, b);
        continue;
      }
      CountNonNegative(n, Holds(p, nBins), b);
      var term := BinContribution(p, y, nBins, b, count);
      QuotientAdd(Sum(b, BinGap(p, y, nBins)), BinGap(p, y, nBins)(b), n as real);
      ece := ece + term;
    }
  }

  // ---------- bounds ----------

  /** For any scores at all, ECE is at most the mean absolute gap. */
  lemma UpperBound(p: seq<real>, y: seq<int>, nBins: nat)
    ensures Sum(nBins, BinGap(p, y, nBins)) <= Sum(|p|, AbsGap(p, y))
  {
    BinsAreDisjoint(p, nBins);
    BinningCancels(nBins, |p|, Holds(p, nBins), Gap(p, y), AbsGap(p, y));
  }

  /** With every score in [0, 1] no example is lost, so the overall gap survives the binning. */
  lemma LowerBound(p: seq<real>, y: seq<int>, nBins: nat)
    requires |p| == |y| && nBins > 0
    requires InUnitInterval(p)
    ensures Abs(Sum(|p|, At(p)) - Sum(|p|, Is(y, 1))) <= Sum(nBins, BinGap(p, y, nBins))
  {
    assert Abs(Sum(|p|, Gap(p, y))) <= Sum(nBins, BinGap(p, y, nBins)) by {
      BinsAreDisjoint(p, nBins);
      BinsCover(p, nBins);
      CoveringKeepsTotal(nBins, |p|, Holds(p, nBins), Gap(p, y));
    }
    assert Sum(|p|, Gap(p, y)) == Sum(|p|, At(p)) - Sum(|p|, Is(y, 1)) by {
      SumLinear(|p|, 1.0, At(p), -1.0, Is(y, 1), Gap(p, y));
    }
  }

  lemma AbsGapsAtMostOne(p: seq<real>, y: seq<int>)
    requires |p| == |y|
    requires InUnitInterval(p)
    ensures Sum(|p|, AbsGap(p, y)) <= |p| as real
  {
    SumConst(|p|, 1.0, One);
    forall i: nat | i < |p|
      ensures AbsGap(p, y)(i) <= One(i)
    {
      assert 0.0 <= p[i] <= 1.0 && GapAt(p, y, i) == p[i] - Indicator(y[i] == 1);
    }
    SumLe(|p|, AbsGap(p, y), One);
  }

  /** |mean(p) - mean(y = 1)| <= ECE <= mean |p - (y = 1)| <= 1 for scores in [0, 1]. */
  lemma EceBounds(p: seq<real>, y: seq<int>, nBins: nat)
    requires |p| == |y| > 0 && nBins > 0
    requires InUnitInterval(p)
    ensures var n, ece := |p| as real, Sum(nBins, BinGap(p, y, nBins)) / |p| as real;
            Abs(Sum(|p|, At(p)) - Sum(|p|, Is(y, 1))) / n <= ece <= Sum(|p|, AbsGap(p, y)) / n <= 1.0
  {
    var n := |p| as real;
    var low, mid, high := Abs(Sum(|p|, At(p)) - Sum(|p|, Is(y, 1))), Sum(nBins, BinGap(p, y, nBins)), Sum(|p|, AbsGap(p, y));
    assert low <= mid <= high <= n by {
      LowerBound(p, y, nBins);
      UpperBound(p, y, nBins);
      AbsGapsAtMostOne(p, y);
    }
    QuotientLe(low, mid, n);
    QuotientLe(mid, high, n);
    QuotientOne(high, n);
  }

  /** A score outside [0, 1] falls in no bin: the overall gap is then lost from the error. */
  lemma OutOfRangeScoreIsLost(x: real, reference: int, nBins: nat)
    requires nBins > 0 && (x < 0.0 || x > 1.0)
    ensures Sum(nBins, BinGap([x], [reference], nBins)) == 0.0
  {
    forall b: nat | b < nBins
      ensures BinGap([x], [reference], nBins)(b) == 0.0
    {
      QuotientSign(b as real, nBins as real);
      QuotientOne((b + 1) as real, nBins as real);
      SumConst(1, 0.0, Row(Cell(Holds([x], nBins), Gap([x], [reference])), b));
    }
    SumConst(nBins, 0.0, BinGap([x], [reference], nBins));
  }

  // ---------- when the lower bound holds ----------

  predicate InRange(x: real) { 0.0 <= x <= 1.0 }

  /** The bins hold exactly the scores in [0, 1]. */
  lemma BinnedIffInRange(p: seq<real>, nBins: nat, i: nat)
    requires nBins > 0 && i < |p|
    ensures HasBin(nBins, Holds(p, nBins), i) <==> InRange(p[i])
  {
    if InRange(p[i]) {
      QuotientSign(0.0, nBins as real);
      var b := SomeBin(nBins, p[i], 0);
      assert Holds(p, nBins)(b, i);
    }
    if HasBin(nBins, Holds(p, nBins), i) {
      var b: nat :| b < nBins && Holds(p, nBins)(b, i);
      QuotientSign(b as real, nBins as real);
      QuotientOne((b + 1) as real, nBins as real);
    }
  }

  /** The terms of g at the scores in [0, 1], and at the others. */
  function Kept(p: seq<real>, g: nat -> real): nat -> real {
    (i: nat) => if i < |p| && InRange(p[i]) then g(i) else 0.0
  }

  function Lost(p: seq<real>, g: nat -> real): nat -> real {
    (i: nat) => if i < |p| && !InRange(p[i]) then g(i) else 0.0
  }

  /** The overall gap is at most the binned one, both times n. */
  ghost predicate MeetsBound(p: seq<real>, y: seq<int>, nBins: nat) {
    Abs(Sum(|p|, At(p)) - Sum(|p|, Is(y, 1))) <= Sum(nBins, BinGap(p, y, nBins))
  }

  lemma KeptAndLost(p: seq<real>, g: nat -> real)
    ensures Sum(|p|, g) == Sum(|p|, Kept(p, g)) + Sum(|p|, Lost(p, g))
  {
    SumLinear(|p|, 1.0, Kept(p, g), 1.0, Lost(p, g), g);
  }

  lemma KeptIsBinned(p: seq<real>, nBins: nat, g: nat -> real)
    requires nBins > 0 && forall i: nat | i < |p| && InRange(p[i]) :: g(i) >= 0.0
    ensures Sum(nBins, AbsBinTotal(|p|, Holds(p, nBins), g)) == Sum(|p|, Kept(p, g)) >= 0.0
  {
    BinsAreDisjoint(p, nBins);
    forall i: nat | i < |p|
      ensures HasBin(nBins, Holds(p, nBins), i) <==> InRange(p[i])
    {
      BinnedIffInRange(p, nBins, i);
    }
    NonNegativeBins(nBins, |p|, Holds(p, nBins), g, Kept(p, g));
    SumNonNegative(|p|, Kept(p, g));
  }

  lemma GapUpToSign(p: seq<real>, y: seq<int>, g: nat -> real, sign: real)
    requires sign == 1.0 || sign == -1.0
    requires forall i: nat | i < |p| :: g(i) == sign * GapAt(p, y, i)
    ensures Abs(Sum(|p|, g)) == Abs(Sum(|p|, At(p)) - Sum(|p|, Is(y, 1)))
  {
    SumLinear(|p|, sign, At(p), -sign, Is(y, 1), g);
  }

  /** When the gaps of the binned scores are of one sign and those of the others add to it, binning
      loses exactly the latter. */
  lemma LostGapBreaksBound(p: seq<real>, y: seq<int>, nBins: nat, g: nat -> real, sign: real)
    requires nBins > 0 && (sign == 1.0 || sign == -1.0)
    requires forall i: nat | i < |p| :: g(i) == sign * GapAt(p, y, i)
    requires forall i: nat | i < |p| && InRange(p[i]) :: g(i) >= 0.0
    requires Sum(|p|, Lost(p, g)) > 0.0
    ensures !MeetsBound(p, y, nBins)
  {
    GapUpToSign(p, y, g, sign);
    BinGapsUpToSign(p, y, nBins, g, sign);
    KeptAndLost(p, g);
    KeptIsBinned(p, nBins, g);
    hide Sum, Kept, Lost, BinGap, AbsBinTotal;
  }

  lemma BinGapsUpToSign(p: seq<real>, y: seq<int>, nBins: nat, g: nat -> real, sign: real)
    requires sign == 1.0 || sign == -1.0
    requires forall i: nat | i < |p| :: g(i) == sign * GapAt(p, y, i)
    ensures Sum(nBins, AbsBinTotal(|p|, Holds(p, nBins), g)) == Sum(nBins, BinGap(p, y, nBins))
  {
    var n, h, opposite := |p|, Holds(p, nBins), (i: nat) => -g(i);
    NegatedBins(nBins, n, h, g, opposite);
    if sign == 1.0 {
      NegatedBins(nBins, n, h, Gap(p, y), opposite);
    } else {
      NegatedBins(nBins, n, h, Gap(p, y), g);
    }
  }

  function AllLabelled(n: nat, value: int): seq<int> { seq(n, _ => value) }

  function Constant(c: real): nat -> real { (i: nat) => c }

  function ToOne(p: seq<real>): nat -> real { (i: nat) => 1.0 - At(p)(i) }

  lemma LostTotals(p: seq<real>)
    requires !InUnitInterval(p)
    ensures Sum(|p|, Lost(p, At(p))) > 0.0 || Sum(|p|, Lost(p, ToOne(p))) > 0.0
  {
    var n, stray := |p|, Lost(p, Constant(1.0));
    SumNonNegative(n, stray);
    var k :| 0 <= k < n && !InRange(p[k]);
    assert stray(k) == 1.0;
    SumLinear(n, 1.0, stray, -1.0, Lost(p, At(p)), Lost(p, ToOne(p)));
  }

  /** With a score outside [0, 1], labelling everything 0 or labelling everything 1 breaks the bound. */
  lemma StrayScoreBreaksBound(p: seq<real>, nBins: nat) returns (y: seq<int>)
    requires nBins > 0 && !InUnitInterval(p)
    ensures |y| == |p| && !MeetsBound(p, y, nBins)
  {
    LostTotals(p);
    hide Sum, Lost;
    if Sum(|p|, Lost(p, At(p))) > 0.0 {
      y := AllLabelled(|p|, 0);
      LostGapBreaksBound(p, y, nBins, At(p), 1.0);
    } else {
      y := AllLabelled(|p|, 1);
      LostGapBreaksBound(p, y, nBins, ToOne(p), -1.0);
    }
  }

  /** The binned error bounds the overall gap for all labels if and only if every score is in [0, 1]. */
  lemma LowerBoundIff(p: seq<real>, nBins: nat)
    requires nBins > 0
    ensures (forall y: seq<int> | |y| == |p| :: MeetsBound(p, y, nBins)) <==> InUnitInterval(p)
  {
    if InUnitInterval(p) {
      forall y: seq<int> | |y| == |p|
        ensures MeetsBound(p, y, nBins)
      {
        LowerBound(p, y, nBins);
      }
    } else {
      var y := StrayScoreBreaksBound(p, nBins);
    }
  }

  // ---------- which bin ----------

  /** Bin b of n holds the scores from b/n on, before (b + 1)/n; the last one holds 1 as well. */
  predicate InBinByIndex(nBins: nat, b: nat, x: real) {
    b as real <= x * nBins as real && (x * nBins as real < b as real + 1.0 || (b + 1 == nBins && x == 1.0))
  }

  lemma EdgeIff(nBins: nat, b: nat, x: real)
    requires nBins > 0
    ensures Edge(nBins, b) <= x <==> b as real <= x * nBins as real
    ensures x <= Edge(nBins, b) <==> x * nBins as real <= b as real
  {
    var n := nBins as real;
    Quotient(b as real, n);
    hide Edge;
    assert Edge(nBins, b) * n == b as real;
    if Edge(nBins, b) <= x { TimesLe(Edge(nBins, b), x, n); }
    if x <= Edge(nBins, b) { TimesLe(x, Edge(nBins, b), n); }
    if b as real <= x * n { CancelLe(Edge(nBins, b), x, n); }
    if x * n <= b as real { CancelLe(x, Edge(nBins, b), n); }
  }

  lemma InBinIff(nBins: nat, b: nat, x: real)
    requires b < nBins
    ensures InBin(nBins, b, x) <==> InBinByIndex(nBins, b, x)
  {
    EdgeIff(nBins, b, x);
    EdgeIff(nBins, b + 1, x);
    if b + 1 == nBins { LastEdge(nBins, x); }
    hide Edge;
  }

  lemma LastEdge(n: nat, x: real)
    requires n > 0
    ensures x * n as real == n as real <==> x == 1.0
  {
    if x * n as real == n as real { Cancel(x, 1.0, n as real); }
  }

  /** What one bin adds to n times the error: the size of the sum, over the examples whose score is in
      the bin, of the score minus 1 for label 1, and of the score alone for any other label. */
  lemma BinGapIs(p: seq<real>, y: seq<int>, nBins: nat, b: nat, terms: nat -> real)
    requires |p| == |y| && b < nBins
    requires forall i: nat | i < |p| ::
               terms(i) == if InBinByIndex(nBins, b, p[i]) then p[i] - (if y[i] == 1 then 1.0 else 0.0) else 0.0
    ensures BinGap(p, y, nBins)(b) == Abs(Sum(|p|, terms))
  {
    hide InBin, InBinByIndex;
    var row := Row(Cell(Holds(p, nBins), Gap(p, y)), b);
    forall i: nat | i < |p|
      ensures row(i) == terms(i)
    {
      InBinIff(nBins, b, p[i]);
    }
    SumEq(|p|, row, terms);
  }
}
