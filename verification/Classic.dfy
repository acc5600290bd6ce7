/** Confusion counts and the averages built on them (melp/metrics/classic.py). Class labels are
    integers; `np.unique` sorts them. */
module Classic {
  import opened Wrappers
  import opened Sums
  import opened Arith
  import opened Bins
  import opened Categories
  import opened Shares

  function Correct(p: seq<int>, r: seq<int>): seq<real> {
    seq(|p|, i requires 0 <= i < |p| => if i < |r| then Indicator(p[i] == r[i]) else 0.0)
  }

  /** `accuracy`: the mean of the per-example hits, 0 for no examples; a length mismatch raises. */
  function Accuracy(p: seq<int>, r: seq<int>): Result<(real, seq<real>), string> {
    if |p| != |r| then Err("predictions and references must be same length")
    else Ok((Mean(Correct(p, r)), Correct(p, r)))
  }

  // ---------- _confusion ----------

  function Both(p: seq<int>, r: seq<int>, c: int): nat -> real {
    (i: nat) => if i < |p| && i < |r| then Indicator(p[i] == c && r[i] == c) else 0.0
  }

  function PredictedOnly(p: seq<int>, r: seq<int>, c: int): nat -> real {
    (i: nat) => if i < |p| && i < |r| then Indicator(p[i] == c && r[i] != c) else 0.0
  }

  function Tp(p: seq<int>, r: seq<int>, c: int): real { Sum(|p|, Both(p, r, c)) }

  function Fp(p: seq<int>, r: seq<int>, c: int): real { Sum(|p|, PredictedOnly(p, r, c)) }

  function Fn(p: seq<int>, r: seq<int>, c: int): real { Sum(|p|, PredictedOnly(r, p, c)) }

  /** Predicted positives and actual positives of a class. */
  lemma ConfusionCounts(p: seq<int>, r: seq<int>, c: int)
    requires |p| == |r|
    ensures 0.0 <= Tp(p, r, c) && 0.0 <= Fp(p, r, c) && 0.0 <= Fn(p, r, c)
    ensures Tp(p, r, c) + Fp(p, r, c) == CountOf(p, c)
    ensures Tp(p, r, c) + Fn(p, r, c) == CountOf(r, c)
  {
    var n := |p|;
    SumNonNegative(n, Both(p, r, c));
    SumNonNegative(n, PredictedOnly(p, r, c));
    SumNonNegative(n, PredictedOnly(r, p, c));
    SumLinear(n, 1.0, Both(p, r, c), 1.0, PredictedOnly(p, r, c), Is(p, c));
    SumLinear(n, 1.0, Both(p, r, c), 1.0, PredictedOnly(r, p, c), Is(r, c));
  }

  // ---------- _prf ----------

  function Precision(p: seq<int>, r: seq<int>, c: int): real { Ratio(Tp(p, r, c), Tp(p, r, c) + Fp(p, r, c)) }

  function Recall(p: seq<int>, r: seq<int>, c: int): real { Ratio(Tp(p, r, c), Tp(p, r, c) + Fn(p, r, c)) }

  function F1(p: seq<int>, r: seq<int>, c: int): real { FScore(Precision(p, r, c), Recall(p, r, c)) }

  function Classes(p: seq<int>, r: seq<int>): seq<int> { Unique(p + r) }

  /** The sum of a per-class quantity over the class list. */
  function OverClasses(f: int -> real, classes: seq<int>): real { Sum(|classes|, PerClass(f, classes)) }

  function PerClass(f: int -> real, classes: seq<int>): nat -> real {
    (k: nat) => if k < |classes| then f(classes[k]) else 0.0
  }

  function AllTp(p: seq<int>, r: seq<int>): int -> real { (c: int) => Tp(p, r, c) }

  function AllFp(p: seq<int>, r: seq<int>): int -> real { (c: int) => Fp(p, r, c) }

  function AllFn(p: seq<int>, r: seq<int>): int -> real { (c: int) => Fn(p, r, c) }

  function Support(r: seq<int>): int -> real { (c: int) => CountOf(r, c) }

  datatype Scores = Scores(precision: real, recall: real, f1: real)

  /** `_prf` with average "micro". */
  function Micro(p: seq<int>, r: seq<int>): Scores {
    var classes := Classes(p, r);
    var tp, fp, fn := OverClasses(AllTp(p, r), classes), OverClasses(AllFp(p, r), classes), OverClasses(AllFn(p, r), classes);
    var precision, recall := Ratio(tp, tp + fp), Ratio(tp, tp + fn);
    Scores(precision, recall, FScore(precision, recall))
  }

  /** A per-class score weighted by the share of the references that carry the class. */
  function WeightedBy(score: int -> real, r: seq<int>, classes: seq<int>): int -> real {
    (c: int) => score(c) * Ratio(CountOf(r, c), OverClasses(Support(r), classes))
  }

  function AllPrecision(p: seq<int>, r: seq<int>): int -> real { (c: int) => Precision(p, r, c) }

  function AllRecall(p: seq<int>, r: seq<int>): int -> real { (c: int) => Recall(p, r, c) }

  function AllF1(p: seq<int>, r: seq<int>): int -> real { (c: int) => F1(p, r, c) }

  /** `_prf` with average "weighted". */
  function Weighted(p: seq<int>, r: seq<int>): Scores {
    var classes := Classes(p, r);
    Scores(OverClasses(WeightedBy(AllPrecision(p, r), r, classes), classes),
           OverClasses(WeightedBy(AllRecall(p, r), r, classes), classes),
           OverClasses(WeightedBy(AllF1(p, r), r, classes), classes))
  }

  /** `_prf` with average "macro"; None stands for NaN, the mean over no class. */
  function Macro(p: seq<int>, r: seq<int>): Option<Scores> {
    var classes := Classes(p, r);
    if classes == [] then None
    else
      Some(Scores(Average(AllPrecision(p, r), classes), Average(AllRecall(p, r), classes), Average(AllF1(p, r), classes)))
  }

  function Average(f: int -> real, classes: seq<int>): real
    requires classes != []
  {
    OverClasses(f, classes) / |classes| as real
  }

  // ---------- conservation over the classes ----------

  lemma ClassesCover(p: seq<int>, r: seq<int>)
    ensures forall i | 0 <= i < |p| :: p[i] in Classes(p, r)
    ensures forall i | 0 <= i < |r| :: r[i] in Classes(p, r)
  {
  }

  /** Every example is labelled once: the supports add up to n. */
  lemma SupportsAddUp(r: seq<int>, classes: seq<int>)
    requires Increasing(classes) && forall i | 0 <= i < |r| :: r[i] in classes
    ensures OverClasses(Support(r), classes) == |r| as real
  {
    CountsAddUp(r, classes, PerClass(Support(r), classes));
  }

  /** Every hit belongs to exactly one class. */
  lemma HitsAddUp(p: seq<int>, r: seq<int>, classes: seq<int>)
    requires |p| == |r| && Increasing(classes) && forall i | 0 <= i < |p| :: p[i] in classes
    ensures OverClasses(AllTp(p, r), classes) == Total(Correct(p, r))
  {
    var hit := At(Correct(p, r));
    CategoriesPartition(p, classes);
    forall k: nat | k < |classes|
      ensures PerClass(AllTp(p, r), classes)(k) == BinTotal(|p|, Carries(p, classes), hit, k)
    {
      SumEq(|p|, Both(p, r, classes[k]), Row(Cell(Carries(p, classes), hit), k));
    }
    BinTotalsAddUp(|classes|, |p|, Carries(p, classes), hit, PerClass(AllTp(p, r), classes));
  }

  lemma OverClassesAdd(f: int -> real, g: int -> real, h: int -> real, classes: seq<int>)
    requires forall c :: h(c) == f(c) + g(c)
    ensures OverClasses(h, classes) == OverClasses(f, classes) + OverClasses(g, classes)
  {
    forall k: nat | k < |classes|
      ensures PerClass(h, classes)(k) == 1.0 * PerClass(f, classes)(k) + 1.0 * PerClass(g, classes)(k)
    {
      var c := classes[k];
      assert h(c) == f(c) + g(c);
    }
    SumLinear(|classes|, 1.0, PerClass(f, classes), 1.0, PerClass(g, classes), PerClass(h, classes));
  }

  /** Both margins of the confusion counts add up to n over the classes. */
  lemma ConfusionConservation(p: seq<int>, r: seq<int>)
    requires |p| == |r|
    ensures OverClasses(AllTp(p, r), Classes(p, r)) + OverClasses(AllFp(p, r), Classes(p, r)) == |p| as real
    ensures OverClasses(AllTp(p, r), Classes(p, r)) + OverClasses(AllFn(p, r), Classes(p, r)) == |p| as real
  {
    hide OverClasses, Tp, Fp, Fn, CountOf;
    forall c
      ensures Support(p)(c) == AllTp(p, r)(c) + AllFp(p, r)(c)
      ensures Support(r)(c) == AllTp(p, r)(c) + AllFn(p, r)(c)
    {
      ConfusionCounts(p, r, c);
    }
    OverClassesAdd(AllTp(p, r), AllFp(p, r), Support(p), Classes(p, r));
    OverClassesAdd(AllTp(p, r), AllFn(p, r), Support(r), Classes(p, r));
    ClassesCover(p, r);
    SupportsAddUp(p, Classes(p, r));
    SupportsAddUp(r, Classes(p, r));
  }

  // ---------- the averages ----------

  lemma HitsNonNegative(p: seq<int>, r: seq<int>)
    ensures Total(Correct(p, r)) >= 0.0
  {
    SumNonNegative(|p|, At(Correct(p, r)));
  }

  /** As many hits as examples leave no miss. */
  lemma AllHit(p: seq<int>, r: seq<int>)
    requires |p| == |r| && Total(Correct(p, r)) == |p| as real
    ensures p == r
  {
    hide Sum;
    var n, f, missed := |p|, At(Correct(p, r)), Missed(p, r);
    SumConst(n, 1.0, _ => 1.0);
    SumLinear(n, 1.0, _ => 1.0, -1.0, f, missed);
    SumNonNegative(n, missed);
    forall i: nat | i < n
      ensures p[i] == r[i]
    {
      assert missed(i) == 0.0;
    }
  }

  function Missed(p: seq<int>, r: seq<int>): nat -> real { (i: nat) => 1.0 - At(Correct(p, r))(i) }

  /** Micro precision, micro recall, micro F1 and accuracy are one and the same number. */
  lemma MicroIsAccuracy(p: seq<int>, r: seq<int>)
    requires |p| == |r|
    ensures Accuracy(p, r).Ok?
    ensures var acc := Accuracy(p, r).value.0;
            Micro(p, r) == Scores(acc, acc, acc)
  {
    ConfusionConservation(p, r);
    ClassesCover(p, r);
    HitsAddUp(p, r, Classes(p, r));
    AccuracyIsRatio(p, r);
    hide OverClasses, Mean, Correct, Ratio, FScore, Classes;
    FScoreOfEqual(Mean(Correct(p, r)));
  }

  lemma AccuracyIsRatio(p: seq<int>, r: seq<int>)
    requires |p| == |r|
    ensures Ratio(Total(Correct(p, r)), |p| as real) == Mean(Correct(p, r)) >= 0.0
  {
    HitsNonNegative(p, r);
    if p != [] { QuotientSign(Total(Correct(p, r)), |p| as real); }
  }

  /** A class weighs its recall back to its hits: tp/(tp + fn) * (tp + fn)/n = tp/n. */
  lemma RecallTimesWeight(tp: real, support: real, n: real)
    requires 0.0 <= tp <= support && n > 0.0
    ensures Ratio(tp, support) * Ratio(support, n) == tp / n
  {
    RatioShare(tp, support);
    if support > 0.0 {
      var x, y := Ratio(tp, support), Ratio(support, n);
      RatioTimes(tp, support);
      RatioTimes(support, n);
      Quotient(tp, n);
      assert x * y * n == x * (y * n);
      Cancel(x * y, tp / n, n);
    } else {
      QuotientSign(0.0, n);
    }
  }

  lemma WeightedRecallTerm(p: seq<int>, r: seq<int>, classes: seq<int>, c: int)
    requires |p| == |r| > 0 && OverClasses(Support(r), classes) == |p| as real
    ensures WeightedBy(AllRecall(p, r), r, classes)(c) == AllTp(p, r)(c) / |p| as real
  {
    hide OverClasses, Tp, Fn, CountOf, Ratio;
    ConfusionCounts(p, r, c);
    RecallTimesWeight(Tp(p, r, c), CountOf(r, c), |p| as real);
  }

  /** The support-weighted recall is the accuracy. */
  lemma WeightedRecallIsAccuracy(p: seq<int>, r: seq<int>)
    requires |p| == |r|
    ensures Accuracy(p, r).Ok? && Weighted(p, r).recall == Accuracy(p, r).value.0
  {
    hide Tp, Fp, Fn, CountOf, Ratio, Precision, F1;
    var classes := Classes(p, r);
    var weighted := WeightedBy(AllRecall(p, r), r, classes);
    ClassesCover(p, r);
    SupportsAddUp(r, classes);
    HitsAddUp(p, r, classes);
    if p == [] {
      assert classes == [];
    } else {
      forall k: nat | k < |classes|
        ensures PerClass(weighted, classes)(k) == PerClass(AllTp(p, r), classes)(k) / |p| as real
      {
        WeightedRecallTerm(p, r, classes, classes[k]);
      }
      SumQuotient(|classes|, PerClass(AllTp(p, r), classes), |p| as real, PerClass(weighted, classes));
    }
  }

  /** Per class, all three scores are shares and F1 lies between precision and recall. */
  lemma F1BetweenPrecisionAndRecall(p: seq<int>, r: seq<int>, c: int)
    requires |p| == |r|
    ensures 0.0 <= Precision(p, r, c) <= 1.0 && 0.0 <= Recall(p, r, c) <= 1.0
    ensures Precision(p, r, c) <= F1(p, r, c) <= Recall(p, r, c) || Recall(p, r, c) <= F1(p, r, c) <= Precision(p, r, c)
  {
    ConfusionCounts(p, r, c);
    RatioShare(Tp(p, r, c), Tp(p, r, c) + Fp(p, r, c));
    RatioShare(Tp(p, r, c), Tp(p, r, c) + Fn(p, r, c));
    var x, y := Precision(p, r, c), Recall(p, r, c);
    if x <= y { FScoreBetween(x, y); } else { FScoreBetween(y, x); }
  }

  /** Accuracy, hence every micro score, is 1 exactly when all predictions are right. */
  lemma AccuracyOneIffEqual(p: seq<int>, r: seq<int>)
    requires |p| == |r| > 0
    ensures Accuracy(p, r).Ok? && (Accuracy(p, r).value.0 == 1.0 <==> p == r)
  {
    QuotientOne(Total(Correct(p, r)), |p| as real);
    if Total(Correct(p, r)) == |p| as real { AllHit(p, r); }
    if p == r {
      forall i: nat | i < |p|
        ensures At(Correct(p, r))(i) == 1.0
      {
        assert Correct(p, r)[i] == Indicator(p[i] == r[i]);
      }
      SumConst(|p|, 1.0, At(Correct(p, r)));
    }
  }

  // ---------- the macro average ----------

  /** The average of shares is a share, and 1 only if all of them are. */
  lemma AverageOfShares(f: int -> real, classes: seq<int>)
    requires classes != [] && forall k | 0 <= k < |classes| :: 0.0 <= f(classes[k]) <= 1.0
    ensures 0.0 <= Average(f, classes) <= 1.0
    ensures Average(f, classes) == 1.0 <==> forall k | 0 <= k < |classes| :: f(classes[k]) == 1.0
  {
    var n, g := |classes|, PerClass(f, classes);
    var lost := (k: nat) => 1.0 - g(k);
    forall k: nat | k < n
      ensures g(k) >= 0.0 && lost(k) >= 0.0 && (lost(k) == 0.0 <==> f(classes[k]) == 1.0)
    {
      var c := classes[k];
      assert 0.0 <= f(c) <= 1.0;
    }
    SumNonNegative(n, g);
    SumNonNegative(n, lost);
    SumConst(n, 1.0, _ => 1.0);
    SumLinear(n, 1.0, _ => 1.0, -1.0, g, lost);
    QuotientSign(Sum(n, g), n as real);
    QuotientOne(Sum(n, g), n as real);
    if forall k: nat | k < n :: lost(k) == 0.0 {
      forall k | 0 <= k < n ensures f(classes[k]) == 1.0 { assert lost(k) == 0.0; }
    }
  }

  /** A class has precision 1 exactly if it was predicted, and only where it was right. */
  lemma PrecisionOneIff(p: seq<int>, r: seq<int>, c: int)
    requires |p| == |r|
    ensures Precision(p, r, c) == 1.0 <==> c in p && forall i | 0 <= i < |p| && p[i] == c :: r[i] == c
  {
    ConfusionCounts(p, r, c);
    CountBounds(p, c);
    SumNonNegative(|p|, PredictedOnly(p, r, c));
    if Fp(p, r, c) == 0.0 {
      forall i | 0 <= i < |p| && p[i] == c ensures r[i] == c { assert PredictedOnly(p, r, c)(i) == 0.0; }
    }
    if CountOf(p, c) > 0.0 { QuotientOne(Tp(p, r, c), CountOf(p, c)); }
  }

  /** Recall is precision with the roles of predictions and references exchanged. */
  lemma RecallIsPrecision(p: seq<int>, r: seq<int>, c: int)
    requires |p| == |r|
    ensures Recall(p, r, c) == Precision(r, p, c)
  {
    SumEq(|p|, Both(p, r, c), Both(r, p, c));
  }

  /** The F1 of a class is 1 exactly when its precision and its recall are. */
  lemma F1OneIff(p: seq<int>, r: seq<int>, c: int)
    requires |p| == |r|
    ensures F1(p, r, c) == 1.0 <==> Precision(p, r, c) == 1.0 && Recall(p, r, c) == 1.0
  {
    F1BetweenPrecisionAndRecall(p, r, c);
    hide Precision, Recall, FScore;
    FScoreOne(Precision(p, r, c), Recall(p, r, c));
  }

  /** Every macro score is a share, and each of them is 1 exactly when all predictions are right. */
  lemma MacroOneIffEqual(p: seq<int>, r: seq<int>)
    requires |p| == |r|
    ensures Macro(p, r).None? <==> p == []
    ensures p != [] ==> var m := Macro(p, r).value;
                        && 0.0 <= m.precision <= 1.0 && 0.0 <= m.recall <= 1.0 && 0.0 <= m.f1 <= 1.0
                        && (m.precision == 1.0 <==> p == r) && (m.recall == 1.0 <==> p == r) && (m.f1 == 1.0 <==> p == r)
  {
    hide Average, Precision, Recall, F1, Classes;
    ClassesCover(p, r);
    var classes := Classes(p, r);
    NoClasses(p, r);
    if p != [] {
      forall k | 0 <= k < |classes|
        ensures 0.0 <= AllPrecision(p, r)(classes[k]) <= 1.0
        ensures 0.0 <= AllRecall(p, r)(classes[k]) <= 1.0
        ensures 0.0 <= AllF1(p, r)(classes[k]) <= 1.0
      {
        F1BetweenPrecisionAndRecall(p, r, classes[k]);
      }
      AverageOfShares(AllPrecision(p, r), classes);
      AverageOfShares(AllRecall(p, r), classes);
      AverageOfShares(AllF1(p, r), classes);
      AllPrecise(p, r);
      AllRecalled(p, r);
      AllBalanced(p, r);
    }
  }

  lemma AllBalanced(p: seq<int>, r: seq<int>)
    requires |p| == |r|
    ensures (forall k | 0 <= k < |Classes(p, r)| :: AllF1(p, r)(Classes(p, r)[k]) == 1.0) <==> p == r
  {
    hide Precision, Recall, F1, Classes;
    var classes := Classes(p, r);
    forall k | 0 <= k < |classes|
      ensures AllF1(p, r)(classes[k]) == 1.0 <==>
              AllPrecision(p, r)(classes[k]) == 1.0 && AllRecall(p, r)(classes[k]) == 1.0
    {
      F1OneIff(p, r, classes[k]);
    }
    AllPrecise(p, r);
    AllRecalled(p, r);
  }

  lemma ClassMember(p: seq<int>, r: seq<int>, c: int)
    ensures c in Classes(p, r) <==> c in p || c in r
  {
  }

  lemma NoClasses(p: seq<int>, r: seq<int>)
    requires |p| == |r|
    ensures Classes(p, r) == [] <==> p == []
  {
  }

  lemma AllPrecise(p: seq<int>, r: seq<int>)
    requires |p| == |r|
    ensures (forall k | 0 <= k < |Classes(p, r)| :: AllPrecision(p, r)(Classes(p, r)[k]) == 1.0) <==> p == r
  {
    hide Precision, Classes;
    var classes := Classes(p, r);
    if forall k | 0 <= k < |classes| :: AllPrecision(p, r)(classes[k]) == 1.0 {
      forall i | 0 <= i < |p|
        ensures p[i] == r[i]
      {
        ClassMember(p, r, p[i]);
        var k :| 0 <= k < |classes| && classes[k] == p[i];
        PrecisionOneIff(p, r, classes[k]);
      }
    }
    if p == r {
      forall k | 0 <= k < |classes|
        ensures AllPrecision(p, r)(classes[k]) == 1.0
      {
        ClassMember(p, r, classes[k]);
        PrecisionOneIff(p, r, classes[k]);
      }
    }
  }

  lemma AllRecalled(p: seq<int>, r: seq<int>)
    requires |p| == |r|
    ensures (forall k | 0 <= k < |Classes(p, r)| :: AllRecall(p, r)(Classes(p, r)[k]) == 1.0) <==> p == r
  {
    hide Precision, Recall, Classes;
    var classes := Classes(p, r);
    if forall k | 0 <= k < |classes| :: AllRecall(p, r)(classes[k]) == 1.0 {
      forall i | 0 <= i < |p|
        ensures p[i] == r[i]
      {
        ClassMember(p, r, r[i]);
        var k :| 0 <= k < |classes| && classes[k] == r[i];
        RecallIsPrecision(p, r, classes[k]);
        PrecisionOneIff(r, p, classes[k]);
      }
    }
    if p == r {
      forall k | 0 <= k < |classes|
        ensures AllRecall(p, r)(classes[k]) == 1.0
      {
        ClassMember(p, r, classes[k]);
        RecallIsPrecision(p, r, classes[k]);
        PrecisionOneIff(r, p, classes[k]);
      }
    }
  }

  // ---------- the scores in counts ----------

  /** The examples predicted as c that are of class c. */
  function HitsOf(p: seq<int>, r: seq<int>, c: int): set<nat>
    requires |p| == |r|
  {
    set i: nat | i < |p| && p[i] == c && r[i] == c
  }

  lemma AccuracyInCounts(p: seq<int>, r: seq<int>)
    requires |p| == |r| > 0
    ensures Accuracy(p, r).Ok?
    ensures Accuracy(p, r).value.0 * |p| as real == |set i: nat | i < |p| && p[i] == r[i]| as real
  {
    var hits := set i: nat | i < |p| && p[i] == r[i];
    forall i: nat | i < |p|
      ensures At(Correct(p, r))(i) == Indicator(i in hits)
    {
      assert Correct(p, r)[i] == Indicator(p[i] == r[i]);
    }
    SumCounts(|p|, At(Correct(p, r)), hits);
    Quotient(Total(Correct(p, r)), |p| as real);
  }

  /** A ratio times its denominator, an empty one included. */
  lemma RatioBack(x: real, y: real)
    requires 0.0 <= x <= y
    ensures Ratio(x, y) * y == x
  {
    if y > 0.0 { RatioTimes(x, y); }
  }

  /** Per class: precision times the predictions of the class, recall times its examples, and F1 times
      both are its hits, twice for F1. */
  lemma ClassScoresInCounts(p: seq<int>, r: seq<int>, c: int)
    requires |p| == |r|
    ensures Precision(p, r, c) * CountOf(p, c) == |HitsOf(p, r, c)| as real
    ensures Recall(p, r, c) * CountOf(r, c) == |HitsOf(p, r, c)| as real
    ensures F1(p, r, c) * (CountOf(p, c) + CountOf(r, c)) == 2.0 * |HitsOf(p, r, c)| as real
  {
    ConfusionCounts(p, r, c);
    SumCounts(|p|, Both(p, r, c), HitsOf(p, r, c));
    hide Sum, Both, PredictedOnly, CountOf, HitsOf, Ratio, FScore, Tp, Fp, Fn;
    var tp, x, y := Tp(p, r, c), CountOf(p, c), CountOf(r, c);
    RatioBack(tp, x);
    RatioBack(tp, y);
    RatioBack(2.0 * tp, x + y);
    FScoreOfRatios(tp, x, y);
  }

  lemma OverClassesIs(f: int -> real, classes: seq<int>)
    ensures OverClasses(f, classes) == Sum(|classes|, PerClass(f, classes))
  {
  }

  lemma WeightedTerm(score: int -> real, r: seq<int>, classes: seq<int>, k: nat)
    requires r != [] && OverClasses(Support(r), classes) == |r| as real && k < |classes|
    ensures ByCategory(score, r, classes)(k) == |r| as real * PerClass(WeightedBy(score, r, classes), classes)(k)
  {
    var c, n := classes[k], |r| as real;
    RatioTimes(CountOf(r, c), n);
    hide CountOf, Ratio, OverClasses;
    var x, q := score(c), Ratio(CountOf(r, c), n);
    assert n * (x * q) == x * (q * n);
  }

  lemma WeightedTotal(score: int -> real, r: seq<int>, classes: seq<int>)
    requires r != [] && OverClasses(Support(r), classes) == |r| as real
    ensures Sum(|classes|, ByCategory(score, r, classes))
            == |r| as real * Sum(|classes|, PerClass(WeightedBy(score, r, classes), classes))
  {
    hide *;
    var c, f, g := |r| as real, PerClass(WeightedBy(score, r, classes), classes), ByCategory(score, r, classes);
    forall k: nat | k < |classes|
      ensures g(k) == c * f(k)
    {
      WeightedTerm(score, r, classes, k);
    }
    SumScale(|classes|, c, f, g);
  }

  lemma WeightedScore(score: int -> real, r: seq<int>, classes: seq<int>)
    requires r != [] && Increasing(classes) && forall i | 0 <= i < |r| :: r[i] in classes
    ensures |r| as real * OverClasses(WeightedBy(score, r, classes), classes) == Sum(|r|, ByEntry(score, r))
  {
    hide *;
    SupportsAddUp(r, classes);
    SumByCategory(score, r, classes);
    WeightedTotal(score, r, classes);
    OverClassesIs(WeightedBy(score, r, classes), classes);
  }

  lemma WeightedIs(p: seq<int>, r: seq<int>)
    ensures Weighted(p, r) == Scores(OverClasses(WeightedBy(AllPrecision(p, r), r, Unique(p + r)), Unique(p + r)),
                                     OverClasses(WeightedBy(AllRecall(p, r), r, Unique(p + r)), Unique(p + r)),
                                     OverClasses(WeightedBy(AllF1(p, r), r, Unique(p + r)), Unique(p + r)))
    ensures forall i | 0 <= i < |r| :: r[i] in Unique(p + r)
  {
    ClassesCover(p, r);
  }

  /** The i-th terms are the precision, recall and F1 of class labels[i]. */
  ghost predicate ScoresAt(p: seq<int>, r: seq<int>, labels: seq<int>, precision: nat -> real, recall: nat -> real, f1: nat -> real) {
    forall i: nat | i < |labels| ::
      precision(i) == Precision(p, r, labels[i]) && recall(i) == Recall(p, r, labels[i]) && f1(i) == F1(p, r, labels[i])
  }

  lemma ScoreSums(p: seq<int>, r: seq<int>, labels: seq<int>, precision: nat -> real, recall: nat -> real, f1: nat -> real)
    requires ScoresAt(p, r, labels, precision, recall, f1)
    ensures Sum(|labels|, ByEntry(AllPrecision(p, r), labels)) == Sum(|labels|, precision) == OverClasses(AllPrecision(p, r), labels)
    ensures Sum(|labels|, ByEntry(AllRecall(p, r), labels)) == Sum(|labels|, recall) == OverClasses(AllRecall(p, r), labels)
    ensures Sum(|labels|, ByEntry(AllF1(p, r), labels)) == Sum(|labels|, f1) == OverClasses(AllF1(p, r), labels)
  {
    hide Precision, Recall, F1, Sum;
    SameTerms(AllPrecision(p, r), labels, precision);
    SameTerms(AllRecall(p, r), labels, recall);
    SameTerms(AllF1(p, r), labels, f1);
  }

  lemma SameTerms(score: int -> real, labels: seq<int>, terms: nat -> real)
    requires forall i: nat | i < |labels| :: terms(i) == score(labels[i])
    ensures Sum(|labels|, ByEntry(score, labels)) == Sum(|labels|, terms) == OverClasses(score, labels)
  {
    SumEq(|labels|, ByEntry(score, labels), terms);
    SumEq(|labels|, PerClass(score, labels), terms);
  }

  /** Weighted scores, times the number of examples, add up the scores of the examples' classes. */
  lemma WeightedByExample(p: seq<int>, r: seq<int>, precision: nat -> real, recall: nat -> real, f1: nat -> real)
    requires |p| == |r| > 0 && ScoresAt(p, r, r, precision, recall, f1)
    ensures |r| as real * Weighted(p, r).precision == Sum(|r|, precision)
    ensures |r| as real * Weighted(p, r).recall == Sum(|r|, recall)
    ensures |r| as real * Weighted(p, r).f1 == Sum(|r|, f1)
  {
    hide *;
    WeightedIs(p, r);
    WeightedScore(AllPrecision(p, r), r, Unique(p + r));
    WeightedScore(AllRecall(p, r), r, Unique(p + r));
    WeightedScore(AllF1(p, r), r, Unique(p + r));
    ScoreSums(p, r, r, precision, recall, f1);
  }

  lemma AverageTimes(f: int -> real, classes: seq<int>)
    requires classes != []
    ensures |classes| as real * Average(f, classes) == OverClasses(f, classes)
  {
    hide OverClasses;
    Quotient(OverClasses(f, classes), |classes| as real);
  }

  lemma MacroIs(p: seq<int>, r: seq<int>)
    requires |p| == |r| > 0
    ensures Unique(p + r) != []
    ensures Macro(p, r) == Some(Scores(Average(AllPrecision(p, r), Unique(p + r)), Average(AllRecall(p, r), Unique(p + r)),
                                       Average(AllF1(p, r), Unique(p + r))))
  {
    NoClasses(p, r);
    hide Average;
  }

  /** Macro scores, times the number of classes, add up the scores of the classes. */
  lemma MacroByClass(p: seq<int>, r: seq<int>, precision: nat -> real, recall: nat -> real, f1: nat -> real)
    requires |p| == |r| > 0 && ScoresAt(p, r, Unique(p + r), precision, recall, f1)
    ensures Macro(p, r).Some?
    ensures var (m, k) := (Macro(p, r).value, |Unique(p + r)|);
            && k as real * m.precision == Sum(k, precision)
            && k as real * m.recall == Sum(k, recall)
            && k as real * m.f1 == Sum(k, f1)
  {
    hide *;
    MacroIs(p, r);
    AverageTimes(AllPrecision(p, r), Unique(p + r));
    AverageTimes(AllRecall(p, r), Unique(p + r));
    AverageTimes(AllF1(p, r), Unique(p + r));
    ScoreSums(p, r, Unique(p + r), precision, recall, f1);
  }
}
