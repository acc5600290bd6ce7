/** n-gram counts, ROUGE and BLEU's clipped counts (melp/metrics/text.py). */
module Text {
  import opened Wrappers
  import opened EditScripts
  import opened CommonSubsequence
  import opened Sums
  import opened Shares
  import opened Arith

  function NGrams<T>(a: seq<T>, n: nat): seq<seq<T>> {
    if |a| < n then [] else seq(|a| - n + 1, i requires 0 <= i <= |a| - n => a[i..i + n])
  }

  /** `Counter(tuple(a[i : i + n]) ...)`. */
  function Counts<T(==)>(a: seq<T>, n: nat): multiset<seq<T>> {
    multiset(NGrams(a, n))
  }

  /** The n tokens from position i on are g. */
  predicate StandsAt<T(==)>(a: seq<T>, n: nat, g: seq<T>, i: nat) { i + n <= |a| && a[i..i + n] == g }

  function Positions<T(==)>(a: seq<T>, n: nat, g: seq<T>): set<nat> { set i: nat | i <= |a| && StandsAt(a, n, g, i) }

  lemma {:induction false} CountIsPlaces<G>(s: seq<G>, g: G, places: set<nat>)
    requires forall i: nat :: i in places <==> i < |s| && s[i] == g
    ensures multiset(s)[g] == |places|
  {
    if s == [] {
      assert places == {};
    } else {
      var n := |s| - 1;
      assert s == s[..n] + [s[n]];
      CountIsPlaces(s[..n], g, places - {n});
    }
  }

  /** The count of a gram is the number of positions where it stands. */
  lemma GramCount<T>(a: seq<T>, n: nat, g: seq<T>)
    ensures Counts(a, n)[g] == |Positions(a, n, g)|
  {
    var grams, places := NGrams(a, n), Positions(a, n, g);
    forall i: nat
      ensures i in places <==> i < |grams| && grams[i] == g
    {
      assert i in places <==> StandsAt(a, n, g, i);
    }
    CountIsPlaces(grams, g, places);
  }

  function PointwiseMax<G(==)>(x: multiset<G>, y: multiset<G>): multiset<G> {
    x + (y - x)
  }

  /** For every gram, its largest count in any one of the given counters. */
  function MaxOver<G(==)>(counters: seq<multiset<G>>): multiset<G> {
    if counters == [] then multiset{} else PointwiseMax(MaxOver(Init(counters)), Last(counters))
  }

  function ReferenceCounts<T(==)>(refs: seq<seq<T>>, n: nat): seq<multiset<seq<T>>> {
    seq(|refs|, i requires 0 <= i < |refs| => Counts(refs[i], n))
  }

  /** How many n-grams of the hypothesis the references allow. */
  function Clipped<T(==)>(refs: seq<seq<T>>, hyp: seq<T>, n: nat): nat {
    |Counts(hyp, n) * MaxOver(ReferenceCounts(refs, n))|
  }

  lemma {:induction false} MaxOverIsUpperBound<G>(counters: seq<multiset<G>>, g: G, k: nat)
    requires k < |counters|
    ensures counters[k][g] <= MaxOver(counters)[g]
  {
    if k < |counters| - 1 {
      MaxOverIsUpperBound(Init(counters), g, k);
    }
  }

  lemma {:induction false} MaxOverIsAttained<G>(counters: seq<multiset<G>>, g: G) returns (k: nat)
    requires MaxOver(counters)[g] > 0
    ensures k < |counters| && counters[k][g] == MaxOver(counters)[g]
  {
    if Last(counters)[g] == MaxOver(counters)[g] {
      k := |counters| - 1;
    } else {
      k := MaxOverIsAttained(Init(counters), g);
    }
  }

  lemma {:induction false} MaxOverGrows<G>(counters: seq<multiset<G>>, more: seq<multiset<G>>)
    ensures MaxOver(counters) <= MaxOver(counters + more)
  {
    if more == [] {
      assert counters + more == counters;
    } else {
      MaxOverGrows(counters, Init(more));
      assert Init(counters + more) == counters + Init(more);
    }
  }

  lemma SubmultisetCard<G>(x: multiset<G>, y: multiset<G>)
    requires x <= y
    ensures |x| <= |y|
    ensures |x| == |y| ==> x == y
  {
    assert y == x + (y - x);
  }

  /** One pass of the reference loop: raise the running maxima to this reference's counts. */
  method RaiseMaxima<G(==)>(before: multiset<G>, refCounts: multiset<G>) returns (maxRef: multiset<G>)
    ensures maxRef == PointwiseMax(before, refCounts)
  {
    maxRef := before;
    var keys := set g | g in refCounts;
    while keys != {}
      invariant forall g :: g in keys ==> g in refCounts
      invariant forall g :: maxRef[g] == if g in keys then before[g] else Speech.Max(before[g], refCounts[g])
    {
      var g :| g in keys;
      maxRef := maxRef[g := Speech.Max(maxRef[g], refCounts[g])];
      keys := keys - {g};
    }
  }

  /** The sum of clipped counts over the distinct n-grams is the size of the multiset intersection. */
  method SumClipped<G(==)>(hypCounts: multiset<G>, maxRef: multiset<G>) returns (clipped: nat)
    ensures clipped == |hypCounts * maxRef|
  {
    clipped := 0;
    var keys := set g | g in hypCounts;
    ghost var rest := hypCounts;
    while keys != {}
      invariant forall g :: g in keys <==> g in rest
      invariant forall g :: g in keys ==> rest[g] == hypCounts[g]
      invariant clipped + |rest * maxRef| == |hypCounts * maxRef|
    {
      var g :| g in keys;
      assert (rest * maxRef)[g := 0] == rest[g := 0] * maxRef;
      clipped := clipped + Speech.Min(hypCounts[g], maxRef[g]);
      keys := keys - {g};
      rest := rest[g := 0];
    }
    assert rest * maxRef == multiset{};
  }

  /** `_modified_precision`. */
  method ModifiedPrecision<T(==)>(refs: seq<seq<T>>, hyp: seq<T>, n: nat) returns (clipped: nat, total: nat)
    ensures |hyp| < n ==> clipped == total == 0
    ensures |hyp| >= n ==> clipped == Clipped(refs, hyp, n) && total == |hyp| - n + 1
  {
    if |hyp| < n {
      return 0, 0;
    }
    var hypCounts := Counts(hyp, n);
    var maxRef: multiset<seq<T>> := multiset{};
    ghost var counters := ReferenceCounts(refs, n);
    hide Counts, MaxOver, PointwiseMax;
    NoCounters<seq<T>>();
    for i := 0 to |refs|
      invariant maxRef == MaxOver(counters[..i])
    {
      maxRef := RaiseMaxima(maxRef, Counts(refs[i], n));
      MaxOverSnoc(counters, i);
    }
    assert counters[..|refs|] == counters;
    clipped := SumClipped(hypCounts, maxRef);
    CountsSize(hyp, n);
    total := Speech.Max(1, |hypCounts|);
  }

  lemma NoCounters<G>()
    ensures MaxOver<G>([]) == multiset{}
  {
  }

  lemma MaxOverSnoc<G>(counters: seq<multiset<G>>, i: nat)
    requires i < |counters|
    ensures MaxOver(counters[..i + 1]) == PointwiseMax(MaxOver(counters[..i]), counters[i])
  {
    assert Init(counters[..i + 1]) == counters[..i];
  }

  lemma CountsSize<T>(a: seq<T>, n: nat)
    requires |a| >= n
    ensures |Counts(a, n)| == |a| - n + 1
  {
  }

  /** Clipping keeps every gram exactly when each occurs as often in some single counter. */
  lemma ClipsNothingIff<G>(h: multiset<G>, counters: seq<multiset<G>>)
    ensures |h * MaxOver(counters)| <= |h|
    ensures |h * MaxOver(counters)| == |h| <==>
            forall g | g in h :: exists k | 0 <= k < |counters| :: h[g] <= counters[k][g]
  {
    var m := MaxOver(counters);
    SubmultisetCard(h * m, h);
    if |h * m| == |h| {
      forall g | g in h
        ensures exists k | 0 <= k < |counters| :: h[g] <= counters[k][g]
      {
        assert (h * m)[g] == h[g];
        var k := MaxOverIsAttained(counters, g);
      }
    }
    if forall g | g in h :: exists k | 0 <= k < |counters| :: h[g] <= counters[k][g] {
      forall g | g in h
        ensures h[g] <= m[g]
      {
        var k :| 0 <= k < |counters| && h[g] <= counters[k][g];
        MaxOverIsUpperBound(counters, g, k);
      }
      assert h * m == h;
    }
  }

  /** Clipped counts never exceed the total, and reach it exactly when every n-gram occurs as often
      in some single reference as in the hypothesis. */
  lemma ClippedAtMostTotal<T>(refs: seq<seq<T>>, hyp: seq<T>, n: nat)
    requires |hyp| >= n
    ensures Clipped(refs, hyp, n) <= |hyp| - n + 1
    ensures Clipped(refs, hyp, n) == |hyp| - n + 1 <==>
            forall g | g in Counts(hyp, n) ::
              exists k | 0 <= k < |refs| :: Counts(hyp, n)[g] <= ReferenceCounts(refs, n)[k][g]
  {
    ClipsNothingIff(Counts(hyp, n), ReferenceCounts(refs, n));
  }

  lemma MoreCountersClipLess<G>(h: multiset<G>, few: seq<multiset<G>>, extra: seq<multiset<G>>)
    ensures |h * MaxOver(few)| <= |h * MaxOver(few + extra)|
  {
    MaxOverGrows(few, extra);
    SubmultisetCard(h * MaxOver(few), h * MaxOver(few + extra));
  }

  /** More references can only allow more n-grams. */
  lemma MoreReferencesNeverLower<T>(refs: seq<seq<T>>, more: seq<seq<T>>, hyp: seq<T>, n: nat)
    ensures Clipped(refs, hyp, n) <= Clipped(refs + more, hyp, n)
  {
    var few, extra := ReferenceCounts(refs, n), ReferenceCounts(more, n);
    ReferenceCountsAppend(refs, more, n);
    hide ReferenceCounts, MaxOver, Counts;
    MoreCountersClipLess(Counts(hyp, n), few, extra);
  }

  lemma ReferenceCountsAppend<T>(refs: seq<seq<T>>, more: seq<seq<T>>, n: nat)
    ensures ReferenceCounts(refs + more, n) == ReferenceCounts(refs, n) + ReferenceCounts(more, n)
  {
    hide Counts;
  }

  // ---------- ROUGE ----------

  function Overlap<T(==)>(pred: seq<T>, ref: seq<T>, n: nat): nat {
    |Counts(pred, n) * Counts(ref, n)|
  }

  function RougeN<T(==)>(pred: seq<T>, ref: seq<T>, n: nat): real {
    if |pred| < n || |ref| < n then 0.0
    else Overlap(pred, ref, n) as real / Speech.Max(1, |Counts(ref, n)|) as real
  }

  lemma ShareBounds(x: nat, d: nat)
    requires d > 0 && x <= d
    ensures 0.0 <= x as real / d as real <= 1.0
  {
    QuotientSign(x as real, d as real);
    QuotientOne(x as real, d as real);
  }

  lemma OneCounter<G>(c: multiset<G>)
    ensures MaxOver([c]) == c
  {
  }

  lemma OverlapFacts<T>(pred: seq<T>, ref: seq<T>, n: nat)
    ensures Overlap(pred, ref, n) == Overlap(ref, pred, n) <= |Counts(ref, n)|
    ensures Clipped([ref], pred, n) == Overlap(pred, ref, n)
  {
    var p, r := Counts(pred, n), Counts(ref, n);
    assert p * r == r * p;
    SubmultisetCard(r * p, r);
    assert ReferenceCounts([ref], n) == [r];
    OneCounter(r);
  }

  /** BLEU's clipped count against one reference is ROUGE's overlap, so ROUGE-n is BLEU's
      clipped/total with the roles of the two texts exchanged. */
  lemma SingleReferenceIsOverlap<T>(pred: seq<T>, ref: seq<T>, n: nat)
    ensures Clipped([ref], pred, n) == Clipped([pred], ref, n)
    ensures |pred| >= n && |ref| >= n ==>
      RougeN(pred, ref, n) == Clipped([pred], ref, n) as real / (|ref| - n + 1) as real
    ensures |pred| < n || |ref| < n ==> RougeN(pred, ref, n) == 0.0
  {
    hide Counts, Overlap, Clipped;
    OverlapFacts(pred, ref, n);
    OverlapFacts(ref, pred, n);
    if |ref| >= n { CountsSize(ref, n); }
  }

  lemma RougeNIsAShare<T>(pred: seq<T>, ref: seq<T>, n: nat)
    ensures 0.0 <= RougeN(pred, ref, n) <= 1.0
  {
    OverlapFacts(pred, ref, n);
    ShareBounds(Overlap(pred, ref, n), Speech.Max(1, |Counts(ref, n)|));
  }

  lemma UnigramsSnoc<T>(a: seq<T>)
    requires a != []
    ensures Counts(a, 1) == Counts(Init(a), 1) + multiset{[Last(a)]}
  {
    var longer, shorter := NGrams(a, 1), NGrams(Init(a), 1);
    forall i | 0 <= i < |a|
      ensures longer[i] == (shorter + [[Last(a)]])[i]
    {
      assert longer[i] == [a[i]];
      if i < |a| - 1 {
        assert shorter[i] == Init(a)[i..i + 1] == [a[i]];
      }
    }
    assert longer == shorter + [[Last(a)]];
  }

  lemma {:induction false} SubsequenceUnigrams<T>(s: seq<T>, a: seq<T>)
    requires IsSubsequence(s, a)
    ensures Counts(s, 1) <= Counts(a, 1)
    decreases |a|
  {
    if s != [] {
      SubsequencePeel(s, a);
      UnigramsSnoc(a);
      UnigramsSnoc(s);
      if Last(s) == Last(a) {
        SubsequenceUnigrams(Init(s), Init(a));
      } else {
        SubsequenceUnigrams(s, Init(a));
      }
    }
  }

  /** A common subsequence is counted in the unigram overlap. */
  lemma LcsWithinUnigramOverlap<T>(a: seq<T>, b: seq<T>)
    ensures Lcs(a, b) <= Overlap(a, b, 1)
  {
    var s := LcsWitness(a, b);
    SubsequenceUnigrams(s, a);
    SubsequenceUnigrams(s, b);
    SubmultisetCard(Counts(s, 1), Counts(a, 1) * Counts(b, 1));
  }

  function RougeLRecall<T(==)>(pred: seq<T>, ref: seq<T>): real {
    Ratio(Lcs(pred, ref) as real, |ref| as real)
  }

  function RougeLScore<T(==)>(pred: seq<T>, ref: seq<T>): real {
    FScore(Ratio(Lcs(pred, ref) as real, |pred| as real), Ratio(Lcs(pred, ref) as real, |ref| as real))
  }

  lemma RougeLRecallAtMostRouge1<T>(pred: seq<T>, ref: seq<T>)
    ensures RougeLRecall(pred, ref) <= RougeN(pred, ref, 1)
  {
    LcsWithinUnigramOverlap(pred, ref);
    if pred != [] && ref != [] {
      QuotientLe(Lcs(pred, ref) as real, Overlap(pred, ref, 1) as real, |ref| as real);
    }
  }

  /** The F1 of the two ratios is a single ratio between 0 and 1. */
  lemma RougeLClosedForm<T>(pred: seq<T>, ref: seq<T>)
    ensures RougeLScore(pred, ref) == Ratio((2 * Lcs(pred, ref)) as real, (|pred| + |ref|) as real)
    ensures 0.0 <= RougeLScore(pred, ref) <= 1.0
  {
    LcsBracketsDistance(pred, ref);
    hide Lcs, Ratio, FScore;
    var l, m, n := Lcs(pred, ref) as real, |pred| as real, |ref| as real;
    FScoreOfRatios(l, m, n);
    RatioShare(2.0 * l, m + n);
    assert (2 * Lcs(pred, ref)) as real == 2.0 * l && (|pred| + |ref|) as real == m + n;
  }

  lemma RougeLPerfectIffEqual<T>(pred: seq<T>, ref: seq<T>)
    ensures RougeLScore(pred, ref) == 1.0 <==> pred == ref != []
  {
    LcsBracketsDistance(pred, ref);
    LcsFullIffEqual(pred, ref);
    RougeLClosedForm(pred, ref);
    hide Lcs, Ratio, RougeLScore;
    RatioShare((2 * Lcs(pred, ref)) as real, (|pred| + |ref|) as real);
  }

  lemma RougeLSymmetric<T>(pred: seq<T>, ref: seq<T>)
    ensures RougeLScore(pred, ref) == RougeLScore(ref, pred)
  {
    LcsSymmetric(pred, ref);
    hide Lcs, Ratio, FScore;
    FScoreSymmetric(Ratio(Lcs(pred, ref) as real, |pred| as real), Ratio(Lcs(pred, ref) as real, |ref| as real));
  }

  /** The share of tokens ROUGE-L leaves unmatched, scaled back to a token count. */
  function Unmatched(tokens: nat, score: real): real {
    tokens as real * (1.0 - score)
  }

  lemma ScoreToEdits(d: nat, l: nat, m: nat, n: nat, score: real)
    requires m - l <= d && n - l <= d && d <= m + n - 2 * l
    requires score == Ratio((2 * l) as real, (m + n) as real)
    ensures Unmatched(m + n, score) / 2.0 <= d as real <= Unmatched(m + n, score)
  {
    if m + n > 0 { RatioTimes((2 * l) as real, (m + n) as real); }
    hide Ratio;
    assert Unmatched(m + n, score) == (m + n) as real - score * (m + n) as real;
  }

  /** ROUGE-L pins the edit distance down to a factor of two. */
  lemma RougeLBracketsEdits<T>(pred: seq<T>, ref: seq<T>)
    ensures var gap := Unmatched(|pred| + |ref|, RougeLScore(pred, ref));
            gap / 2.0 <= Speech.Distance(pred, ref) as real <= gap
  {
    var d, l := Speech.Distance(pred, ref), Lcs(pred, ref);
    assert |pred| - l <= d && |ref| - l <= d && d <= |pred| + |ref| - 2 * l by {
      LcsBracketsDistance(pred, ref);
    }
    var score := RougeLScore(pred, ref);
    assert score == Ratio((2 * l) as real, (|pred| + |ref|) as real) by {
      RougeLClosedForm(pred, ref);
    }
    ScoreToEdits(d, l, |pred|, |ref|, score);
  }

  /** `rouge_l` after tokenisation. */
  method RougeL<T(==, !new)>(preds: seq<seq<T>>, refs: seq<seq<T>>) returns (r: Result<(real, seq<real>), string>)
    ensures r.Err? <==> |preds| != |refs|
    ensures r.Ok? ==>
      && |r.value.1| == |refs|
      && (forall i | 0 <= i < |refs| :: r.value.1[i] == RougeLScore(preds[i], refs[i]))
      && r.value.0 == Mean(r.value.1)
  {
    if |preds| != |refs| {
      return Err("length mismatch");
    }
    var per: seq<real> := [];
    for i := 0 to |refs|
      invariant |per| == i
      invariant forall k | 0 <= k < i :: per[k] == RougeLScore(preds[k], refs[k])
    {
      var pTok, rTok := preds[i], refs[i];
      var lcs := LcsLength(pTok, rTok);
      var precision, recall := Ratio(lcs as real, |pTok| as real), Ratio(lcs as real, |rTok| as real);
      per := per + [FScore(precision, recall)];
    }
    return Ok((Mean(per), per));
  }
}
