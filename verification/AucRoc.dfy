/** `auc_roc`: tie-averaged ranks and the rank-sum formula (melp/metrics/probability.py), proved
    equal to counting pairs. */
module AucRoc {
  import opened Wrappers
  import opened Sums
  import opened Arith
  import opened Categories

  /** What `np.argsort` may return: any sorting permutation, in any order among ties. */
  ghost predicate IsArgsort(order: seq<nat>, p: seq<real>) {
    && |order| == |p|
    && (forall k | 0 <= k < |order| :: order[k] < |p|)
    && (forall k, l | 0 <= k < l < |order| :: order[k] != order[l])
    && (forall k, l | 0 <= k < l < |order| :: p[order[k]] <= p[order[l]])
  }

  function Positives(y: seq<int>): real { CountOf(y, 1) }

  function Negatives(y: seq<int>): real { CountOf(y, 0) }

  // ---------- the simple form: counting pairs ----------

  /** 1 for a higher score, one half for a tie, 0 for a lower one. */
  function Beats(x: real, z: real): real {
    if z < x then 1.0 else if z == x then 0.5 else 0.0
  }

  /** The contribution of the pair (i, j): i positive, j not positive. */
  function Pairs(p: seq<real>, y: seq<int>): (nat, nat) -> real {
    (i: nat, j: nat) =>
      if i < |p| && j < |p| && |p| == |y| then
        Indicator(y[i] == 1) * Indicator(y[j] != 1) * Beats(p[i], p[j])
      else 0.0
  }

  /** Over all pairs of a positive and a non-positive: the wins plus half the ties. */
  function Wins(p: seq<real>, y: seq<int>): real { SumRows(|p|, |p|, Pairs(p, y)) }

  ghost predicate Binary(y: seq<int>) {
    forall i | 0 <= i < |y| :: y[i] == 0 || y[i] == 1
  }

  // ---------- ranks ----------

  function Below(p: seq<real>, x: real): nat -> real {
    (j: nat) => if j < |p| then Indicator(p[j] < x) else 0.0
  }

  function Same(p: seq<real>, x: real): nat -> real {
    (j: nat) => if j < |p| then Indicator(p[j] == x) else 0.0
  }

  /** The 1-indexed rank of the value x in p, averaged over its ties. */
  function MidRank(p: seq<real>, x: real): real {
    Sum(|p|, Below(p, x)) + (Sum(|p|, Same(p, x)) + 1.0) / 2.0
  }

  function Hits(order: seq<nat>): (nat, nat) -> real {
    (k: nat, j: nat) => if k < |order| then Indicator(order[k] == j) else 0.0
  }

  /** Distinct in-range positions hit every index once: n hits cannot leave one out. */
  lemma EveryIndexIsHit(n: nat, order: seq<nat>, j: nat)
    requires |order| == n && j < n
    requires forall k | 0 <= k < n :: order[k] < n
    requires forall k, l | 0 <= k < l < n :: order[k] != order[l]
    ensures Sum(n, Column(Hits(order), j)) == 1.0
  {
    var hits := Hits(order);
    var column := ColumnSums(n, hits);
    forall j: nat | j < n
      ensures column(j) <= 1.0
    {
      AtMostOneHit(n, order, j);
    }
    forall k: nat | k < n
      ensures Sum(n, Row(hits, k)) == 1.0
    {
      SumInterval(n, Row(hits, k), order[k], order[k] + 1);
    }
    SumConst(n, 1.0, RowSums(n, hits));
    SumSwap(n, n, hits);
    var missing := (j: nat) => 1.0 - column(j);
    SumConst(n, 1.0, _ => 1.0);
    SumLinear(n, 1.0, _ => 1.0, -1.0, column, missing);
    SumNonNegative(n, missing);
    assert missing(j) == 0.0;
  }

  lemma AtMostOneHit(n: nat, order: seq<nat>, j: nat)
    requires |order| == n
    requires forall k, l | 0 <= k < l < n :: order[k] != order[l]
    ensures Sum(n, Column(Hits(order), j)) <= 1.0
    ensures Sum(n, Column(Hits(order), j)) != 0.0 ==> exists k :: 0 <= k < n && order[k] == j
  {
    var f := Column(Hits(order), j);
    if exists k :: 0 <= k < n && order[k] == j {
      var k :| 0 <= k < n && order[k] == j;
      SumInterval(n, f, k, k + 1);
    } else {
      forall k: nat | k < n
        ensures f(k) == 0.0
      {
        assert order[k] != j;
        assert Hits(order)(k, j) == Indicator(order[k] == j);
      }
      SumConst(n, 0.0, f);
    }
  }

  function Weighted(order: seq<nat>, f: nat -> real): (nat, nat) -> real {
    (k: nat, j: nat) => if k < |order| then Indicator(order[k] == j) * f(j) else 0.0
  }

  lemma WeightedRow(n: nat, order: seq<nat>, f: nat -> real, k: nat)
    requires k < n == |order| && order[k] < n
    ensures Sum(n, Row(Weighted(order, f), k)) == f(order[k])
  {
    var hit := Row(Hits(order), k);
    SumInterval(n, hit, order[k], order[k] + 1);
    SumScale(n, f(order[k]), hit, Row(Weighted(order, f), k));
  }

  lemma WeightedColumn(n: nat, order: seq<nat>, f: nat -> real, j: nat)
    requires |order| == n && j < n
    requires forall k | 0 <= k < n :: order[k] < n
    requires forall k, l | 0 <= k < l < n :: order[k] != order[l]
    ensures Sum(n, Column(Weighted(order, f), j)) == f(j)
  {
    EveryIndexIsHit(n, order, j);
    SumScale(n, f(j), Column(Hits(order), j), Column(Weighted(order, f), j));
  }

  /** Summing along a permutation of the indices changes nothing. */
  lemma Reindex(n: nat, order: seq<nat>, f: nat -> real, g: nat -> real)
    requires |order| == n
    requires forall k | 0 <= k < n :: order[k] < n
    requires forall k, l | 0 <= k < l < n :: order[k] != order[l]
    requires forall k: nat | k < n :: g(k) == f(order[k])
    ensures Sum(n, g) == Sum(n, f)
  {
    var W := Weighted(order, f);
    forall k: nat | k < n
      ensures RowSums(n, W)(k) == g(k)
    {
      WeightedRow(n, order, f, k);
    }
    forall j: nat | j < n
      ensures ColumnSums(n, W)(j) == f(j)
    {
      WeightedColumn(n, order, f, j);
    }
    SumSwap(n, n, W);
    SumEq(n, RowSums(n, W), g);
    SumEq(n, ColumnSums(n, W), f);
  }

  /** A maximal block [i, j] of equal sorted scores has the average 1-indexed rank (i + j)/2 + 1. */
  lemma BlockRank(p: seq<real>, order: seq<nat>, i: nat, j: nat)
    requires IsArgsort(order, p) && i <= j < |p|
    requires forall k | i <= k <= j :: p[order[k]] == p[order[i]]
    requires i > 0 ==> p[order[i - 1]] < p[order[i]]
    requires j + 1 < |p| ==> p[order[j]] < p[order[j + 1]]
    ensures MidRank(p, p[order[i]]) == (i + j) as real / 2.0 + 1.0
  {
    var n, v := |p|, p[order[i]];
    var below := (k: nat) => if k < n then Indicator(p[order[k]] < v) else 0.0;
    var same := (k: nat) => if k < n then Indicator(p[order[k]] == v) else 0.0;
    hide Sum;
    forall k: nat | k < n
      ensures p[order[k]] < v <==> k < i
      ensures p[order[k]] == v <==> i <= k < j + 1
    {
      BlockOf(p, order, i, j, k);
    }
    SumInterval(n, below, 0, i);
    SumInterval(n, same, i, j + 1);
    Reindex(n, order, Below(p, v), below);
    Reindex(n, order, Same(p, v), same);
  }

  lemma BlockOf(p: seq<real>, order: seq<nat>, i: nat, j: nat, k: nat)
    requires IsArgsort(order, p) && i <= j < |p| && k < |p|
    requires forall l | i <= l <= j :: p[order[l]] == p[order[i]]
    requires i > 0 ==> p[order[i - 1]] < p[order[i]]
    requires j + 1 < |p| ==> p[order[j]] < p[order[j + 1]]
    ensures p[order[k]] < p[order[i]] <==> k < i
    ensures p[order[k]] == p[order[i]] <==> i <= k < j + 1
  {
    if k < i {
      assert p[order[k]] <= p[order[i - 1]];
    } else if k > j {
      assert p[order[j + 1]] <= p[order[k]];
    }
  }

  // ---------- from ranks to pairs ----------

  function Positive(y: seq<int>, i: nat): real {
    if i < |y| then Indicator(y[i] == 1) else 0.0
  }

  function Ranked(p: seq<real>, y: seq<int>): nat -> real {
    (i: nat) => if i < |p| then Positive(y, i) * MidRank(p, p[i]) else 0.0
  }

  /** Positive i against everything. */
  function Against(p: seq<real>, y: seq<int>): (nat, nat) -> real {
    (i: nat, j: nat) => if i < |p| && j < |p| then Positive(y, i) * Beats(p[i], p[j]) else 0.0
  }

  /** Positive i against positive j. */
  function Among(p: seq<real>, y: seq<int>): (nat, nat) -> real {
    (i: nat, j: nat) => if i < |p| && j < |p| then Positive(y, i) * Positive(y, j) * Beats(p[i], p[j]) else 0.0
  }

  /** A midrank is one half plus the score of beating everything, itself included as a tie. */
  lemma MidRankCountsBeaten(p: seq<real>, y: seq<int>, i: nat)
    requires i < |p| == |y|
    ensures Sum(|p|, Row(Against(p, y), i)) == Positive(y, i) * (MidRank(p, p[i]) - 0.5)
  {
    var n, x, c := |p|, p[i], Positive(y, i);
    SumLinear(n, c, Below(p, x), c / 2.0, Same(p, x), Row(Against(p, y), i));
  }

  lemma RankSumIsAgainst(p: seq<real>, y: seq<int>)
    requires |p| == |y|
    ensures Sum(|p|, Ranked(p, y)) == SumRows(|p|, |p|, Against(p, y)) + Positives(y) / 2.0
  {
    hide Against, MidRank, Sum;
    var n := |p|;
    var rows := RowSums(n, Against(p, y));
    forall i: nat | i < n
      ensures Ranked(p, y)(i) == rows(i) + 0.5 * Is(y, 1)(i)
    {
      MidRankCountsBeaten(p, y, i);
    }
    SumLinear(n, 1.0, rows, 0.5, Is(y, 1), Ranked(p, y));
  }

  function Mirrored(F: (nat, nat) -> real): (nat, nat) -> real { (i: nat, j: nat) => F(j, i) }

  function BothPositive(y: seq<int>): (nat, nat) -> real { (i: nat, j: nat) => Positive(y, i) * Positive(y, j) }

  lemma PositivePair(p: seq<real>, y: seq<int>, i: nat, j: nat)
    requires |p| == |y| && i < |p| && j < |p|
    ensures BothPositive(y)(i, j) == Among(p, y)(i, j) + Mirrored(Among(p, y))(i, j)
  {
  }

  /** Double counting: of two positives exactly one beats the other, or each gets half. */
  lemma AmongPositives(p: seq<real>, y: seq<int>)
    requires |p| == |y|
    ensures 2.0 * SumRows(|p|, |p|, Among(p, y)) == Positives(y) * Positives(y)
  {
    hide SumRows, Among, BothPositive, Mirrored;
    var n, K := |p|, Among(p, y);
    assert SumRows(n, n, Mirrored(K)) == SumRows(n, n, K) by {
      forall i: nat, j: nat | i < n && j < n ensures Mirrored(K)(i, j) == K(j, i) { MirroredAt(K, i, j); }
      SumRowsTranspose(n, K, Mirrored(K));
    }
    assert SumRows(n, n, BothPositive(y)) == SumRows(n, n, K) + SumRows(n, n, Mirrored(K)) by {
      forall i: nat, j: nat | i < n && j < n ensures BothPositive(y)(i, j) == 1.0 * K(i, j) + 1.0 * Mirrored(K)(i, j) {
        PositivePair(p, y, i, j);
      }
      SumRowsLinear(n, n, 1.0, K, 1.0, Mirrored(K), BothPositive(y));
    }
    BothPositiveTotal(y);
  }

  lemma MirroredAt(F: (nat, nat) -> real, i: nat, j: nat)
    ensures Mirrored(F)(i, j) == F(j, i)
  {
  }

  lemma BothPositiveTotal(y: seq<int>)
    ensures SumRows(|y|, |y|, BothPositive(y)) == Positives(y) * Positives(y)
  {
    hide SumRows, Sum;
    SumProduct(|y|, |y|, Is(y, 1), Is(y, 1), BothPositive(y));
  }

  lemma AgainstSplits(p: seq<real>, y: seq<int>)
    requires |p| == |y|
    ensures SumRows(|p|, |p|, Against(p, y)) == SumRows(|p|, |p|, Among(p, y)) + Wins(p, y)
  {
    SumRowsLinear(|p|, |p|, 1.0, Among(p, y), 1.0, Pairs(p, y), Against(p, y));
  }

  /** The rank-sum formula counts pairs, whatever the labels outside {0, 1} are. */
  lemma RankSumCountsPairs(p: seq<real>, y: seq<int>)
    requires |p| == |y|
    ensures Sum(|p|, Ranked(p, y)) - Positives(y) * (Positives(y) + 1.0) / 2.0 == Wins(p, y)
  {
    RankSumIsAgainst(p, y);
    AgainstSplits(p, y);
    AmongPositives(p, y);
  }

  lemma PositionOf(n: nat, order: seq<nat>, i: nat) returns (k: nat)
    requires |order| == n && i < n
    requires forall k | 0 <= k < n :: order[k] < n
    requires forall k, l | 0 <= k < l < n :: order[k] != order[l]
    ensures k < n && order[k] == i
  {
    EveryIndexIsHit(n, order, i);
    AtMostOneHit(n, order, i);
    k :| k < n && order[k] == i;
  }

  /** The tie-averaging loop: every example gets the midrank of its score, for any order of ties. */
  method AverageRanks(p: seq<real>, order: seq<nat>) returns (ranks: array<real>)
    requires IsArgsort(order, p)
    ensures fresh(ranks) && ranks.Length == |p|
    ensures forall i | 0 <= i < |p| :: ranks[i] == MidRank(p, p[i])
  {
    hide MidRank;
    var n := |p|;
    ranks := new real[n](_ => 0.0);
    var i := 0;
    while i < n
      invariant i <= n
      invariant 0 < i < n ==> p[order[i - 1]] < p[order[i]]
      invariant forall k | 0 <= k < i :: ranks[order[k]] == MidRank(p, p[order[k]])
    {
      var j := i;
      while j + 1 < n && p[order[j + 1]] == p[order[i]]
        invariant i <= j < n
        invariant forall k | i <= k <= j :: p[order[k]] == p[order[i]]
      {
        j := j + 1;
      }
      var avgRank := (i + j) as real / 2.0 + 1.0;
      BlockRank(p, order, i, j);
      for k := i to j + 1
        invariant forall l | 0 <= l < i :: ranks[order[l]] == MidRank(p, p[order[l]])
        invariant forall l | i <= l < k :: ranks[order[l]] == avgRank
      {
        ranks[order[k]] := avgRank;
      }
      i := j + 1;
    }
    forall x | 0 <= x < n
      ensures ranks[x] == MidRank(p, p[x])
    {
      var k := PositionOf(n, order, x);
    }
  }

  ghost predicate BothClasses(y: seq<int>) {
    Positives(y) != 0.0 && Negatives(y) != 0.0
  }

  lemma PositivePairs(y: seq<int>)
    requires BothClasses(y)
    ensures Positives(y) * Negatives(y) > 0.0
  {
    SumNonNegative(|y|, Is(y, 1));
    SumNonNegative(|y|, Is(y, 0));
  }

  /** The area under the curve by counting pairs: wins plus half the ties, per pair. */
  ghost function Area(p: seq<real>, y: seq<int>): real
    requires BothClasses(y)
  {
    PositivePairs(y);
    Wins(p, y) / (Positives(y) * Negatives(y))
  }

  /** `auc_roc`; None stands for NaN. `order` is whatever `np.argsort` returned. */
  method Auc(p: seq<real>, y: seq<int>, order: seq<nat>) returns (auc: Option<real>)
    requires |p| == |y| && IsArgsort(order, p)
    ensures auc.Some? <==> BothClasses(y)
    ensures BothClasses(y) ==> auc == Some(Area(p, y))
  {
    var pos, neg := Positives(y), Negatives(y);
    if pos == 0.0 || neg == 0.0 {
      return None;
    }
    var ranks := AverageRanks(p, order);
    var rs := ranks[..];
    var terms := (i: nat) => if i < |rs| then Positive(y, i) * rs[i] else 0.0;
    var sumRanksPos := Sum(|p|, terms);
    assert sumRanksPos == Sum(|p|, Ranked(p, y)) by {
      SumEq(|p|, terms, Ranked(p, y));
    }
    PositivePairs(y);
    var u := sumRanksPos - pos * (pos + 1.0) / 2.0;
    assert u == Wins(p, y) by {
      RankSumCountsPairs(p, y);
    }
    QuotientEq(u, Wins(p, y), pos * neg);
    var q := u / (pos * neg);
    assert q == Wins(p, y) / (pos * neg);
    assert pos * neg == Positives(y) * Negatives(y);
    assert q == Area(p, y);
    auc := Some(q);
  }

  // ---------- consequences ----------

  function Crossed(y: seq<int>): (nat, nat) -> real {
    (i: nat, j: nat) => if i < |y| && j < |y| then Indicator(y[i] == 1) * Indicator(y[j] != 1) else 0.0
  }

  lemma CrossedTotal(y: seq<int>)
    ensures SumRows(|y|, |y|, Crossed(y)) == Positives(y) * (|y| as real - Positives(y))
  {
    var n := |y|;
    var others := (j: nat) => if j < |y| then Indicator(y[j] != 1) else 0.0;
    assert Sum(n, others) == |y| as real - Positives(y) by {
      SumConst(n, 1.0, _ => 1.0);
      SumLinear(n, 1.0, _ => 1.0, -1.0, Is(y, 1), others);
    }
    SumProduct(n, n, Is(y, 1), others, Crossed(y));
  }

  lemma BinaryCounts(y: seq<int>)
    requires Binary(y)
    ensures Positives(y) + Negatives(y) == |y| as real
  {
    SumConst(|y|, 1.0, _ => 1.0);
    SumLinear(|y|, 1.0, Is(y, 1), 1.0, Is(y, 0), _ => 1.0);
  }

  /** For 0/1 labels the wins lie between none and all of the positive-negative pairs. */
  lemma WinsBounds(p: seq<real>, y: seq<int>)
    requires |p| == |y| && Binary(y)
    ensures 0.0 <= Wins(p, y) <= Positives(y) * Negatives(y)
  {
    BinaryCounts(y);
    CrossedTotal(y);
    var none := (i: nat, j: nat) => 0.0;
    SumRowsLe(|p|, |p|, Pairs(p, y), Crossed(y));
    SumRowsLe(|p|, |p|, none, Pairs(p, y));
    SumRowsLinear(|p|, |p|, 0.0, none, 0.0, none, none);
  }

  function Flip(y: seq<int>): seq<int> { seq(|y|, i requires 0 <= i < |y| => 1 - y[i]) }

  /** A pair seen from the other side, with the labels exchanged, is lost by exactly what was won. */
  lemma FlippedPairs(p: seq<real>, y: seq<int>, i: nat, j: nat)
    requires i < |p| == |y| && j < |p| && Binary(y)
    ensures Pairs(p, Flip(y))(j, i) == Crossed(y)(i, j) - Pairs(p, y)(i, j)
  {
  }

  lemma FlippedCounts(y: seq<int>)
    ensures Positives(Flip(y)) == Negatives(y) && Negatives(Flip(y)) == Positives(y)
  {
    SumEq(|y|, Is(Flip(y), 1), Is(y, 0));
    SumEq(|y|, Is(Flip(y), 0), Is(y, 1));
  }

  /** Exchanging the two labels turns wins into losses. */
  lemma FlippedWins(p: seq<real>, y: seq<int>)
    requires |p| == |y| && Binary(y)
    ensures Wins(p, Flip(y)) == Positives(y) * Negatives(y) - Wins(p, y)
  {
    var n := |p|;
    var transposed := (i: nat, j: nat) => Pairs(p, Flip(y))(j, i);
    SumRowsTranspose(n, Pairs(p, Flip(y)), transposed);
    forall i: nat, j: nat | i < n && j < n
      ensures transposed(i, j) == 1.0 * Crossed(y)(i, j) + -1.0 * Pairs(p, y)(i, j)
    {
      FlippedPairs(p, y, i, j);
    }
    SumRowsLinear(n, n, 1.0, Crossed(y), -1.0, Pairs(p, y), transposed);
    BinaryCounts(y);
    CrossedTotal(y);
  }

  lemma AreaInUnitInterval(p: seq<real>, y: seq<int>)
    requires |p| == |y| && Binary(y) && BothClasses(y)
    ensures 0.0 <= Area(p, y) <= 1.0
  {
    WinsBounds(p, y);
    PositivePairs(y);
    QuotientSign(Wins(p, y), Positives(y) * Negatives(y));
    QuotientOne(Wins(p, y), Positives(y) * Negatives(y));
  }

  lemma FlippedArea(p: seq<real>, y: seq<int>)
    requires |p| == |y| && Binary(y) && BothClasses(y)
    ensures BothClasses(Flip(y))
    ensures Area(p, Flip(y)) == 1.0 - Area(p, y)
  {
    FlippedCounts(y);
    PositivePairs(y);
    var d := Positives(y) * Negatives(y);
    assert Positives(Flip(y)) * Negatives(Flip(y)) == d;
    assert Wins(p, Flip(y)) == d - Wins(p, y) by {
      FlippedWins(p, y);
    }
    QuotientComplement(Wins(p, y), d);
    QuotientEq(Wins(p, Flip(y)), d - Wins(p, y), d);
    hide Wins, CountOf;
    assert Area(p, Flip(y)) == Wins(p, Flip(y)) / d;
  }

  // ---------- other labels ----------

  /** Scores that put every positive above everything else. */
  function Separating(y: seq<int>): seq<real> { seq(|y|, i requires 0 <= i < |y| => Indicator(y[i] == 1)) }

  lemma SeparatingWinsAll(y: seq<int>)
    ensures Wins(Separating(y), y) == Positives(y) * (|y| as real - Positives(y))
  {
    var n, p := |y|, Separating(y);
    CrossedTotal(y);
    SumRowsLinear(n, n, 1.0, Crossed(y), 0.0, Crossed(y), Pairs(p, y));
  }

  /** A label other than 0 and 1 is counted by neither of the two class counts. */
  lemma StrayLabelsAreUncounted(y: seq<int>)
    requires !Binary(y)
    ensures Negatives(y) < |y| as real - Positives(y)
  {
    hide Sum;
    var labelled := (i: nat) => Is(y, 1)(i) + Is(y, 0)(i);
    var stray := (i: nat) => 1.0 - labelled(i);
    SumConst(|y|, 1.0, _ => 1.0);
    SumLinear(|y|, 1.0, Is(y, 1), 1.0, Is(y, 0), labelled);
    SumLinear(|y|, 1.0, _ => 1.0, -1.0, labelled, stray);
    SumNonNegative(|y|, stray);
    var k :| 0 <= k < |y| && y[k] != 0 && y[k] != 1;
    assert stray(k) == 1.0;
  }

  lemma SeparatedExceedsOne(y: seq<int>)
    requires BothClasses(y) && !Binary(y)
    ensures |Separating(y)| == |y| && Area(Separating(y), y) > 1.0
  {
    CountBounds(y, 1);
    CountBounds(y, 0);
    PositivePairs(y);
    SeparatingWinsAll(y);
    StrayLabelsAreUncounted(y);
    hide Wins, CountOf;
    var pos, neg, rest := Positives(y), Negatives(y), |y| as real - Positives(y);
    ShareAboveOne(pos, neg, rest);
    QuotientEq(Wins(Separating(y), y), pos * rest, pos * neg);
    assert Area(Separating(y), y) == Wins(Separating(y), y) / (pos * neg);
  }

  lemma ShareAboveOne(pos: real, neg: real, rest: real)
    requires pos > 0.0 && 0.0 < neg < rest
    ensures pos * neg > 0.0 && pos * rest / (pos * neg) > 1.0
  {
    TimesPositive(pos, neg, pos * neg);
    TimesLt(neg, rest, pos);
    QuotientOne(pos * rest, pos * neg);
  }

  ghost predicate BoundedArea(y: seq<int>, p: seq<real>)
    requires BothClasses(y)
  {
    0.0 <= Area(p, y) <= 1.0
  }

  /** The area lies in the unit interval for all scores exactly when all labels are 0 or 1: a stray
      label counts as a negative in the ranks but not in the denominator. */
  lemma AreaBoundedIffBinary(y: seq<int>)
    requires BothClasses(y)
    ensures (forall p: seq<real> | |p| == |y| :: BoundedArea(y, p)) <==> Binary(y)
  {
    if Binary(y) {
      forall p: seq<real> | |p| == |y|
        ensures BoundedArea(y, p)
      {
        AreaInUnitInterval(p, y);
      }
    } else {
      SeparatedExceedsOne(y);
      assert !BoundedArea(y, Separating(y));
    }
  }

  /** Outside 0/1 labels the formula still counts the pairs with the stray labels but does not
      divide by them, and the result can leave the unit interval. */
  lemma StrayLabelExceedsOne()
    ensures var p, y := [0.9, 0.1, 0.2], [1, 0, 2];
            BothClasses(y) && Area(p, y) == 2.0
  {
    var p, y := [0.9, 0.1, 0.2], [1, 0, 2];
    SumInterval(3, Is(y, 1), 0, 1);
    SumInterval(3, Is(y, 0), 1, 2);
    SumInterval(3, Row(Pairs(p, y), 0), 1, 3);
    SumConst(3, 0.0, Row(Pairs(p, y), 1));
    SumConst(3, 0.0, Row(Pairs(p, y), 2));
    var rows := RowSums(3, Pairs(p, y));
    SumLinear(3, 2.0, (i: nat) => Indicator(i < 1), 0.0, rows, rows);
    SumInterval(3, (i: nat) => Indicator(i < 1), 0, 1);
  }

  // ---------- the area in counts ----------

  /** The pairs of a positive and a non-positive whose scores compare as wanted. */
  function WonPairs(p: seq<real>, y: seq<int>): set<(nat, nat)>
    requires |p| == |y|
  {
    set i: nat, j: nat | i < |p| && j < |p| && y[i] == 1 && y[j] != 1 && p[j] < p[i] :: (i, j)
  }

  function TiedPairs(p: seq<real>, y: seq<int>): set<(nat, nat)>
    requires |p| == |y|
  {
    set i: nat, j: nat | i < |p| && j < |p| && y[i] == 1 && y[j] != 1 && p[j] == p[i] :: (i, j)
  }

  function Labelled(y: seq<int>, v: int): set<nat> { set i: nat | i < |y| && y[i] == v }

  function IsIn(s: set<(nat, nat)>): (nat, nat) -> real { (i: nat, j: nat) => Indicator((i, j) in s) }

  lemma PairInCounts(p: seq<real>, y: seq<int>, i: nat, j: nat)
    requires |p| == |y| && i < |p| && j < |p|
    ensures Pairs(p, y)(i, j) == 1.0 * IsIn(WonPairs(p, y))(i, j) + 0.5 * IsIn(TiedPairs(p, y))(i, j)
  {
    assert (i, j) in WonPairs(p, y) <==> y[i] == 1 && y[j] != 1 && p[j] < p[i];
    assert (i, j) in TiedPairs(p, y) <==> y[i] == 1 && y[j] != 1 && p[j] == p[i];
    hide WonPairs, TiedPairs;
  }

  lemma PairsInRange(p: seq<real>, y: seq<int>)
    requires |p| == |y|
    ensures forall q | q in WonPairs(p, y) :: q.0 < |p| && q.1 < |p|
    ensures forall q | q in TiedPairs(p, y) :: q.0 < |p| && q.1 < |p|
  {
  }

  lemma CountPairs(n: nat, s: set<(nat, nat)>)
    requires forall q | q in s :: q.0 < n && q.1 < n
    ensures SumRows(n, n, IsIn(s)) == |s| as real
  {
    SumCountsPairs(n, n, IsIn(s), s);
  }

  lemma WinsInCounts(p: seq<real>, y: seq<int>)
    requires |p| == |y|
    ensures Wins(p, y) == |WonPairs(p, y)| as real + 0.5 * |TiedPairs(p, y)| as real
  {
    hide WonPairs, TiedPairs, Pairs, SumRows, IsIn;
    var n, won, tied := |p|, WonPairs(p, y), TiedPairs(p, y);
    forall i: nat, j: nat | i < n && j < n
      ensures Pairs(p, y)(i, j) == 1.0 * IsIn(won)(i, j) + 0.5 * IsIn(tied)(i, j)
    {
      PairInCounts(p, y, i, j);
    }
    SumRowsLinear(n, n, 1.0, IsIn(won), 0.5, IsIn(tied), Pairs(p, y));
    PairsInRange(p, y);
    CountPairs(n, won);
    CountPairs(n, tied);
  }

  /** The area times the number of positives and of negatives is the number of pairs a positive wins
      plus half the number of ties. */
  lemma AreaInCounts(p: seq<real>, y: seq<int>)
    requires |p| == |y| && BothClasses(y)
    ensures Area(p, y) * (|Labelled(y, 1)| as real * |Labelled(y, 0)| as real)
            == |WonPairs(p, y)| as real + 0.5 * |TiedPairs(p, y)| as real
  {
    hide Wins, WonPairs, TiedPairs;
    WinsInCounts(p, y);
    CountOfIsSize(y, 1);
    CountOfIsSize(y, 0);
    PositivePairs(y);
    Quotient(Wins(p, y), Positives(y) * Negatives(y));
  }

  /** Every positive scores higher than every negative. */
  ghost predicate Separated(p: seq<real>, y: seq<int>)
    requires |p| == |y|
  {
    forall i, j | 0 <= i < |y| && 0 <= j < |y| && y[i] == 1 && y[j] == 0 :: p[j] < p[i]
  }

  function Shortfall(p: seq<real>, y: seq<int>): (nat, nat) -> real {
    (i: nat, j: nat) => Crossed(y)(i, j) - Pairs(p, y)(i, j)
  }

  lemma ShortfallTotal(p: seq<real>, y: seq<int>)
    requires |p| == |y| && Binary(y)
    ensures SumRows(|p|, |p|, Shortfall(p, y)) == Positives(y) * Negatives(y) - Wins(p, y)
  {
    BinaryCounts(y);
    CrossedTotal(y);
    SumRowsLinear(|p|, |p|, 1.0, Crossed(y), -1.0, Pairs(p, y), Shortfall(p, y));
  }

  lemma ShortfallAt(p: seq<real>, y: seq<int>, i: nat, j: nat)
    requires |p| == |y| && Binary(y) && i < |p| && j < |p|
    ensures Shortfall(p, y)(i, j) >= 0.0
    ensures Shortfall(p, y)(i, j) == 0.0 <==> !(y[i] == 1 && y[j] == 0) || p[j] < p[i]
  {
    assert y[j] == 0 || y[j] == 1;
    if y[i] == 1 && y[j] == 0 {
      assert Pairs(p, y)(i, j) == Beats(p[i], p[j]);
    } else {
      assert Crossed(y)(i, j) == 0.0 && Pairs(p, y)(i, j) == 0.0;
    }
  }

  lemma RowZeroIff(n: nat, F: (nat, nat) -> real, i: nat)
    requires forall j: nat | j < n :: F(i, j) >= 0.0
    ensures RowSums(n, F)(i) >= 0.0
    ensures RowSums(n, F)(i) == 0.0 <==> forall j: nat | j < n :: F(i, j) == 0.0
  {
    SumNonNegative(n, Row(F, i));
    assert forall j: nat | j < n :: Row(F, i)(j) == F(i, j);
  }

  lemma RowsZeroIff(m: nat, n: nat, F: (nat, nat) -> real)
    requires forall i: nat, j: nat | i < m && j < n :: F(i, j) >= 0.0
    ensures SumRows(m, n, F) == 0.0 <==> forall i: nat, j: nat | i < m && j < n :: F(i, j) == 0.0
  {
    hide RowSums;
    var rows := RowSums(n, F);
    forall i: nat | i < m
      ensures rows(i) >= 0.0 && (rows(i) == 0.0 <==> forall j: nat | j < n :: F(i, j) == 0.0)
    {
      RowZeroIff(n, F, i);
    }
    SumNonNegative(m, rows);
    if SumRows(m, n, F) == 0.0 {
      forall i: nat, j: nat | i < m && j < n
        ensures F(i, j) == 0.0
      {
        assert rows(i) == 0.0;
      }
    }
  }

  lemma NoShortfallIff(p: seq<real>, y: seq<int>)
    requires |p| == |y| && Binary(y)
    ensures SumRows(|p|, |p|, Shortfall(p, y)) == 0.0 <==> Separated(p, y)
  {
    hide Shortfall, SumRows;
    var F := Shortfall(p, y);
    forall i: nat, j: nat | i < |p| && j < |p|
      ensures F(i, j) >= 0.0
      ensures F(i, j) == 0.0 <==> !(y[i] == 1 && y[j] == 0) || p[j] < p[i]
    {
      ShortfallAt(p, y, i, j);
    }
    RowsZeroIff(|p|, |p|, F);
    if SumRows(|p|, |p|, F) == 0.0 {
      forall i, j | 0 <= i < |y| && 0 <= j < |y| && y[i] == 1 && y[j] == 0
        ensures p[j] < p[i]
      {
        assert F(i, j) == 0.0;
      }
    }
  }

  /** For 0/1 labels the area is 1 exactly when the scores separate the classes. */
  lemma AreaOneIff(p: seq<real>, y: seq<int>)
    requires |p| == |y| && Binary(y) && BothClasses(y)
    ensures Area(p, y) == 1.0 <==> Separated(p, y)
  {
    hide Wins, Shortfall, SumRows, Separated;
    PositivePairs(y);
    QuotientOne(Wins(p, y), Positives(y) * Negatives(y));
    ShortfallTotal(p, y);
    NoShortfallIff(p, y);
  }
}
