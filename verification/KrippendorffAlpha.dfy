/** `krippendorff_alpha` for interval data (melp/stats/significance.py). */
module KrippendorffAlpha {
  import opened Wrappers
  import opened Sums
  import opened Arith
  import opened PairwiseSums

  /** One row per rater, one column per item; None stands for NaN. */
  type Ratings = seq<seq<Option<real>>>

  ghost predicate Rectangular(a: Ratings, items: nat) {
    forall j | 0 <= j < |a| :: |a[j]| == items
  }

  /** The values that are present, in order (`col[~np.isnan(col)]`). */
  function Present(cells: seq<Option<real>>): seq<real> {
    if cells == [] then []
    else
      var front := Present(cells[..|cells| - 1]);
      match cells[|cells| - 1]
      case None => front
      case Some(x) => front + [x]
  }

  function Item(a: Ratings, items: nat, i: nat): seq<Option<real>>
    requires Rectangular(a, items) && i < items
  {
    seq(|a|, j requires 0 <= j < |a| => a[j][i])
  }

  /** All present ratings, row by row. */
  function Flat(a: Ratings): seq<real> {
    if a == [] then [] else Flat(a[..|a| - 1]) + Present(a[|a| - 1])
  }

  /** The squared differences of every two raters on every one of the first i items. */
  function ItemDiffs(a: Ratings, items: nat, i: nat): seq<real>
    requires Rectangular(a, items) && i <= items
  {
    if i == 0 then [] else ItemDiffs(a, items, i - 1) + PairDiffs(Present(Item(a, items, i - 1)))
  }

  /** Observed disagreement. */
  function Observed(a: Ratings, items: nat): real
    requires Rectangular(a, items)
  {
    Mean(ItemDiffs(a, items, items))
  }

  /** Expected disagreement: the mean over all ordered pairs of ratings. */
  function Expected(a: Ratings): real {
    var v := Flat(a);
    if v == [] then 0.0 else SumRows(|v|, |v|, AllDiffs(v)) / (|v| * |v|) as real
  }

  function Alpha(a: Ratings, items: nat): real
    requires Rectangular(a, items)
  {
    if Expected(a) == 0.0 then 1.0 else 1.0 - Observed(a, items) / Expected(a)
  }

  // ---------- the program ----------

  /** The two inner loops over one item. */
  method AppendPairs(before: seq<real>, valid: seq<real>) returns (pairDiffs: seq<real>)
    ensures pairDiffs == before + PairDiffs(valid)
  {
    pairDiffs := before;
    for j := 0 to |valid|
      invariant pairDiffs + PairDiffs(valid[j..]) == before + PairDiffs(valid)
    {
      ghost var start := pairDiffs;
      ghost var row := FirstRow(valid[j..]);
      for k := j + 1 to |valid|
        invariant pairDiffs == start + row[..k - j - 1]
      {
        pairDiffs := pairDiffs + [Sq(valid[j] - valid[k])];
        assert row[..k - j] == row[..k - j - 1] + [Sq(valid[j] - valid[k])];
      }
      assert row[..|valid| - j - 1] == row;
      assert valid[j..][1..] == valid[j + 1..];
      assert (start + row) + PairDiffs(valid[j + 1..]) == start + PairDiffs(valid[j..]);
    }
  }

  /** `krippendorff_alpha`. */
  method Krippendorff(a: Ratings, items: nat) returns (alpha: real)
    requires Rectangular(a, items)
    ensures alpha == Alpha(a, items)
  {
    var pairDiffs: seq<real> := [];
    for i := 0 to items
      invariant pairDiffs == ItemDiffs(a, items, i)
    {
      var valid := Present(Item(a, items, i));
      if |valid| < 2 {
        NoPairs(valid);
        continue;
      }
      pairDiffs := AppendPairs(pairDiffs, valid);
    }
    var observed := Mean(pairDiffs);
    var expected := Expected(a);
    if expected == 0.0 {
      return 1.0;
    }
    return 1.0 - observed / expected;
  }

  lemma NoPairs(valid: seq<real>)
    requires |valid| < 2
    ensures PairDiffs(valid) == []
  {
  }

  // ---------- alpha is 1 exactly for unanimous raters ----------

  /** Any two raters who both rated item i rated it alike. */
  ghost predicate ItemAgrees(a: Ratings, items: nat, i: nat)
    requires Rectangular(a, items) && i < items
  {
    forall j, k | 0 <= j < |a| && 0 <= k < |a| ::
      a[j][i].Some? && a[k][i].Some? ==> a[j][i].value == a[k][i].value
  }

  ghost predicate Unanimous(a: Ratings, items: nat)
    requires Rectangular(a, items)
  {
    forall i: nat | i < items :: ItemAgrees(a, items, i)
  }

  lemma {:induction false} PresentHolds(cells: seq<Option<real>>, x: real)
    ensures x in Present(cells) <==> Some(x) in cells
  {
    if cells != [] {
      PresentHolds(cells[..|cells| - 1], x);
      assert cells == cells[..|cells| - 1] + [cells[|cells| - 1]];
    }
  }

  lemma {:induction false} FlatHolds(a: Ratings, x: real)
    ensures x in Flat(a) <==> exists j :: 0 <= j < |a| && Some(x) in a[j]
  {
    if a != [] {
      FlatHolds(a[..|a| - 1], x);
      PresentHolds(a[|a| - 1], x);
    }
  }

  lemma AllSameByMembers(v: seq<real>)
    ensures AllSame(v) <==> forall x, y | x in v && y in v :: x == y
  {
    if forall x, y | x in v && y in v :: x == y {
      forall j, k | 0 <= j < k < |v|
        ensures v[j] == v[k]
      {
        assert v[j] in v && v[k] in v;
      }
    }
  }

  lemma ItemUnanimous(a: Ratings, items: nat, i: nat)
    requires Rectangular(a, items) && i < items
    ensures AllSame(Present(Item(a, items, i))) <==> ItemAgrees(a, items, i)
  {
    var col := Item(a, items, i);
    var v := Present(col);
    AllSameByMembers(v);
    forall x ensures x in v <==> exists j :: 0 <= j < |a| && a[j][i] == Some(x) {
      PresentHolds(col, x);
      assert forall j | 0 <= j < |a| :: col[j] == a[j][i];
    }
    forall j | 0 <= j < |a| && a[j][i].Some?
      ensures a[j][i].value in v
    {
      assert a[j][i] == Some(a[j][i].value);
    }
  }

  lemma {:induction false} ItemDiffsZero(a: Ratings, items: nat, i: nat)
    requires Rectangular(a, items) && i <= items
    ensures AllZero(ItemDiffs(a, items, i)) <==> forall l: nat | l < i :: ItemAgrees(a, items, l)
  {
    hide Present, Item;
    if i > 0 {
      ItemDiffsZero(a, items, i - 1);
      ItemUnanimous(a, items, i - 1);
      PairDiffsZeroIff(Present(Item(a, items, i - 1)));
      AllZeroAppend(ItemDiffs(a, items, i - 1), PairDiffs(Present(Item(a, items, i - 1))));
    }
  }

  lemma {:induction false} ItemDiffsNonNegative(a: Ratings, items: nat, i: nat)
    requires Rectangular(a, items) && i <= items
    ensures forall l | 0 <= l < |ItemDiffs(a, items, i)| :: ItemDiffs(a, items, i)[l] >= 0.0
  {
    if i > 0 {
      ItemDiffsNonNegative(a, items, i - 1);
      PairDiffsNonNegative(Present(Item(a, items, i - 1)));
    }
  }

  lemma ObservedZeroIff(a: Ratings, items: nat)
    requires Rectangular(a, items)
    ensures Observed(a, items) >= 0.0
    ensures Observed(a, items) == 0.0 <==> Unanimous(a, items)
  {
    ItemDiffsNonNegative(a, items, items);
    MeanZeroIff(ItemDiffs(a, items, items));
    ItemDiffsZero(a, items, items);
  }

  lemma TotalZeroIff(d: seq<real>)
    requires forall i | 0 <= i < |d| :: d[i] >= 0.0
    ensures Total(d) >= 0.0
    ensures Total(d) == 0.0 <==> AllZero(d)
  {
    SumNonNegative(|d|, At(d));
    forall i | 0 <= i < |d| ensures At(d)(i) == d[i] {}
  }

  lemma ExpectedZeroIff(a: Ratings)
    ensures Expected(a) >= 0.0
    ensures Expected(a) == 0.0 <==> AllSame(Flat(a))
  {
    hide Sq, Flat;
    var v := Flat(a);
    if v != [] {
      AllDiffsTotal(v);
      PairDiffsNonNegative(v);
      PairDiffsZeroIff(v);
      var d := PairDiffs(v);
      TotalZeroIff(d);
      SquareCount(|v|);
      QuotientSign(2.0 * Total(d), (|v| * |v|) as real);
    }
  }

  lemma SquareCount(n: nat)
    requires n > 0
    ensures (n * n) as real > 0.0
  {
  }

  /** Alpha never exceeds 1 and reaches it exactly when no two ratings of an item differ; the
      branch for no expected disagreement included, and with any ratings missing. */
  lemma AlphaOneIffUnanimous(a: Ratings, items: nat)
    requires Rectangular(a, items)
    ensures Alpha(a, items) <= 1.0
    ensures Alpha(a, items) == 1.0 <==> Unanimous(a, items)
  {
    ObservedZeroIff(a, items);
    ExpectedZeroIff(a);
    if Expected(a) == 0.0 {
      AllSameByMembers(Flat(a));
      forall i: nat, j, k | i < items && 0 <= j < |a| && 0 <= k < |a| && a[j][i].Some? && a[k][i].Some?
        ensures a[j][i].value == a[k][i].value
      {
        FlatHolds(a, a[j][i].value);
        FlatHolds(a, a[k][i].value);
        assert Some(a[j][i].value) in a[j] && Some(a[k][i].value) in a[k];
      }
    } else {
      QuotientSign(Observed(a, items), Expected(a));
    }
  }
}
