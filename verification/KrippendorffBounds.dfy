/** A lower bound on `krippendorff_alpha` for every pattern of missing ratings. KrippendorffPatterns.dfy
    shows that it is attained. */
module KrippendorffBounds {
  import opened Wrappers
  import opened Sums
  import opened Arith
  import opened PairwiseSums
  import opened KrippendorffAlpha

  /** The rating of rater j on item i, 0 where it is missing. */
  function Value(a: Ratings): (nat, nat) -> real {
    (j: nat, i: nat) => if j < |a| && i < |a[j]| then Filled(a[j][i]) else 0.0
  }

  function SquaredValue(a: Ratings): (nat, nat) -> real {
    (j: nat, i: nat) => Sq(Value(a)(j, i))
  }

  /** Whether rater j rated item i. */
  function Given(a: Ratings): (nat, nat) -> real {
    (j: nat, i: nat) => if j < |a| && i < |a[j]| then Indicator(a[j][i].Some?) else 0.0
  }

  function Filled(c: Option<real>): real { if c.Some? then c.value else 0.0 }

  /** How many ratings item i has. */
  function RatingsOf(a: Ratings, items: nat, i: nat): nat
    requires Rectangular(a, items) && i < items
  {
    |Present(Item(a, items, i))|
  }

  /** The most ratings any of the first k items has. */
  function MostRatings(a: Ratings, items: nat, k: nat): nat
    requires Rectangular(a, items) && k <= items
  {
    if k == 0 then 0
    else
      var most := MostRatings(a, items, k - 1);
      if RatingsOf(a, items, k - 1) > most then RatingsOf(a, items, k - 1) else most
  }

  /** How many pairs of ratings of one item there are. */
  function Pairs(a: Ratings, items: nat): nat
    requires Rectangular(a, items)
  {
    |ItemDiffs(a, items, items)|
  }

  // ---------- totals over items and over the pooled ratings ----------

  /** Missing cells count for nothing. */
  lemma {:induction false} PresentTotals(cells: seq<Option<real>>, given: nat -> real, f: nat -> real, g: nat -> real)
    requires forall k: nat | k < |cells| ::
               given(k) == Indicator(cells[k].Some?) && f(k) == Filled(cells[k]) && g(k) == Sq(f(k))
    ensures |Present(cells)| as real == Sum(|cells|, given)
    ensures Total(Present(cells)) == Sum(|cells|, f)
    ensures Total(Squares(Present(cells))) == Sum(|cells|, g)
  {
    hide Sq;
    if cells == [] {
      assert Squares([]) == [];
    } else {
      var n := |cells| - 1;
      var front := Present(cells[..n]);
      PresentTotals(cells[..n], given, f, g);
      if cells[n].Some? {
        TotalSnoc(front, cells[n].value);
        TotalSnoc(Squares(front), Sq(cells[n].value));
        assert Squares(front + [cells[n].value]) == Squares(front) + [Sq(cells[n].value)];
      } else {
        SquareZeroIff(0.0);
      }
    }
  }

  lemma SquaresAppend(xs: seq<real>, ys: seq<real>)
    ensures Total(Squares(xs + ys)) == Total(Squares(xs)) + Total(Squares(ys))
  {
    assert Squares(xs + ys) == Squares(xs) + Squares(ys);
    TotalAppend(Squares(xs), Squares(ys));
  }

  /** The pooled ratings of the first k raters. */
  lemma {:induction false} FlatTotals(a: Ratings, items: nat, k: nat)
    requires Rectangular(a, items) && k <= |a|
    ensures |Flat(a[..k])| as real == SumRows(k, items, Given(a))
    ensures Total(Flat(a[..k])) == SumRows(k, items, Value(a))
    ensures Total(Squares(Flat(a[..k]))) == SumRows(k, items, SquaredValue(a))
  {
    hide Sq, Present;
    if k == 0 {
      assert Squares(Flat(a[..0])) == [];
    } else {
      FlatTotals(a, items, k - 1);
      assert a[..k][..k - 1] == a[..k - 1];
      PresentTotals(a[k - 1], Row(Given(a), k - 1), Row(Value(a), k - 1), Row(SquaredValue(a), k - 1));
      TotalAppend(Flat(a[..k - 1]), Present(a[k - 1]));
      SquaresAppend(Flat(a[..k - 1]), Present(a[k - 1]));
    }
  }

  /** The number of ratings, their sum and their sum of squares, per item. */
  function Counts(a: Ratings): nat -> real { ColumnSums(|a|, Given(a)) }

  function Totals(a: Ratings): nat -> real { ColumnSums(|a|, Value(a)) }

  function SquareTotals(a: Ratings): nat -> real { ColumnSums(|a|, SquaredValue(a)) }

  /** ... add up to those of the pooled ratings. */
  lemma PooledTotals(a: Ratings, items: nat)
    requires Rectangular(a, items)
    ensures |Flat(a)| as real == Sum(items, Counts(a))
    ensures Total(Flat(a)) == Sum(items, Totals(a))
    ensures Total(Squares(Flat(a))) == Sum(items, SquareTotals(a))
  {
    hide Sq, Flat;
    assert a[..|a|] == a;
    FlatTotals(a, items, |a|);
    SumSwap(|a|, items, Given(a));
    SumSwap(|a|, items, Value(a));
    SumSwap(|a|, items, SquaredValue(a));
  }

  lemma ItemTotals(a: Ratings, items: nat, i: nat)
    requires Rectangular(a, items) && i < items
    ensures RatingsOf(a, items, i) as real == Counts(a)(i)
    ensures Total(Present(Item(a, items, i))) == Totals(a)(i)
    ensures Total(Squares(Present(Item(a, items, i)))) == SquareTotals(a)(i)
  {
    PresentTotals(Item(a, items, i), Column(Given(a), i), Column(Value(a), i), Column(SquaredValue(a), i));
  }

  // ---------- the two disagreements ----------

  /** The summed squared differences over the pairs of c values with sum s and sum of squares q. */
  function ItemForm(c: real, s: real, q: real): real { c * q - Sq(s) }

  function ItemForms(a: Ratings): nat -> real {
    (i: nat) => ItemForm(Counts(a)(i), Totals(a)(i), SquareTotals(a)(i))
  }

  lemma ItemFormsAt(a: Ratings, i: nat)
    ensures ItemForms(a)(i) == ItemForm(Counts(a)(i), Totals(a)(i), SquareTotals(a)(i))
  {
  }

  lemma PairIsItem(c: nat, s: real, q: real)
    ensures PairForm(c, s, q) == ItemForm(c as real, s, q)
    ensures (c * c) as real == c as real * c as real
  {
  }

  lemma {:induction false} WithinTotal(a: Ratings, items: nat, k: nat)
    requires Rectangular(a, items) && k <= items
    ensures Total(ItemDiffs(a, items, k)) == Sum(k, ItemForms(a))
  {
    hide Sq, Present, PairDiffs, Item, Counts, Totals, SquareTotals, ItemForm, ItemForms, PairForm;
    if k > 0 {
      WithinTotal(a, items, k - 1);
      ItemTotals(a, items, k - 1);
      ItemFormsAt(a, k - 1);
      var v := Present(Item(a, items, k - 1));
      PairTotal(v);
      PairIsItem(|v|, Total(v), Total(Squares(v)));
      TotalAppend(ItemDiffs(a, items, k - 1), PairDiffs(Present(Item(a, items, k - 1))));
    }
  }

  /** c times c - 1, per item. */
  function OrderedPairs(a: Ratings): nat -> real { (i: nat) => Counts(a)(i) * (Counts(a)(i) - 1.0) }

  lemma {:induction false} PairsTotal(a: Ratings, items: nat, k: nat)
    requires Rectangular(a, items) && k <= items
    ensures 2.0 * |ItemDiffs(a, items, k)| as real == Sum(k, OrderedPairs(a))
  {
    hide Sq, Present, PairDiffs, Item, Counts;
    if k > 0 {
      PairsTotal(a, items, k - 1);
      ItemTotals(a, items, k - 1);
      PairCount(Present(Item(a, items, k - 1)));
      ProductReal(RatingsOf(a, items, k - 1), |PairDiffs(Present(Item(a, items, k - 1)))|);
    }
  }

  lemma ProductReal(c: nat, pairs: nat)
    requires 2 * pairs == c * (c - 1)
    ensures 2.0 * pairs as real == c as real * (c as real - 1.0)
  {
  }

  /** The summed squared distances to m of c values with sum s and sum of squares q. */
  function Scatter(c: real, m: real, s: real, q: real): real { c * Sq(m) - 2.0 * m * s + q }

  function Scatters(a: Ratings, m: real): nat -> real {
    (i: nat) => Scatter(Counts(a)(i), m, Totals(a)(i), SquareTotals(a)(i))
  }

  lemma ScattersAt(a: Ratings, m: real, i: nat)
    ensures Scatters(a, m)(i) == Scatter(Counts(a)(i), m, Totals(a)(i), SquareTotals(a)(i))
  {
  }

  lemma RowIsScatter(c: nat, m: real, s: real, q: real)
    ensures RowForm(c, m, s, q) == Scatter(c as real, m, s, q)
  {
  }

  lemma RowNonNegative(m: real, v: seq<real>)
    ensures Total(FirstRow([m] + v)) >= 0.0
  {
    hide Sq;
    var row := FirstRow([m] + v);
    forall k: nat | k < |row|
      ensures At(row)(k) >= 0.0
    {
      SquareZeroIff(m - v[k]);
    }
    SumNonNegative(|row|, At(row));
  }

  lemma ScatterNonNegative(a: Ratings, items: nat, i: nat, m: real)
    requires Rectangular(a, items) && i < items
    ensures Scatter(Counts(a)(i), m, Totals(a)(i), SquareTotals(a)(i)) >= 0.0
  {
    var v := Present(Item(a, items, i));
    ItemTotals(a, items, i);
    hide *;
    RowTotal(m, v);
    RowNonNegative(m, v);
    RowIsScatter(|v|, m, Total(v), Total(Squares(v)));
  }

  lemma ScatterStep(c: real, d: real, m: real, s: real, t: real, q: real, u: real)
    ensures Scatter(0.0, m, 0.0, 0.0) == 0.0
    ensures Scatter(c, m, s, q) + Scatter(d, m, t, u) == Scatter(c + d, m, s + t, q + u)
  {
  }

  lemma {:induction false} ScatterSum(a: Ratings, m: real, k: nat)
    ensures Sum(k, Scatters(a, m)) == Scatter(Sum(k, Counts(a)), m, Sum(k, Totals(a)), Sum(k, SquareTotals(a)))
  {
    hide Scatter, Scatters, Counts, Totals, SquareTotals;
    if k == 0 {
      ScatterStep(0.0, 0.0, m, 0.0, 0.0, 0.0, 0.0);
    } else {
      ScatterSum(a, m, k - 1);
      ScattersAt(a, m, k - 1);
      ScatterStep(Sum(k - 1, Counts(a)), Counts(a)(k - 1), m, Sum(k - 1, Totals(a)), Totals(a)(k - 1),
                  Sum(k - 1, SquareTotals(a)), SquareTotals(a)(k - 1));
    }
  }

  /** The scatter of all items about m is that of the pooled ratings. */
  lemma ScatterAddsUp(a: Ratings, items: nat, m: real)
    requires Rectangular(a, items)
    ensures Sum(items, Scatters(a, m)) == Scatter(|Flat(a)| as real, m, Total(Flat(a)), Total(Squares(Flat(a))))
  {
    PooledTotals(a, items);
    hide *;
    ScatterSum(a, m, items);
  }

  lemma ItemFormBound(c: real, m: real, s: real, q: real, v: real)
    requires 0.0 <= c <= v && Scatter(c, m, s, q) >= 0.0
    ensures ItemForm(c, s, q) <= v * Scatter(c, m, s, q)
  {
    var x, w := s - c * m, Scatter(c, m, s, q);
    assert ItemForm(c, s, q) == c * w - Sq(x);
    SquareZeroIff(x);
    TimesLe(c, v, w);
  }

  lemma BoundStep(t: real, f: real, v: real, w: real, x: real)
    requires t <= v * w && f <= v * x
    ensures t + f <= v * (w + x)
  {
  }

  lemma NothingScattered(a: Ratings, m: real, v: real)
    ensures Sum(0, ItemForms(a)) <= v * Sum(0, Scatters(a, m))
  {
  }

  /** Within the items the differences are at most V times the scatter about any point. */
  lemma {:induction false} WithinAtMostScatter(a: Ratings, items: nat, m: real, v: real, k: nat)
    requires Rectangular(a, items) && k <= items && forall i: nat | i < items :: RatingsOf(a, items, i) as real <= v
    ensures Sum(k, ItemForms(a)) <= v * Sum(k, Scatters(a, m))
  {
    hide ItemForm, ItemForms, Scatter, Scatters, Counts, Totals, SquareTotals, RatingsOf;
    if k == 0 {
      NothingScattered(a, m, v);
    } else {
      WithinAtMostScatter(a, items, m, v, k - 1);
      ItemTotals(a, items, k - 1);
      ItemFormsAt(a, k - 1);
      ScattersAt(a, m, k - 1);
      ScatterNonNegative(a, items, k - 1, m);
      ItemFormBound(Counts(a)(k - 1), m, Totals(a)(k - 1), SquareTotals(a)(k - 1), v);
      BoundStep(Sum(k - 1, ItemForms(a)), ItemForms(a)(k - 1), v, Sum(k - 1, Scatters(a, m)), Scatters(a, m)(k - 1));
    }
  }

  /** About the mean, n times the scatter is the summed squared differences over all pairs. */
  lemma CentredScatter(n: real, s: real, q: real)
    requires n > 0.0
    ensures n * Scatter(n, s / n, s, q) == ItemForm(n, s, q)
  {
    var m := s / n;
    Quotient(s, n);
    assert m * n == s;
    calc {
      n * Scatter(n, m, s, q);
      (m * n) * (m * n) - 2.0 * (m * n) * s + n * q;
      s * s - 2.0 * s * s + n * q;
    }
  }

  lemma WithinAtMostPooled(a: Ratings, items: nat, v: real)
    requires Rectangular(a, items) && Flat(a) != []
    requires forall i: nat | i < items :: RatingsOf(a, items, i) as real <= v
    ensures Total(ItemDiffs(a, items, items)) * |Flat(a)| as real
            <= v * ItemForm(|Flat(a)| as real, Total(Flat(a)), Total(Squares(Flat(a))))
  {
    hide ItemForm, Scatter, Flat, ItemDiffs, RatingsOf;
    var n, s, q := |Flat(a)| as real, Total(Flat(a)), Total(Squares(Flat(a)));
    var m := s / n;
    WithinTotal(a, items, items);
    WithinAtMostScatter(a, items, m, v, items);
    ScatterAddsUp(a, items, m);
    CentredScatter(n, s, q);
    ScaledBound(Total(ItemDiffs(a, items, items)), v, Scatter(n, m, s, q), n, ItemForm(n, s, q));
  }

  lemma ScaledBound(t: real, v: real, w: real, n: real, f: real)
    requires t <= v * w && n > 0.0 && n * w == f
    ensures t * n <= v * f
  {
    TimesLe(t, v * w, n);
    assert v * w * n == v * (n * w);
  }

  lemma MeanTimes(xs: seq<real>)
    requires xs != []
    ensures Mean(xs) * |xs| as real == Total(xs)
  {
    Quotient(Total(xs), |xs| as real);
  }

  lemma ExpectedTimes(a: Ratings)
    requires Flat(a) != []
    ensures Expected(a) * (|Flat(a)| * |Flat(a)|) as real == SumRows(|Flat(a)|, |Flat(a)|, AllDiffs(Flat(a)))
  {
    hide Flat, SumRows;
    var v := Flat(a);
    SquareCount(|v|);
    Quotient(SumRows(|v|, |v|, AllDiffs(v)), (|v| * |v|) as real);
  }

  lemma ExpectedForm(a: Ratings)
    requires Flat(a) != []
    ensures Expected(a) * (|Flat(a)| as real * |Flat(a)| as real)
            == 2.0 * ItemForm(|Flat(a)| as real, Total(Flat(a)), Total(Squares(Flat(a))))
  {
    hide *;
    var v := Flat(a);
    ExpectedTimes(a);
    AllDiffsTotal(v);
    PairTotal(v);
    PairIsItem(|v|, Total(v), Total(Squares(v)));
  }

  lemma ObservedForm(a: Ratings, items: nat)
    requires Rectangular(a, items) && Pairs(a, items) > 0
    ensures Observed(a, items) * Pairs(a, items) as real == Total(ItemDiffs(a, items, items))
  {
    hide Mean, ItemDiffs;
    MeanTimes(ItemDiffs(a, items, items));
  }

  // ---------- the bound ----------

  /** 1 - VN/(2P) for N ratings, P pairs within items and at most V ratings of an item. */
  function LowestAlpha(v: nat, n: nat, pairs: nat): real
    requires pairs > 0
  {
    1.0 - v as real * n as real / (2.0 * pairs as real)
  }

  lemma {:induction false} MostRatingsIsMaximum(a: Ratings, items: nat, k: nat)
    requires Rectangular(a, items) && k <= items
    ensures forall i: nat | i < k :: RatingsOf(a, items, i) <= MostRatings(a, items, k)
    ensures MostRatings(a, items, k) > 0 ==> exists i: nat :: i < k && RatingsOf(a, items, i) == MostRatings(a, items, k)
    ensures MostRatings(a, items, k) <= |a|
  {
    hide RatingsOf;
    if k > 0 {
      MostRatingsIsMaximum(a, items, k - 1);
      AtMostAllRate(a, items, k - 1);
    }
  }

  lemma AtMostAllRate(a: Ratings, items: nat, i: nat)
    requires Rectangular(a, items) && i < items
    ensures RatingsOf(a, items, i) <= |a|
  {
    PresentAtMost(Item(a, items, i));
  }

  lemma {:induction false} PresentAtMost(cells: seq<Option<real>>)
    ensures |Present(cells)| <= |cells|
  {
    if cells != [] { PresentAtMost(cells[..|cells| - 1]); }
  }

  lemma {:induction false} PairsIff(a: Ratings, items: nat, k: nat)
    requires Rectangular(a, items) && k <= items
    ensures ItemDiffs(a, items, k) == [] <==> forall i: nat | i < k :: RatingsOf(a, items, i) < 2
  {
    hide Present, Item, PairDiffs;
    if k > 0 {
      PairsIff(a, items, k - 1);
      PairCount(Present(Item(a, items, k - 1)));
      SomePairs(RatingsOf(a, items, k - 1), |PairDiffs(Present(Item(a, items, k - 1)))|);
    }
  }

  lemma SomePairs(c: nat, pairs: nat)
    requires 2 * pairs == c * (c - 1)
    ensures pairs == 0 <==> c < 2
  {
    if c >= 2 { assert c * (c - 1) >= 2; }
  }

  lemma PooledNonEmpty(a: Ratings, items: nat)
    requires Rectangular(a, items) && Pairs(a, items) > 0
    ensures Flat(a) != []
  {
    PairsIff(a, items, items);
    var i: nat :| i < items && RatingsOf(a, items, i) >= 2;
    ItemTotals(a, items, i);
    PooledTotals(a, items);
    forall l: nat | l < items
      ensures Counts(a)(l) >= 0.0
    {
      ItemTotals(a, items, l);
    }
    SumNonNegative(items, Counts(a));
  }

  lemma RatioBound(observed: real, expected: real, pairs: real, n: real, v: real, t: real, f: real)
    requires expected > 0.0 && pairs > 0.0 && n > 0.0
    requires observed * pairs == t && expected * (n * n) == 2.0 * f && t * n <= v * f
    ensures observed / expected <= v * n / (2.0 * pairs)
  {
    var q := observed / expected;
    Quotient(observed, expected);
    TimesPositive(expected, n, expected * n);
    calc {
      q * (2.0 * pairs) * (expected * n);
      2.0 * ((q * expected) * pairs * n);
      2.0 * (t * n);
    }
    assert v * n * (expected * n) == v * (expected * (n * n));
    CancelLe(q * (2.0 * pairs), v * n, expected * n);
    Quotient(v * n, 2.0 * pairs);
    CancelLe(q, v * n / (2.0 * pairs), 2.0 * pairs);
  }

  lemma FloorFromRatio(a: Ratings, items: nat, v: nat, n: nat, pairs: nat)
    requires Rectangular(a, items) && pairs > 0 && Expected(a) >= 0.0
    requires Expected(a) > 0.0 ==>
               Observed(a, items) / Expected(a) <= v as real * n as real / (2.0 * pairs as real)
    ensures Alpha(a, items) >= LowestAlpha(v, n, pairs)
  {
    hide Observed, Expected;
    assert v as real * n as real >= 0.0;
    QuotientSign(v as real * n as real, 2.0 * pairs as real);
  }

  /** For any ratings, missing ones included: alpha is at least 1 - VN/(2P). */
  lemma AlphaFloor(a: Ratings, items: nat)
    requires Rectangular(a, items) && Pairs(a, items) > 0
    ensures Alpha(a, items) >= LowestAlpha(MostRatings(a, items, items), |Flat(a)|, Pairs(a, items))
  {
    hide *;
    ExpectedZeroIff(a);
    MostRatingsIsMaximum(a, items, items);
    PooledNonEmpty(a, items);
    var v, n, pairs := MostRatings(a, items, items), |Flat(a)|, Pairs(a, items);
    WithinAtMostPooled(a, items, v as real);
    ExpectedForm(a);
    ObservedForm(a, items);
    if Expected(a) > 0.0 {
      RatioBound(Observed(a, items), Expected(a), pairs as real, n as real, v as real, Total(ItemDiffs(a, items, items)),
                 ItemForm(n as real, Total(Flat(a)), Total(Squares(Flat(a)))));
    }
    FloorFromRatio(a, items, v, n, pairs);
  }

  // ---------- alpha in column totals ----------

  lemma AlphaTimes(a: Ratings, items: nat)
    requires Rectangular(a, items) && Expected(a) > 0.0
    ensures (1.0 - Alpha(a, items)) * Expected(a) == Observed(a, items)
  {
    hide Observed, Expected;
    Quotient(Observed(a, items), Expected(a));
  }

  lemma ClearDenominators(beta: real, observed: real, expected: real, pairs: real, n: real, t: real, f: real)
    requires beta * expected == observed && expected * (n * n) == 2.0 * f && observed * pairs == t
    ensures beta * (2.0 * pairs) * f == n * n * t
  {
    calc {
      beta * (2.0 * pairs) * f;
      beta * pairs * (2.0 * f);
      (beta * expected) * pairs * (n * n);
      n * n * t;
    }
  }

  lemma AlphaForm(a: Ratings, items: nat, n: real, s: real, q: real)
    requires Rectangular(a, items) && Pairs(a, items) > 0 && !AllSame(Flat(a))
    requires n == |Flat(a)| as real && s == Total(Flat(a)) && q == Total(Squares(Flat(a)))
    ensures (1.0 - Alpha(a, items)) * Sum(items, OrderedPairs(a)) * ItemForm(n, s, q) == n * n * Sum(items, ItemForms(a))
  {
    hide *;
    ExpectedZeroIff(a);
    PooledNonEmpty(a, items);
    PairsTotal(a, items, items);
    WithinTotal(a, items, items);
    ExpectedForm(a);
    ObservedForm(a, items);
    AlphaTimes(a, items);
    CountOfPairs(a, items);
    ClearDenominators(1.0 - Alpha(a, items), Observed(a, items), Expected(a), Pairs(a, items) as real, n,
                      Total(ItemDiffs(a, items, items)), ItemForm(n, s, q));
  }

  /** How often, how much and how much squared every item was rated: c (c - 1) and cq - ss. */
  ghost predicate InItemTotals(a: Ratings, items: nat, pairs: nat -> real, within: nat -> real) {
    forall i: nat | i < items ::
      var (c, s, q) := (Counts(a)(i), Totals(a)(i), SquareTotals(a)(i));
      pairs(i) == c * (c - 1.0) && within(i) == c * q - s * s
  }

  /** With c, s and q the number, the sum and the sum of squares of the ratings of an item, and N, S and
      Q those of all ratings: (1 - alpha) sum(c (c - 1)) (NQ - SS) = NN sum(cq - ss). */
  lemma AlphaClosedForm(a: Ratings, items: nat, pairs: nat -> real, within: nat -> real)
    requires Rectangular(a, items) && Pairs(a, items) > 0 && !AllSame(Flat(a))
    requires InItemTotals(a, items, pairs, within)
    ensures var (n, s, q) := (Sum(items, Counts(a)), Sum(items, Totals(a)), Sum(items, SquareTotals(a)));
            (1.0 - Alpha(a, items)) * Sum(items, pairs) * (n * q - s * s) == n * n * Sum(items, within)
  {
    hide *;
    PairsAndWithin(a, items, pairs, within);
    PooledTotals(a, items);
    var n, s, q := |Flat(a)| as real, Total(Flat(a)), Total(Squares(Flat(a)));
    AlphaForm(a, items, n, s, q);
    FormIs(n, s, q);
  }

  lemma FormIs(c: real, s: real, q: real)
    ensures ItemForm(c, s, q) == c * q - s * s
  {
  }

  lemma CountOfPairs(a: Ratings, items: nat)
    requires Rectangular(a, items)
    ensures Pairs(a, items) == |ItemDiffs(a, items, items)|
  {
  }

  lemma PairsAndWithin(a: Ratings, items: nat, pairs: nat -> real, within: nat -> real)
    requires InItemTotals(a, items, pairs, within)
    ensures Sum(items, pairs) == Sum(items, OrderedPairs(a)) && Sum(items, within) == Sum(items, ItemForms(a))
  {
    hide Counts, Totals, SquareTotals, Sum;
    SumEq(items, pairs, OrderedPairs(a));
    SumEq(items, within, ItemForms(a));
  }
}
