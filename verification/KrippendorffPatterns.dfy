/** How negative `krippendorff_alpha` can get: the exact minimum for every pattern of missing ratings,
    and the patterns for which it is -1/(R - 1), the value for R complete raters. */
module KrippendorffPatterns {
  import opened Wrappers
  import opened Sums
  import opened Arith
  import opened PairwiseSums
  import opened KrippendorffAlpha
  import opened KrippendorffBounds

  // ---------- the minimum is attained ----------

  /** The same cells are missing. */
  ghost predicate SamePattern(a: Ratings, b: Ratings) {
    && |a| == |b|
    && forall j | 0 <= j < |a| :: |a[j]| == |b[j]| && SameCells(a[j], b[j])
  }

  ghost predicate SameCells(xs: seq<Option<real>>, ys: seq<Option<real>>)
    requires |xs| == |ys|
  {
    forall i | 0 <= i < |xs| :: xs[i].Some? <==> ys[i].Some?
  }

  lemma {:induction false} PresentSameSize(xs: seq<Option<real>>, ys: seq<Option<real>>)
    requires |xs| == |ys| && SameCells(xs, ys)
    ensures |Present(xs)| == |Present(ys)|
  {
    if xs != [] { PresentSameSize(xs[..|xs| - 1], ys[..|ys| - 1]); }
  }

  lemma {:induction false} FlatSameSize(a: Ratings, b: Ratings)
    requires SamePattern(a, b)
    ensures |Flat(a)| == |Flat(b)|
  {
    if a != [] {
      FlatSameSize(a[..|a| - 1], b[..|b| - 1]);
      PresentSameSize(a[|a| - 1], b[|b| - 1]);
    }
  }

  lemma RatingsOfSame(a: Ratings, b: Ratings, items: nat, i: nat)
    requires SamePattern(a, b) && Rectangular(a, items) && Rectangular(b, items) && i < items
    ensures RatingsOf(a, items, i) == RatingsOf(b, items, i)
  {
    forall j | 0 <= j < |a|
      ensures Item(a, items, i)[j].Some? <==> Item(b, items, i)[j].Some?
    {
      assert SameCells(a[j], b[j]);
    }
    PresentSameSize(Item(a, items, i), Item(b, items, i));
  }

  lemma HalfProduct(c: nat, x: nat, y: nat)
    requires 2 * x == c * (c - 1) && 2 * y == c * (c - 1)
    ensures x == y
  {
  }

  lemma {:induction false} PairsSame(a: Ratings, b: Ratings, items: nat, k: nat)
    requires SamePattern(a, b) && Rectangular(a, items) && Rectangular(b, items) && k <= items
    ensures |ItemDiffs(a, items, k)| == |ItemDiffs(b, items, k)|
    ensures MostRatings(a, items, k) == MostRatings(b, items, k)
  {
    hide Present, Item, PairDiffs;
    if k > 0 {
      PairsSame(a, b, items, k - 1);
      RatingsOfSame(a, b, items, k - 1);
      var v, w := Present(Item(a, items, k - 1)), Present(Item(b, items, k - 1));
      PairCount(v);
      PairCount(w);
      HalfProduct(|v|, |PairDiffs(v)|, |PairDiffs(w)|);
    }
  }

  lemma {:induction false} SomePresent(cells: seq<Option<real>>) returns (j: nat)
    requires Present(cells) != []
    ensures j < |cells| && cells[j].Some?
  {
    j := |cells| - 1;
    if cells[j].None? { j := SomePresent(cells[..j]); }
  }

  lemma {:induction false} TwoPresent(cells: seq<Option<real>>) returns (j: nat, k: nat)
    requires |Present(cells)| >= 2
    ensures j < k < |cells| && cells[j].Some? && cells[k].Some?
  {
    k := |cells| - 1;
    if cells[k].None? {
      j, k := TwoPresent(cells[..k]);
    } else {
      j := SomePresent(cells[..k]);
    }
  }

  /** 1 and -1 for raters j and k of item i, 0 elsewhere. */
  function Opposed(i: nat, j: nat, k: nat): (nat, nat) -> real {
    (r: nat, c: nat) => if c != i then 0.0 else Indicator(r == j) - Indicator(r == k)
  }

  /** The pattern of a with those values. */
  function Refill(a: Ratings, values: (nat, nat) -> real): Ratings {
    seq(|a|, r requires 0 <= r < |a| =>
      seq(|a[r]|, c requires 0 <= c < |a[r]| => if a[r][c].Some? then Some(values(r, c)) else None))
  }

  lemma RefillSamePattern(a: Ratings, items: nat, values: (nat, nat) -> real)
    requires Rectangular(a, items)
    ensures Rectangular(Refill(a, values), items) && SamePattern(a, Refill(a, values))
  {
  }

  function Only(j: nat): nat -> real { (r: nat) => Indicator(r == j) }

  lemma OpposedCell(a: Ratings, items: nat, i: nat, j: nat, k: nat, r: nat, c: nat)
    requires Rectangular(a, items) && i < items && j < k < |a| && a[j][i].Some? && a[k][i].Some? && r < |a| && c < items
    ensures var b := Refill(a, Opposed(i, j, k));
            && Value(b)(r, c) == (if c == i then Only(j)(r) - Only(k)(r) else 0.0)
            && SquaredValue(b)(r, c) == (if c == i then Only(j)(r) + Only(k)(r) else 0.0)
  {
    var x := Value(Refill(a, Opposed(i, j, k)))(r, c);
    var plus, minus := Only(j)(r), Only(k)(r);
    assert plus == Indicator(r == j) && minus == Indicator(r == k);
    assert x == if c == i then plus - minus else 0.0;
    SquareOfSign(x);
  }

  lemma SquareOfSign(x: real)
    ensures x == 1.0 || x == -1.0 ==> Sq(x) == 1.0
    ensures x == 0.0 ==> Sq(x) == 0.0
  {
  }

  lemma OneOnly(n: nat, j: nat)
    requires j < n
    ensures Sum(n, Only(j)) == 1.0
  {
    SumInterval(n, Only(j), j, j + 1);
  }

  lemma TotalsAt(a: Ratings, c: nat)
    ensures Totals(a)(c) == Sum(|a|, Column(Value(a), c)) && SquareTotals(a)(c) == Sum(|a|, Column(SquaredValue(a), c))
  {
  }

  lemma OpposedColumn(a: Ratings, items: nat, i: nat, j: nat, k: nat, c: nat)
    requires Rectangular(a, items) && i < items && j < k < |a| && a[j][i].Some? && a[k][i].Some? && c < items
    ensures var b := Refill(a, Opposed(i, j, k));
            Totals(b)(c) == 0.0 && SquareTotals(b)(c) == if c == i then 2.0 else 0.0
  {
    var n, b := |a|, Refill(a, Opposed(i, j, k));
    assert |b| == n;
    hide Refill, Opposed, Value, SquaredValue, Only, Sum, Totals, SquareTotals;
    var f, g := Column(Value(b), c), Column(SquaredValue(b), c);
    TotalsAt(b, c);
    forall r: nat | r < n
      ensures f(r) == (if c == i then Only(j)(r) - Only(k)(r) else 0.0)
      ensures g(r) == (if c == i then Only(j)(r) + Only(k)(r) else 0.0)
    {
      OpposedCell(a, items, i, j, k, r, c);
    }
    if c == i {
      OneOnly(n, j);
      OneOnly(n, k);
      SumLinear(n, 1.0, Only(j), -1.0, Only(k), f);
      SumLinear(n, 1.0, Only(j), 1.0, Only(k), g);
    } else {
      SumConst(n, 0.0, f);
      SumConst(n, 0.0, g);
    }
  }

  lemma ZeroForm(c: real)
    ensures ItemForm(c, 0.0, 0.0) == 0.0 && ItemForm(c, 0.0, 2.0) == 2.0 * c
  {
  }

  lemma OpposedItem(a: Ratings, items: nat, i: nat, j: nat, k: nat, c: nat)
    requires Rectangular(a, items) && i < items && j < k < |a| && a[j][i].Some? && a[k][i].Some? && c < items
    ensures var b := Refill(a, Opposed(i, j, k));
            ItemForms(b)(c) == if c == i then 2.0 * Counts(b)(c) else 0.0
  {
    hide *;
    var b := Refill(a, Opposed(i, j, k));
    OpposedColumn(a, items, i, j, k, c);
    ItemFormsAt(b, c);
    ZeroForm(Counts(b)(c));
  }

  lemma OpposedWithin(a: Ratings, items: nat, i: nat, j: nat, k: nat)
    requires Rectangular(a, items) && i < items && j < k < |a| && a[j][i].Some? && a[k][i].Some?
    ensures var b := Refill(a, Opposed(i, j, k));
            Rectangular(b, items) && Total(ItemDiffs(b, items, items)) == 2.0 * RatingsOf(b, items, i) as real
  {
    RefillSamePattern(a, items, Opposed(i, j, k));
    hide *;
    var b := Refill(a, Opposed(i, j, k));
    var f := ItemForms(b);
    WithinTotal(b, items, items);
    ItemTotals(b, items, i);
    OpposedItem(a, items, i, j, k, i);
    forall c: nat | c < items && c != i
      ensures f(c) == 0.0
    {
      OpposedItem(a, items, i, j, k, c);
    }
    SumSingle(items, f, i);
  }

  lemma OpposedPooled(a: Ratings, items: nat, i: nat, j: nat, k: nat)
    requires Rectangular(a, items) && i < items && j < k < |a| && a[j][i].Some? && a[k][i].Some?
    ensures var b := Refill(a, Opposed(i, j, k));
            Total(Flat(b)) == 0.0 && Total(Squares(Flat(b))) == 2.0
  {
    RefillSamePattern(a, items, Opposed(i, j, k));
    hide *;
    var b := Refill(a, Opposed(i, j, k));
    var f, g := Totals(b), SquareTotals(b);
    PooledTotals(b, items);
    forall c: nat | c < items
      ensures f(c) == 0.0 && g(c) == if c == i then 2.0 else 0.0
    {
      OpposedColumn(a, items, i, j, k, c);
    }
    SumConst(items, 0.0, f);
    SumSingle(items, g, i);
  }

  /** The two disagreements of the refilled ratings. */
  lemma OpposedForms(a: Ratings, items: nat, i: nat, j: nat, k: nat)
    requires Rectangular(a, items) && i < items && j < k < |a| && a[j][i].Some? && a[k][i].Some?
    ensures var b := Refill(a, Opposed(i, j, k));
            && Rectangular(b, items)
            && Total(ItemDiffs(b, items, items)) == 2.0 * RatingsOf(b, items, i) as real
            && ItemForm(|Flat(b)| as real, Total(Flat(b)), Total(Squares(Flat(b)))) == 2.0 * |Flat(b)| as real
  {
    hide *;
    OpposedWithin(a, items, i, j, k);
    OpposedPooled(a, items, i, j, k);
    ZeroForm(|Flat(Refill(a, Opposed(i, j, k)))| as real);
  }

  lemma AttainedRatio(observed: real, expected: real, pairs: real, n: real, v: real, t: real, f: real)
    requires pairs > 0.0 && n > 0.0 && t == 2.0 * v && f == 2.0 * n
    requires observed * pairs == t && expected * (n * n) == 2.0 * f
    ensures expected > 0.0 && observed / expected == v * n / (2.0 * pairs)
  {
    assert expected * n == 4.0 by { Cancel(expected * n, 4.0, n); }
    Positive(expected, n);
    var q := observed / expected;
    Quotient(observed, expected);
    assert q * (2.0 * pairs) * expected == 2.0 * (q * expected) * pairs;
    assert v * n * expected == v * (expected * n);
    Cancel(q * (2.0 * pairs), v * n, expected);
    Quotient(v * n, 2.0 * pairs);
    Cancel(q, v * n / (2.0 * pairs), 2.0 * pairs);
  }

  lemma LowestFromRatio(b: Ratings, items: nat, v: nat, n: nat, pairs: nat)
    requires Rectangular(b, items) && pairs > 0 && Expected(b) > 0.0
    requires Observed(b, items) / Expected(b) == v as real * n as real / (2.0 * pairs as real)
    ensures Alpha(b, items) == LowestAlpha(v, n, pairs)
  {
    hide Observed, Expected;
  }

  lemma FullestItem(a: Ratings, items: nat) returns (i: nat)
    requires Rectangular(a, items) && Pairs(a, items) > 0
    ensures i < items && RatingsOf(a, items, i) == MostRatings(a, items, items) >= 2
  {
    hide RatingsOf;
    MostRatingsIsMaximum(a, items, items);
    PairsIff(a, items, items);
    var l: nat :| l < items && RatingsOf(a, items, l) >= 2;
    i :| i < items && RatingsOf(a, items, i) == MostRatings(a, items, items);
  }

  /** For every pattern of missing cells with a pair of ratings in some item the bound of
      `AlphaFloor` is attained: two raters of a fullest item disagree, everything else is 0. */
  lemma FloorIsAttained(a: Ratings, items: nat) returns (b: Ratings)
    requires Rectangular(a, items) && Pairs(a, items) > 0
    ensures SamePattern(a, b) && Rectangular(b, items)
    ensures Alpha(b, items) == LowestAlpha(MostRatings(a, items, items), |Flat(a)|, Pairs(a, items))
  {
    hide *;
    var i := FullestItem(a, items);
    var j, k := OpposedPair(a, items, i);
    b := Refill(a, Opposed(i, j, k));
    RefillSamePattern(a, items, Opposed(i, j, k));
    FlatSameSize(a, b);
    PairsAlike(a, b, items);
    RatingsOfSame(a, b, items, i);
    OpposedForms(a, items, i, j, k);
    PooledNonEmpty(b, items);
    ExpectedForm(b);
    ObservedForm(b, items);
    AttainedRatio(Observed(b, items), Expected(b), Pairs(b, items) as real, |Flat(b)| as real, RatingsOf(b, items, i) as real,
                  Total(ItemDiffs(b, items, items)), ItemForm(|Flat(b)| as real, Total(Flat(b)), Total(Squares(Flat(b)))));
    LowestFromRatio(b, items, RatingsOf(b, items, i), |Flat(b)|, Pairs(b, items));
  }

  lemma PairsAlike(a: Ratings, b: Ratings, items: nat)
    requires SamePattern(a, b) && Rectangular(a, items) && Rectangular(b, items)
    ensures Pairs(a, items) == Pairs(b, items) && MostRatings(a, items, items) == MostRatings(b, items, items)
  {
    PairsSame(a, b, items, items);
  }

  lemma OpposedPair(a: Ratings, items: nat, i: nat) returns (j: nat, k: nat)
    requires Rectangular(a, items) && i < items && RatingsOf(a, items, i) >= 2
    ensures j < k < |a| && a[j][i].Some? && a[k][i].Some?
  {
    j, k := TwoPresent(Item(a, items, i));
  }

  // ---------- when -1/(R - 1) is the bound ----------

  /** Every item is rated by all raters or by none. */
  ghost predicate AllOrNone(a: Ratings, items: nat)
    requires Rectangular(a, items)
  {
    forall i: nat | i < items :: RatingsOf(a, items, i) == 0 || RatingsOf(a, items, i) == |a|
  }

  /** No item has two ratings. */
  ghost predicate NoPairRated(a: Ratings, items: nat)
    requires Rectangular(a, items)
  {
    forall i: nat | i < items :: RatingsOf(a, items, i) < 2
  }

  ghost predicate MeetsBound(b: Ratings, items: nat)
    requires Rectangular(b, items) && |b| >= 2
  {
    Alpha(b, items) >= -1.0 / (|b| as real - 1.0)
  }

  /** How far an item of c ratings is from being rated by all or none: c(R(V - c) + (R - V)). */
  function Excess(r: real, v: real, c: real): real { c * (r * (v - c) + (r - v)) }

  function Excesses(a: Ratings, v: real): nat -> real {
    (i: nat) => Excess(|a| as real, v, Counts(a)(i))
  }

  lemma ExcessNonNegative(r: real, v: real, c: real)
    requires 0.0 <= c <= v <= r
    ensures Excess(r, v, c) >= 0.0
    ensures r > 0.0 ==> (Excess(r, v, c) == 0.0 <==> c == 0.0 || (c == v && v == r))
  {
    TimesLe(0.0, v - c, r);
    var w := r * (v - c) + (r - v);
    TimesLe(0.0, w, c);
    if r > 0.0 && c > 0.0 && !(c == v && v == r) {
      if c < v { TimesLt(0.0, v - c, r); }
      TimesLt(0.0, w, c);
    }
  }

  lemma ExcessStep(r: real, v: real, c: real, n: real, p: real, e: real)
    requires e == v * (r - 1.0) * n - r * p
    ensures e + Excess(r, v, c) == v * (r - 1.0) * (n + c) - r * (p + c * (c - 1.0))
  {
  }

  lemma ExcessesAt(a: Ratings, v: real, i: nat)
    ensures Excesses(a, v)(i) == Excess(|a| as real, v, Counts(a)(i))
    ensures OrderedPairs(a)(i) == Counts(a)(i) * (Counts(a)(i) - 1.0)
  {
  }

  lemma NoExcess(a: Ratings, v: real)
    ensures Sum(0, Excesses(a, v)) == v * (|a| as real - 1.0) * Sum(0, Counts(a)) - |a| as real * Sum(0, OrderedPairs(a))
  {
  }

  lemma {:induction false} ExcessTotal(a: Ratings, v: real, k: nat)
    ensures Sum(k, Excesses(a, v)) == v * (|a| as real - 1.0) * Sum(k, Counts(a)) - |a| as real * Sum(k, OrderedPairs(a))
  {
    hide Excess, Excesses, Counts, OrderedPairs;
    if k == 0 {
      NoExcess(a, v);
    } else {
      ExcessTotal(a, v, k - 1);
      ExcessesAt(a, v, k - 1);
      ExcessStep(|a| as real, v, Counts(a)(k - 1), Sum(k - 1, Counts(a)), Sum(k - 1, OrderedPairs(a)), Sum(k - 1, Excesses(a, v)));
    }
  }

  lemma ExcessOfItem(a: Ratings, items: nat, i: nat)
    requires Rectangular(a, items) && |a| > 0 && i < items
    ensures Excesses(a, MostRatings(a, items, items) as real)(i) >= 0.0
    ensures Excesses(a, MostRatings(a, items, items) as real)(i) == 0.0 <==>
            RatingsOf(a, items, i) == 0 || (RatingsOf(a, items, i) == MostRatings(a, items, items) == |a|)
  {
    hide *;
    MostRatingsIsMaximum(a, items, items);
    ItemTotals(a, items, i);
    ExcessesAt(a, MostRatings(a, items, items) as real, i);
    ExcessNonNegative(|a| as real, MostRatings(a, items, items) as real, Counts(a)(i));
  }

  /** No item is in excess exactly if all of them are rated by everyone or by no one. */
  lemma NoExcessIff(a: Ratings, items: nat)
    requires Rectangular(a, items) && |a| > 0 && Pairs(a, items) > 0
    ensures Sum(items, Excesses(a, MostRatings(a, items, items) as real)) >= 0.0
    ensures Sum(items, Excesses(a, MostRatings(a, items, items) as real)) == 0.0 <==> AllOrNone(a, items)
  {
    hide Excesses, RatingsOf, MostRatings, Pairs, Sum;
    var f := Excesses(a, MostRatings(a, items, items) as real);
    var full := FullestItem(a, items);
    forall i: nat | i < items
      ensures f(i) >= 0.0
    {
      ExcessOfItem(a, items, i);
    }
    SumNonNegative(items, f);
    if AllOrNone(a, items) {
      forall i: nat | i < items
        ensures f(i) == 0.0
      {
        ExcessOfItem(a, items, i);
      }
    }
    if forall i: nat | i < items :: f(i) == 0.0 {
      forall i: nat | i < items
        ensures RatingsOf(a, items, i) == 0 || RatingsOf(a, items, i) == |a|
      {
        ExcessOfItem(a, items, i);
        assert f(i) == 0.0;
      }
    }
  }

  /** 1 - VN/(2P) >= -1/(R - 1) says that V(R - 1)N - R 2P is not positive. */
  lemma FloorMeetsBoundIff(v: nat, n: nat, pairs: nat, raters: nat, excess: real, counted: real, paired: real)
    requires pairs > 0 && raters >= 2 && counted == n as real && paired == 2.0 * pairs as real
    requires excess == v as real * (raters as real - 1.0) * counted - raters as real * paired
    ensures LowestAlpha(v, n, pairs) >= -1.0 / (raters as real - 1.0) <==> excess <= 0.0
  {
    var d, k, r := 2.0 * pairs as real, raters as real - 1.0, raters as real;
    var x := v as real * n as real;
    var q := x / d;
    Quotient(x, d);
    Quotient(-1.0, k);
    TimesPositive(d, k, d * k);
    assert (1.0 - q) * k * d == k * d - (q * d) * k;
    assert -1.0 / k * k * d == -d;
    assert excess == x * k - r * d == x * k - k * d - d;
    if 1.0 - q >= -1.0 / k {
      TimesLe(-1.0 / k, 1.0 - q, d * k);
    } else {
      TimesLt(1.0 - q, -1.0 / k, d * k);
    }
  }

  lemma FloorIff(a: Ratings, items: nat)
    requires Rectangular(a, items) && |a| >= 2 && Pairs(a, items) > 0
    ensures LowestAlpha(MostRatings(a, items, items), |Flat(a)|, Pairs(a, items)) >= -1.0 / (|a| as real - 1.0)
            <==> AllOrNone(a, items)
  {
    hide *;
    var v := MostRatings(a, items, items);
    ExcessTotal(a, v as real, items);
    PooledTotals(a, items);
    PairsAddUp(a, items);
    NoExcessIff(a, items);
    FloorMeetsBoundIff(v, |Flat(a)|, Pairs(a, items), |a|, Sum(items, Excesses(a, v as real)),
                       Sum(items, Counts(a)), Sum(items, OrderedPairs(a)));
  }

  lemma PairsAddUp(a: Ratings, items: nat)
    requires Rectangular(a, items)
    ensures Sum(items, OrderedPairs(a)) == 2.0 * Pairs(a, items) as real
  {
    PairsTotal(a, items, items);
  }

  lemma NoPairAlpha(a: Ratings, items: nat)
    requires Rectangular(a, items) && Pairs(a, items) == 0
    ensures Alpha(a, items) == 1.0
  {
    hide Expected;
    if Expected(a) != 0.0 {
      ExpectedZeroIff(a);
      QuotientSign(0.0, Expected(a));
    }
  }

  lemma AllOrNoneBound(a: Ratings, b: Ratings, items: nat)
    requires Rectangular(a, items) && Rectangular(b, items) && SamePattern(a, b) && |a| >= 2
    requires AllOrNone(a, items) || NoPairRated(a, items)
    ensures MeetsBound(b, items)
  {
    hide Alpha, Flat, RatingsOf, MostRatings, LowestAlpha, ItemDiffs;
    PairsAlike(a, b, items);
    FlatSameSize(a, b);
    PairsIff(a, items, items);
    if Pairs(b, items) == 0 {
      NoPairAlpha(b, items);
      QuotientSign(-1.0, |b| as real - 1.0);
    } else {
      AlphaFloor(b, items);
      FloorIff(a, items);
    }
  }

  /** For a given pattern of missing cells, -1/(R - 1) bounds alpha from below for all values if and
      only if every item is rated by all or by none, or no item has two ratings at all. */
  lemma BoundHoldsIff(a: Ratings, items: nat)
    requires Rectangular(a, items) && |a| >= 2
    ensures (forall b: Ratings | SamePattern(a, b) && Rectangular(b, items) :: MeetsBound(b, items)) <==>
            AllOrNone(a, items) || NoPairRated(a, items)
  {
    if AllOrNone(a, items) || NoPairRated(a, items) {
      forall b: Ratings | SamePattern(a, b) && Rectangular(b, items)
        ensures MeetsBound(b, items)
      {
        AllOrNoneBound(a, b, items);
      }
    } else {
      PairsIff(a, items, items);
      hide Alpha, Flat, RatingsOf, MostRatings, LowestAlpha, ItemDiffs;
      var b := FloorIsAttained(a, items);
      FloorIff(a, items);
      assert !MeetsBound(b, items);
    }
  }

  // ---------- complete raters ----------

  ghost predicate Complete(a: Ratings, items: nat)
    requires Rectangular(a, items)
  {
    forall j, i | 0 <= j < |a| && 0 <= i < items :: a[j][i].Some?
  }

  lemma {:induction false} PresentComplete(cells: seq<Option<real>>)
    requires forall j | 0 <= j < |cells| :: cells[j].Some?
    ensures |Present(cells)| == |cells|
  {
    if cells != [] { PresentComplete(cells[..|cells| - 1]); }
  }

  /** For R >= 2 complete raters, alpha is at least -1/(R - 1). */
  lemma AlphaLowerBound(a: Ratings, items: nat)
    requires Rectangular(a, items) && Complete(a, items) && |a| >= 2
    ensures Alpha(a, items) >= -1.0 / (|a| as real - 1.0)
  {
    forall i: nat | i < items
      ensures RatingsOf(a, items, i) == |a|
    {
      PresentComplete(Item(a, items, i));
    }
    AllOrNoneBound(a, a, items);
  }

  // ---------- a missing rating ----------

  const GAP: Ratings := [[Some(0.0), Some(0.5)], [Some(1.0), None]]

  lemma PresentSnoc(cells: seq<Option<real>>, c: Option<real>)
    ensures Present(cells + [c]) == Present(cells) + if c.Some? then [c.value] else []
  {
  }

  lemma PresentPair(c: Option<real>, d: Option<real>)
    ensures Present([c, d]) == (if c.Some? then [c.value] else []) + if d.Some? then [d.value] else []
  {
    PresentSnoc([], c);
    assert [] + [c] == [c];
    PresentSnoc([c], d);
    assert [c] + [d] == [c, d];
  }

  lemma GapPooled()
    ensures Expected(GAP) == 1.0 / 3.0
  {
    PresentPair(Some(0.0), Some(0.5));
    PresentPair(Some(1.0), None);
    assert GAP[..1][..0] == [] && GAP[..1] == [GAP[0]];
    assert Flat(GAP[..1]) == [0.0, 0.5];
    assert Flat(GAP) == [0.0, 0.5, 1.0];
    ThreeValues(0.0, 0.5, 1.0);
    AllDiffsTotal(Flat(GAP));
  }

  lemma GapItems()
    ensures Rectangular(GAP, 2)
    ensures PairDiffs(Present(Item(GAP, 2, 0))) == [1.0] && PairDiffs(Present(Item(GAP, 2, 1))) == []
  {
    assert Item(GAP, 2, 0) == [Some(0.0), Some(1.0)] && Item(GAP, 2, 1) == [Some(0.5), None];
    hide Present, PairDiffs;
    PresentPair(Some(0.0), Some(1.0));
    PresentPair(Some(0.5), None);
    assert [0.0] + [1.0] == [0.0, 1.0];
    NoPairs([0.5]);
    TwoValues(0.0, 1.0);
  }

  lemma GapWithin()
    ensures Rectangular(GAP, 2) && Observed(GAP, 2) == 1.0
  {
    GapItems();
    hide Present, PairDiffs, Item;
    assert ItemDiffs(GAP, 2, 0) == [];
    assert ItemDiffs(GAP, 2, 1) == [] + [1.0];
    assert ItemDiffs(GAP, 2, 2) == [1.0] + [];
    TotalOne(1.0);
  }

  /** The bound needs complete raters: one gap can push alpha below -1 for two raters. */
  lemma MissingRatingBreaksBound()
    ensures Rectangular(GAP, 2) && Alpha(GAP, 2) == -2.0
  {
    GapPooled();
    GapWithin();
  }

  lemma TwoValues(x: real, y: real)
    ensures PairDiffs([x, y]) == [Sq(x - y)]
  {
    assert [x, y][1..] == [y];
    NoPairs([y]);
  }

  lemma ThreeValues(x: real, y: real, z: real)
    ensures Total(PairDiffs([x, y, z])) == Sq(x - y) + Sq(x - z) + Sq(y - z)
  {
    hide Sq;
    var row := FirstRow([x, y, z]);
    assert [x, y, z][1..] == [y, z];
    TwoValues(y, z);
    assert row == [Sq(x - y)] + [Sq(x - z)];
    TotalAppend([Sq(x - y)], [Sq(x - z)]);
    TotalAppend(row, [Sq(y - z)]);
    TotalOne(Sq(x - y));
    TotalOne(Sq(x - z));
    TotalOne(Sq(y - z));
  }
}
