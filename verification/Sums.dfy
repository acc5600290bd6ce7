/** Finite sums of reals. `Sum(n, f)` is f(0) + ... + f(n - 1). */
module Sums {
  import opened Arith

  function Sum(n: nat, f: nat -> real): real {
    if n == 0 then 0.0 else Sum(n - 1, f) + f(n - 1)
  }

  function Abs(x: real): real { if x < 0.0 then -x else x }

  function Indicator(b: bool): real { if b then 1.0 else 0.0 }

  // ---------- pointwise rules ----------

  lemma {:induction false} SumEq(n: nat, f: nat -> real, g: nat -> real)
    requires forall i: nat | i < n :: f(i) == g(i)
    ensures Sum(n, f) == Sum(n, g)
  {
    if n > 0 { SumEq(n - 1, f, g); }
  }

  lemma {:induction false} SumLe(n: nat, f: nat -> real, g: nat -> real)
    requires forall i: nat | i < n :: f(i) <= g(i)
    ensures Sum(n, f) <= Sum(n, g)
  {
    if n > 0 { SumLe(n - 1, f, g); }
  }

  /** Linearity: if h = c*f + d*g pointwise, then so for the sums. */
  lemma {:induction false} SumLinear(n: nat, c: real, f: nat -> real, d: real, g: nat -> real, h: nat -> real)
    requires forall i: nat | i < n :: h(i) == c * f(i) + d * g(i)
    ensures Sum(n, h) == c * Sum(n, f) + d * Sum(n, g)
  {
    if n > 0 {
      SumLinear(n - 1, c, f, d, g, h);
      LinearStep(c, Sum(n - 1, f), f(n - 1), d, Sum(n - 1, g), g(n - 1), Sum(n - 1, h), h(n - 1));
    }
  }

  lemma LinearStep(c: real, f: real, x: real, d: real, g: real, y: real, h: real, z: real)
    requires h == c * f + d * g && z == c * x + d * y
    ensures h + z == c * (f + x) + d * (g + y)
  {
  }

  lemma {:induction false} SumScale(n: nat, c: real, f: nat -> real, h: nat -> real)
    requires forall i: nat | i < n :: h(i) == c * f(i)
    ensures Sum(n, h) == c * Sum(n, f)
  {
    if n > 0 {
      SumScale(n - 1, c, f, h);
      Distribute(Sum(n - 1, f), f(n - 1), c);
    }
  }

  lemma {:induction false} SumQuotient(n: nat, f: nat -> real, d: real, h: nat -> real)
    requires d > 0.0 && forall i: nat | i < n :: h(i) == f(i) / d
    ensures Sum(n, h) == Sum(n, f) / d
  {
    if n == 0 {
      QuotientSign(0.0, d);
    } else {
      SumQuotient(n - 1, f, d, h);
      QuotientAdd(Sum(n - 1, f), f(n - 1), d);
    }
  }

  /** The pointwise product. */
  function Times(f: nat -> real, g: nat -> real): nat -> real { (i: nat) => f(i) * g(i) }

  lemma {:induction false} SumConst(n: nat, c: real, f: nat -> real)
    requires forall i: nat | i < n :: f(i) == c
    ensures Sum(n, f) == n as real * c
  {
    if n > 0 { SumConst(n - 1, c, f); }
  }

  lemma {:induction false} SumNonNegative(n: nat, f: nat -> real)
    requires forall i: nat | i < n :: f(i) >= 0.0
    ensures Sum(n, f) >= 0.0
    ensures Sum(n, f) == 0.0 <==> forall i: nat | i < n :: f(i) == 0.0
  {
    if n > 0 { SumNonNegative(n - 1, f); }
  }

  lemma {:induction false} AbsSum(n: nat, f: nat -> real, g: nat -> real)
    requires forall i: nat | i < n :: g(i) == Abs(f(i))
    ensures Abs(Sum(n, f)) <= Sum(n, g)
  {
    if n > 0 { AbsSum(n - 1, f, g); }
  }

  /** A sum that is 1 on [lo, hi) and 0 elsewhere counts that interval. */
  lemma {:induction false} SumInterval(n: nat, f: nat -> real, lo: nat, hi: nat)
    requires lo <= hi <= n
    requires forall i: nat | i < n :: f(i) == Indicator(lo <= i < hi)
    ensures Sum(n, f) == (hi - lo) as real
  {
    if n > 0 {
      if hi == n && lo < n {
        SumInterval(n - 1, f, lo, hi - 1);
      } else if hi == n {
        SumConst(n, 0.0, f);
      } else {
        SumInterval(n - 1, f, lo, hi);
      }
    }
  }

  /** A sum with a single nonzero term. */
  lemma {:induction false} SumSingle(n: nat, f: nat -> real, k: nat)
    requires k < n
    requires forall i: nat | i < n && i != k :: f(i) == 0.0
    ensures Sum(n, f) == f(k)
  {
    if k == n - 1 {
      SumConst(n - 1, 0.0, f);
    } else {
      SumSingle(n - 1, f, k);
    }
  }

  // ---------- double sums ----------

  function Row(F: (nat, nat) -> real, i: nat): nat -> real { (j: nat) => F(i, j) }

  function Column(F: (nat, nat) -> real, j: nat): nat -> real { (i: nat) => F(i, j) }

  function RowSums(n: nat, F: (nat, nat) -> real): nat -> real { (i: nat) => Sum(n, Row(F, i)) }

  function ColumnSums(m: nat, F: (nat, nat) -> real): nat -> real { (j: nat) => Sum(m, Column(F, j)) }

  function SumRows(m: nat, n: nat, F: (nat, nat) -> real): real {
    Sum(m, RowSums(n, F))
  }

  function SumColumns(m: nat, n: nat, F: (nat, nat) -> real): real {
    Sum(n, ColumnSums(m, F))
  }

  /** Exchange of summation order. */
  lemma {:induction false} SumSwap(m: nat, n: nat, F: (nat, nat) -> real)
    ensures SumRows(m, n, F) == SumColumns(m, n, F)
  {
    var cols := ColumnSums(m, F);
    if m == 0 {
      SumConst(n, 0.0, cols);
    } else {
      var less := ColumnSums(m - 1, F);
      SumSwap(m - 1, n, F);
      SumLinear(n, 1.0, less, 1.0, Row(F, m - 1), cols);
    }
  }

  lemma SumRowsLinear(m: nat, n: nat, c: real, F: (nat, nat) -> real, d: real, G: (nat, nat) -> real, H: (nat, nat) -> real)
    requires forall i: nat, j: nat | i < m && j < n :: H(i, j) == c * F(i, j) + d * G(i, j)
    ensures SumRows(m, n, H) == c * SumRows(m, n, F) + d * SumRows(m, n, G)
  {
    var f, g, h := RowSums(n, F), RowSums(n, G), RowSums(n, H);
    forall i: nat | i < m
      ensures h(i) == c * f(i) + d * g(i)
    {
      SumLinear(n, c, Row(F, i), d, Row(G, i), Row(H, i));
    }
    SumLinear(m, c, f, d, g, h);
  }

  /** A double sum of products is the product of the sums. */
  lemma {:induction false} SumProduct(m: nat, n: nat, f: nat -> real, g: nat -> real, F: (nat, nat) -> real)
    requires forall i: nat, j: nat | i < m && j < n :: F(i, j) == f(i) * g(j)
    ensures SumRows(m, n, F) == Sum(m, f) * Sum(n, g)
  {
    if m > 0 {
      SumProduct(m - 1, n, f, g, F);
      assert Sum(n, Row(F, m - 1)) == f(m - 1) * Sum(n, g) by {
        SumScale(n, f(m - 1), g, Row(F, m - 1));
      }
      Distribute(Sum(m - 1, f), f(m - 1), Sum(n, g));
    }
  }

  lemma SumRowsLe(m: nat, n: nat, F: (nat, nat) -> real, G: (nat, nat) -> real)
    requires forall i: nat, j: nat | i < m && j < n :: F(i, j) <= G(i, j)
    ensures SumRows(m, n, F) <= SumRows(m, n, G)
  {
    var f, g := RowSums(n, F), RowSums(n, G);
    forall i: nat | i < m
      ensures f(i) <= g(i)
    {
      SumLe(n, Row(F, i), Row(G, i));
    }
    SumLe(m, f, g);
  }

  lemma SumRowsTranspose(n: nat, F: (nat, nat) -> real, G: (nat, nat) -> real)
    requires forall i: nat, j: nat | i < n && j < n :: G(i, j) == F(j, i)
    ensures SumRows(n, n, G) == SumRows(n, n, F)
  {
    SumSwap(n, n, F);
    var f, g := ColumnSums(n, F), RowSums(n, G);
    forall i: nat | i < n
      ensures g(i) == f(i)
    {
      SumEq(n, Row(G, i), Column(F, i));
    }
    SumEq(n, g, f);
  }

  // ---------- counting ----------

  /** A sum of indicators is the size of the set they indicate. */
  lemma {:induction false} SumCounts(n: nat, f: nat -> real, s: set<nat>)
    requires forall i: nat | i < n :: f(i) == Indicator(i in s)
    requires forall i | i in s :: i < n
    ensures Sum(n, f) == |s| as real
  {
    if n == 0 {
      assert s == {};
    } else if n - 1 in s {
      SumCounts(n - 1, f, s - {n - 1});
    } else {
      SumCounts(n - 1, f, s);
    }
  }

  /** The pairs with first component i and second component in t. */
  function PairRow(i: nat, t: set<nat>): set<(nat, nat)> { set j | j in t :: (i, j) }

  lemma {:induction false} PairRowSize(i: nat, t: set<nat>)
    ensures |PairRow(i, t)| == |t|
  {
    if t == {} {
      assert PairRow(i, t) == {};
    } else {
      var j :| j in t;
      PairRowSize(i, t - {j});
      assert PairRow(i, t) == PairRow(i, t - {j}) + {(i, j)};
    }
  }

  /** The second components that s pairs with i. */
  function PartnersOf(s: set<(nat, nat)>, i: nat): (t: set<nat>)
    ensures forall j: nat :: j in t <==> (i, j) in s
  {
    set q | q in s && q.0 == i :: q.1
  }

  lemma PairsSplit(s: set<(nat, nat)>, i: nat)
    ensures |s| == |set q | q in s && q.0 != i| + |PartnersOf(s, i)|
  {
    var rest := set q | q in s && q.0 != i;
    PairRowSize(i, PartnersOf(s, i));
    assert s == rest + PairRow(i, PartnersOf(s, i));
  }

  /** A double sum of indicators is the size of the set of pairs they indicate. */
  lemma {:induction false} SumCountsPairs(m: nat, n: nat, F: (nat, nat) -> real, s: set<(nat, nat)>)
    requires forall i: nat, j: nat | i < m && j < n :: F(i, j) == Indicator((i, j) in s)
    requires forall q | q in s :: q.0 < m && q.1 < n
    ensures SumRows(m, n, F) == |s| as real
  {
    hide PartnersOf;
    if m == 0 {
      assert s == {};
    } else {
      var front := set q | q in s && q.0 != m - 1;
      PairsSplit(s, m - 1);
      SumCounts(n, Row(F, m - 1), PartnersOf(s, m - 1));
      SumCountsPairs(m - 1, n, F, front);
    }
  }

  // ---------- sequences ----------

  function At(xs: seq<real>): nat -> real { (i: nat) => if i < |xs| then xs[i] else 0.0 }

  function Total(xs: seq<real>): real { Sum(|xs|, At(xs)) }

  /** The mean, with the 0.0 the metrics report for no examples. */
  function Mean(xs: seq<real>): real {
    if xs == [] then 0.0 else Total(xs) / |xs| as real
  }

  lemma MeanZeroIff(xs: seq<real>)
    requires forall i | 0 <= i < |xs| :: xs[i] >= 0.0
    ensures Mean(xs) >= 0.0
    ensures Mean(xs) == 0.0 <==> forall i | 0 <= i < |xs| :: xs[i] == 0.0
  {
    SumNonNegative(|xs|, At(xs));
    forall i | 0 <= i < |xs|
      ensures At(xs)(i) == xs[i]
    {
    }
    if xs != [] {
      QuotientSign(Total(xs), |xs| as real);
    }
  }
}
