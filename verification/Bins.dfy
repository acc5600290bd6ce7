/** Grouping the terms of a sum: what survives when each term goes into at most one bin. */
module Bins {
  import opened Sums

  /** The term g(i) when bin b holds example i, and nothing otherwise. */
  function Cell(holds: (nat, nat) -> bool, g: nat -> real): (nat, nat) -> real {
    (b: nat, i: nat) => if holds(b, i) then g(i) else 0.0
  }

  /** The total of g over bin b. */
  function BinTotal(n: nat, holds: (nat, nat) -> bool, g: nat -> real, b: nat): real {
    Sum(n, Row(Cell(holds, g), b))
  }

  function AbsBinTotal(n: nat, holds: (nat, nat) -> bool, g: nat -> real): nat -> real {
    (b: nat) => Abs(BinTotal(n, holds, g, b))
  }

  ghost predicate Disjoint(bins: nat, n: nat, holds: (nat, nat) -> bool) {
    forall b: nat, c: nat, i: nat | b < c < bins && i < n :: !(holds(b, i) && holds(c, i))
  }

  ghost predicate HasBin(bins: nat, holds: (nat, nat) -> bool, i: nat) {
    exists b: nat :: b < bins && holds(b, i)
  }

  ghost predicate Covers(bins: nat, n: nat, holds: (nat, nat) -> bool) {
    forall i: nat | i < n :: HasBin(bins, holds, i)
  }

  lemma ColumnTotal(bins: nat, n: nat, holds: (nat, nat) -> bool, g: nat -> real, i: nat)
    requires Disjoint(bins, n, holds) && i < n
    ensures Sum(bins, Column(Cell(holds, g), i)) == if HasBin(bins, holds, i) then g(i) else 0.0
  {
  }

  /** Binning can only cancel: the absolute bin totals add up to at most the absolute terms. */
  lemma BinningCancels(bins: nat, n: nat, holds: (nat, nat) -> bool, g: nat -> real, a: nat -> real)
    requires Disjoint(bins, n, holds)
    requires forall i: nat | i < n :: a(i) == Abs(g(i))
    ensures Sum(bins, AbsBinTotal(n, holds, g)) <= Sum(n, a)
  {
    var M := Cell(holds, a);
    forall b: nat | b < bins
      ensures AbsBinTotal(n, holds, g)(b) <= RowSums(n, M)(b)
    {
      AbsSum(n, Row(Cell(holds, g), b), Row(M, b));
    }
    SumLe(bins, AbsBinTotal(n, holds, g), RowSums(n, M));
    SumSwap(bins, n, M);
    forall i: nat | i < n
      ensures ColumnSums(bins, M)(i) <= a(i)
    {
      ColumnTotal(bins, n, holds, a, i);
    }
    SumLe(n, ColumnSums(bins, M), a);
  }

  /** When no term is lost, the bin totals add up to the overall total. */
  lemma BinTotalsAddUp(bins: nat, n: nat, holds: (nat, nat) -> bool, g: nat -> real, totals: nat -> real)
    requires Disjoint(bins, n, holds) && Covers(bins, n, holds)
    requires forall b: nat | b < bins :: totals(b) == BinTotal(n, holds, g, b)
    ensures Sum(bins, totals) == Sum(n, g)
  {
    var M := Cell(holds, g);
    forall i: nat | i < n
      ensures ColumnSums(bins, M)(i) == g(i)
    {
      ColumnTotal(bins, n, holds, g, i);
    }
    SumEq(n, ColumnSums(bins, M), g);
    SumSwap(bins, n, M);
    SumEq(bins, totals, RowSums(n, M));
  }

  /** ... so their absolute values add up to at least the absolute overall total. */
  lemma CoveringKeepsTotal(bins: nat, n: nat, holds: (nat, nat) -> bool, g: nat -> real)
    requires Disjoint(bins, n, holds) && Covers(bins, n, holds)
    ensures Abs(Sum(n, g)) <= Sum(bins, AbsBinTotal(n, holds, g))
  {
    var totals := (b: nat) => BinTotal(n, holds, g, b);
    BinTotalsAddUp(bins, n, holds, g, totals);
    AbsSum(bins, totals, AbsBinTotal(n, holds, g));
  }

  /** Binning cancels nothing among nonnegative binned terms: only the terms in no bin are missing. */
  lemma NonNegativeBins(bins: nat, n: nat, holds: (nat, nat) -> bool, g: nat -> real, kept: nat -> real)
    requires Disjoint(bins, n, holds)
    requires forall i: nat | i < n && HasBin(bins, holds, i) :: g(i) >= 0.0
    requires forall i: nat | i < n :: kept(i) == if HasBin(bins, holds, i) then g(i) else 0.0
    ensures Sum(bins, AbsBinTotal(n, holds, g)) == Sum(n, kept)
  {
    var M := Cell(holds, g);
    forall b: nat | b < bins
      ensures AbsBinTotal(n, holds, g)(b) == RowSums(n, M)(b)
    {
      forall i: nat | i < n
        ensures Row(M, b)(i) >= 0.0
      {
        if holds(b, i) { assert HasBin(bins, holds, i); }
      }
      SumNonNegative(n, Row(M, b));
    }
    SumEq(bins, AbsBinTotal(n, holds, g), RowSums(n, M));
    SumSwap(bins, n, M);
    forall i: nat | i < n
      ensures ColumnSums(bins, M)(i) == kept(i)
    {
      ColumnTotal(bins, n, holds, g, i);
    }
    SumEq(n, ColumnSums(bins, M), kept);
  }

  /** Negating all terms keeps the absolute bin totals. */
  lemma NegatedBins(bins: nat, n: nat, holds: (nat, nat) -> bool, g: nat -> real, h: nat -> real)
    requires forall i: nat | i < n :: h(i) == -g(i)
    ensures Sum(bins, AbsBinTotal(n, holds, h)) == Sum(bins, AbsBinTotal(n, holds, g))
  {
    forall b: nat | b < bins
      ensures AbsBinTotal(n, holds, h)(b) == AbsBinTotal(n, holds, g)(b)
    {
      SumScale(n, -1.0, Row(Cell(holds, g), b), Row(Cell(holds, h), b));
    }
    SumEq(bins, AbsBinTotal(n, holds, h), AbsBinTotal(n, holds, g));
  }
}
