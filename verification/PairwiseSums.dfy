/** Sums of squared differences over pairs, and their closed forms. */
module PairwiseSums {
  import opened Sums
  import opened Arith

  function Sq(x: real): real { x * x }

  /** (v[0] - v[k])^2 for every later k. */
  function FirstRow(v: seq<real>): seq<real>
    requires v != []
  {
    seq(|v| - 1, k requires 0 <= k < |v| - 1 => Sq(v[0] - v[k + 1]))
  }

  /** (v[j] - v[k])^2 over all j < k, in the order of two nested loops. */
  function PairDiffs(v: seq<real>): seq<real> {
    if v == [] then [] else FirstRow(v) + PairDiffs(v[1..])
  }

  function Squares(v: seq<real>): seq<real> { seq(|v|, i requires 0 <= i < |v| => Sq(v[i])) }

  lemma {:induction false} TotalAppend(xs: seq<real>, ys: seq<real>)
    ensures Total(xs + ys) == Total(xs) + Total(ys)
  {
    if ys == [] {
      assert xs + ys == xs;
    } else {
      var front := ys[..|ys| - 1];
      TotalAppend(xs, front);
      TotalSnoc(front, ys[|ys| - 1]);
      TotalSnoc(xs + front, ys[|ys| - 1]);
      assert front + [ys[|ys| - 1]] == ys;
      assert (xs + front) + [ys[|ys| - 1]] == xs + ys;
    }
  }

  lemma TotalSnoc(xs: seq<real>, x: real)
    ensures Total(xs + [x]) == Total(xs) + x
  {
    SumEq(|xs|, At(xs + [x]), At(xs));
  }

  lemma TotalOne(x: real)
    ensures Total([x]) == x
  {
    assert [] + [x] == [x];
    TotalSnoc([], x);
  }

  /** The sum of (x - w)^2 over m values w with sum s and sum of squares q. */
  function RowForm(m: nat, x: real, s: real, q: real): real { m as real * Sq(x) - 2.0 * x * s + q }

  /** The sum of squared differences over the pairs of m values with sum s and sum of squares q. */
  function PairForm(m: nat, s: real, q: real): real { m as real * q - Sq(s) }

  lemma RowFormStep(m: nat, x: real, s: real, q: real, y: real)
    ensures RowForm(m, x, s, q) + Sq(x - y) == RowForm(m + 1, x, s + y, q + Sq(y))
  {
  }

  lemma PairFormStep(m: nat, s: real, q: real, x: real)
    ensures RowForm(m, x, s, q) + PairForm(m, s, q) == PairForm(m + 1, x + s, Sq(x) + q)
  {
  }

  lemma {:induction false} RowTotal(x: real, w: seq<real>)
    ensures Total(FirstRow([x] + w)) == RowForm(|w|, x, Total(w), Total(Squares(w)))
  {
    hide RowForm, Sq;
    if w == [] {
      EmptyForms(x);
    } else {
      var u, y := w[..|w| - 1], w[|w| - 1];
      RowTotal(x, u);
      assert w == u + [y] && Squares(w) == Squares(u) + [Sq(y)];
      assert FirstRow([x] + w) == FirstRow([x] + u) + [Sq(x - y)];
      TotalSnoc(u, y);
      TotalSnoc(Squares(u), Sq(y));
      TotalSnoc(FirstRow([x] + u), Sq(x - y));
      RowFormStep(|u|, x, Total(u), Total(Squares(u)), y);
    }
  }

  lemma EmptyForms(x: real)
    ensures RowForm(0, x, 0.0, 0.0) == 0.0 && PairForm(0, 0.0, 0.0) == 0.0
  {
  }

  /** All pairs at once: the number of values times the sum of squares, minus the squared sum. */
  lemma {:induction false} PairTotal(v: seq<real>)
    ensures Total(PairDiffs(v)) == PairForm(|v|, Total(v), Total(Squares(v)))
  {
    hide RowForm, PairForm, Sq;
    if v == [] {
      EmptyForms(0.0);
    } else {
      var x, w := v[0], v[1..];
      PairTotal(w);
      assert v == [x] + w && Squares(v) == [Sq(x)] + Squares(w);
      TotalAppend([x], w);
      TotalAppend([Sq(x)], Squares(w));
      TotalOne(x);
      TotalOne(Sq(x));
      RowTotal(x, w);
      TotalAppend(FirstRow(v), PairDiffs(w));
      PairFormStep(|w|, Total(w), Total(Squares(w)), x);
    }
  }

  lemma {:induction false} PairCount(v: seq<real>)
    ensures 2 * |PairDiffs(v)| == |v| * (|v| - 1)
  {
    if v != [] {
      PairCount(v[1..]);
      TriangleStep(|v|);
    }
  }

  lemma TriangleStep(n: nat)
    ensures n * (n - 1) == (n - 1) * (n - 2) + 2 * (n - 1)
  {
  }

  lemma {:induction false} PairDiffsNonNegative(v: seq<real>)
    ensures forall i | 0 <= i < |PairDiffs(v)| :: PairDiffs(v)[i] >= 0.0
  {
    if v != [] {
      PairDiffsNonNegative(v[1..]);
    }
  }

  lemma SquarePositive(x: real)
    requires x > 0.0
    ensures Sq(x) > 0.0
  {
    TimesPositive(x, x, Sq(x));
  }

  lemma SquareZeroIff(x: real)
    ensures Sq(x) >= 0.0 && (Sq(x) == 0.0 <==> x == 0.0)
  {
    if x < 0.0 {
      SquarePositive(-x);
      assert Sq(-x) == Sq(x);
    } else if x > 0.0 {
      SquarePositive(x);
    }
  }

  ghost predicate AllZero(d: seq<real>) { forall i | 0 <= i < |d| :: d[i] == 0.0 }

  ghost predicate AllSame(v: seq<real>) { forall j, k | 0 <= j < k < |v| :: v[j] == v[k] }

  lemma AllZeroAppend(xs: seq<real>, ys: seq<real>)
    ensures AllZero(xs + ys) <==> AllZero(xs) && AllZero(ys)
  {
    var d := xs + ys;
    if AllZero(d) {
      forall i | 0 <= i < |xs| ensures xs[i] == 0.0 { assert d[i] == xs[i]; }
      forall i | 0 <= i < |ys| ensures ys[i] == 0.0 { assert d[|xs| + i] == ys[i]; }
    }
  }

  /** All pair differences vanish exactly when all values agree. */
  lemma {:induction false} PairDiffsZeroIff(v: seq<real>)
    ensures AllZero(PairDiffs(v)) <==> AllSame(v)
  {
    if v != [] {
      var row, w := FirstRow(v), v[1..];
      PairDiffsZeroIff(w);
      AllZeroAppend(row, PairDiffs(w));
      forall k | 0 <= k < |w|
        ensures row[k] == 0.0 <==> v[0] == w[k]
      {
        SquareZeroIff(v[0] - v[k + 1]);
      }
      if AllZero(row) && AllSame(w) {
        forall j, k | 0 <= j < k < |v|
          ensures v[j] == v[k]
        {
          assert row[k - 1] == 0.0 && v[k] == w[k - 1];
          if j > 0 {
            assert row[j - 1] == 0.0 && v[j] == w[j - 1];
          }
        }
      }
      if AllSame(v) {
        forall j, k | 0 <= j < k < |w| ensures w[j] == w[k] { assert v[j + 1] == v[k + 1]; }
        forall k | 0 <= k < |row| ensures row[k] == 0.0 { assert v[0] == v[k + 1]; }
      }
    }
  }

  /** (v[i] - v[j])^2 over all ordered pairs, itself included. */
  function AllDiffs(v: seq<real>): (nat, nat) -> real {
    (i: nat, j: nat) => Sq(At(v)(i) - At(v)(j))
  }

  /** Each row of the full table sums (v[i] - v[j])^2 over all j. */
  lemma AllDiffsRow(v: seq<real>, i: nat)
    requires i < |v|
    ensures RowSums(|v|, AllDiffs(v))(i) == RowForm(|v|, v[i], Total(v), Total(Squares(v)))
  {
    hide RowForm;
    var n, x := |v|, v[i];
    var row := Row(AllDiffs(v), i);
    var others := FirstRow([x] + v);
    RowTotal(x, v);
    forall k: nat | k < n
      ensures row(k) == At(others)(k)
    {
      assert ([x] + v)[k + 1] == v[k];
    }
    SumEq(n, row, At(others));
  }

  /** The first k rows of the table, for k values with sum sk and sum of squares qk. */
  function TableForm(m: nat, s: real, q: real, k: nat, sk: real, qk: real): real {
    m as real * qk - 2.0 * s * sk + k as real * q
  }

  lemma TableFormStep(m: nat, s: real, q: real, k: nat, sk: real, qk: real, x: real)
    ensures TableForm(m, s, q, 0, 0.0, 0.0) == 0.0
    ensures TableForm(m, s, q, k, sk, qk) + RowForm(m, x, s, q) == TableForm(m, s, q, k + 1, sk + x, qk + Sq(x))
    ensures TableForm(m, s, q, m, s, q) == 2.0 * PairForm(m, s, q)
  {
  }

  lemma {:induction false} TableTotal(m: nat, v: seq<real>, s: real, q: real, rows: nat -> real, k: nat)
    requires k <= |v| && forall i: nat | i < k :: rows(i) == RowForm(m, v[i], s, q)
    ensures Sum(k, rows) == TableForm(m, s, q, k, Sum(k, At(v)), Sum(k, At(Squares(v))))
  {
    hide RowForm, TableForm, Sq;
    if k == 0 {
      TableFormStep(m, s, q, 0, 0.0, 0.0, 0.0);
    } else {
      TableTotal(m, v, s, q, rows, k - 1);
      TableFormStep(m, s, q, k - 1, Sum(k - 1, At(v)), Sum(k - 1, At(Squares(v))), v[k - 1]);
    }
  }

  /** Every unordered pair is met twice. */
  lemma AllDiffsTotal(v: seq<real>)
    ensures SumRows(|v|, |v|, AllDiffs(v)) == 2.0 * Total(PairDiffs(v))
  {
    hide RowForm, TableForm, PairForm, Sq;
    var n, s, q := |v|, Total(v), Total(Squares(v));
    forall i: nat | i < n
      ensures RowSums(n, AllDiffs(v))(i) == RowForm(n, v[i], s, q)
    {
      AllDiffsRow(v, i);
    }
    TableTotal(n, v, s, q, RowSums(n, AllDiffs(v)), n);
    TableFormStep(n, s, q, n, s, q, 0.0);
    PairTotal(v);
  }
}
