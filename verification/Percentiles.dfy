/** `np.percentile` with linear interpolation, as the interval of `bootstrap_ci` uses it. */
module Percentiles {
  import opened Arith

  ghost predicate Sorted(s: seq<real>) { forall i, j | 0 <= i < j < |s| :: s[i] <= s[j] }

  function InsertSorted(x: real, s: seq<real>): (r: seq<real>)
    requires Sorted(s)
    ensures Sorted(r) && |r| == |s| + 1
    ensures forall y :: y in r <==> y == x || y in s
  {
    if s == [] || s[|s| - 1] <= x then s + [x]
    else
      var n := |s| - 1;
      var front := InsertSorted(x, s[..n]);
      SortedSnoc(front, s[n]);
      front + [s[n]]
  }

  lemma SortedSnoc(s: seq<real>, y: real)
    requires Sorted(s) && forall z | z in s :: z <= y
    ensures Sorted(s + [y])
  {
    var r := s + [y];
    forall i, j | 0 <= i < j < |r|
      ensures r[i] <= r[j]
    {
      assert r[i] in s;
    }
  }

  /** The samples in increasing order. */
  function Sort(xs: seq<real>): (s: seq<real>)
    ensures Sorted(s) && |s| == |xs|
    ensures forall y :: y in s <==> y in xs
  {
    if xs == [] then []
    else
      var n := |xs| - 1;
      assert xs == xs[..n] + [xs[n]];
      InsertSorted(xs[n], Sort(xs[..n]))
  }

  lemma MultisetSnoc(s: seq<real>, y: real)
    ensures multiset(s + [y]) == multiset(s) + multiset{y}
  {
  }

  lemma SortedFront(s: seq<real>)
    requires Sorted(s) && s != []
    ensures Sorted(s[..|s| - 1])
  {
  }

  lemma InsertSortedStep(x: real, s: seq<real>)
    requires Sorted(s)
    ensures s == [] || s[|s| - 1] <= x ==> InsertSorted(x, s) == s + [x]
    ensures s != [] && x < s[|s| - 1] ==>
              Sorted(s[..|s| - 1]) && InsertSorted(x, s) == InsertSorted(x, s[..|s| - 1]) + [s[|s| - 1]]
  {
    hide Sorted;
    if s != [] { SortedFront(s); }
  }

  lemma {:induction false} InsertSortedPermutes(x: real, s: seq<real>)
    requires Sorted(s)
    ensures multiset(InsertSorted(x, s)) == multiset(s) + multiset{x}
  {
    hide *;
    InsertSortedStep(x, s);
    if s == [] || s[|s| - 1] <= x {
      MultisetSnoc(s, x);
    } else {
      var front, last := s[..|s| - 1], s[|s| - 1];
      InsertSortedPermutes(x, front);
      assert s == front + [last];
      MultisetSnoc(front, last);
      MultisetSnoc(InsertSorted(x, front), last);
    }
  }

  lemma SortStep(xs: seq<real>)
    ensures xs == [] ==> Sort(xs) == []
    ensures xs != [] ==> Sort(xs) == InsertSorted(xs[|xs| - 1], Sort(xs[..|xs| - 1]))
  {
    hide InsertSorted;
  }

  lemma {:induction false} SortPermutes(xs: seq<real>)
    ensures multiset(Sort(xs)) == multiset(xs)
  {
    hide *;
    SortStep(xs);
    if xs != [] {
      var front, last := xs[..|xs| - 1], xs[|xs| - 1];
      SortPermutes(front);
      InsertSortedPermutes(last, Sort(front));
      assert xs == front + [last];
      MultisetSnoc(front, last);
    }
  }

  function Interpolate(x: real, d: real, t: real): real { x + d * t }

  /** The order statistic at the fractional position h, interpolated linearly. */
  function AtPosition(s: seq<real>, h: real): real
    requires s != [] && 0.0 <= h <= (|s| - 1) as real
  {
    var lo := h.Floor;
    if lo == |s| - 1 then s[lo] else Interpolate(s[lo], s[lo + 1] - s[lo], h - lo as real)
  }

  /** The fractional index of a level among n sorted values. */
  function Position(level: real, n: nat): real { level * (n as real - 1.0) }

  lemma PositionInRange(level: real, n: nat)
    requires n > 0 && 0.0 <= level <= 1.0
    ensures 0.0 <= Position(level, n) <= (n - 1) as real
  {
    var top := n as real - 1.0;
    TimesLe(level, 1.0, top);
    TimesLe(0.0, level, top);
  }

  lemma PositionGrows(p: real, q: real, n: nat)
    requires n > 0 && p <= q
    ensures Position(p, n) <= Position(q, n)
  {
    TimesLe(p, q, n as real - 1.0);
  }

  /** `np.percentile(samples, 100 * level)` for a level between 0 and 1. */
  function Percentile(samples: seq<real>, level: real): real
    requires samples != [] && 0.0 <= level <= 1.0
  {
    PositionInRange(level, |samples|);
    AtPosition(Sort(samples), Position(level, |samples|))
  }

  lemma Between(x: real, d: real, t: real)
    requires d >= 0.0 && 0.0 <= t <= 1.0
    ensures x <= Interpolate(x, d, t) <= x + d
    ensures t == 0.0 ==> Interpolate(x, d, t) == x
  {
  }

  lemma InterpolateMonotone(x: real, d: real, t: real, u: real)
    requires d >= 0.0 && t <= u
    ensures Interpolate(x, d, t) <= Interpolate(x, d, u)
  {
  }

  /** What position h means: values below the result come before h, values above come after. */
  lemma PositionSplits(s: seq<real>, h: real, i: nat)
    requires Sorted(s) && i < |s| && 0.0 <= h <= (|s| - 1) as real
    ensures s[i] < AtPosition(s, h) ==> i as real < h
    ensures s[i] > AtPosition(s, h) ==> h < i as real
  {
    hide Interpolate;
    var lo := h.Floor;
    if lo < |s| - 1 {
      Between(s[lo], s[lo + 1] - s[lo], h - lo as real);
    }
  }

  /** A later position gives no smaller value. */
  lemma PositionMonotone(s: seq<real>, g: real, h: real)
    requires Sorted(s) && s != [] && 0.0 <= g <= h <= (|s| - 1) as real
    ensures AtPosition(s, g) <= AtPosition(s, h)
  {
    hide Interpolate;
    var l, m := g.Floor, h.Floor;
    if l < m {
      PositionSplits(s, g, l + 1);
      PositionSplits(s, h, m);
      assert s[l + 1] <= s[m];
    } else if l < |s| - 1 {
      InterpolateMonotone(s[l], s[l + 1] - s[l], g - l as real, h - l as real);
    }
  }

  // ---------- order statistics in counts ----------

  function CountWhere(xs: seq<real>, p: real -> bool): nat {
    if xs == [] then 0 else CountWhere(xs[..|xs| - 1], p) + if p(xs[|xs| - 1]) then 1 else 0
  }

  /** The indices of the values below v, and of those above. */
  function Below(xs: seq<real>, v: real): set<nat> { set i: nat | i < |xs| && xs[i] < v }

  function Above(xs: seq<real>, v: real): set<nat> { set i: nat | i < |xs| && xs[i] > v }

  lemma {:induction false} CountWhereIsSize(xs: seq<real>, p: real -> bool, s: set<nat>)
    requires forall i: nat :: i in s <==> i < |xs| && p(xs[i])
    ensures CountWhere(xs, p) == |s|
  {
    if xs == [] {
      assert s == {};
    } else {
      var n := |xs| - 1;
      var front := s - {n};
      CountWhereIsSize(xs[..n], p, front);
    }
  }

  lemma CountWhereSnoc(xs: seq<real>, y: real, p: real -> bool)
    ensures CountWhere(xs + [y], p) == CountWhere(xs, p) + if p(y) then 1 else 0
  {
    assert (xs + [y])[..|xs|] == xs;
  }

  lemma {:induction false} CountWhereInsert(x: real, s: seq<real>, p: real -> bool)
    requires Sorted(s)
    ensures CountWhere(InsertSorted(x, s), p) == CountWhere(s, p) + if p(x) then 1 else 0
  {
    hide *;
    InsertSortedStep(x, s);
    if s == [] || s[|s| - 1] <= x {
      CountWhereSnoc(s, x, p);
    } else {
      var front, last := s[..|s| - 1], s[|s| - 1];
      CountWhereInsert(x, front, p);
      assert s == front + [last];
      CountWhereSnoc(front, last, p);
      CountWhereSnoc(InsertSorted(x, front), last, p);
    }
  }

  /** Sorting keeps every count. */
  lemma {:induction false} CountWhereSort(xs: seq<real>, p: real -> bool)
    ensures CountWhere(Sort(xs), p) == CountWhere(xs, p)
  {
    hide *;
    SortStep(xs);
    if xs != [] {
      var front, last := xs[..|xs| - 1], xs[|xs| - 1];
      CountWhereSort(front, p);
      CountWhereInsert(last, Sort(front), p);
      assert xs == front + [last];
      CountWhereSnoc(front, last, p);
    }
  }

  /** Only the first m, or only the values from m on, are counted. */
  lemma {:induction false} CountWherePrefix(xs: seq<real>, p: real -> bool, m: nat)
    requires m <= |xs|
    ensures (forall i | m <= i < |xs| :: !p(xs[i])) ==> CountWhere(xs, p) <= m
    ensures (forall i | 0 <= i < m :: !p(xs[i])) ==> CountWhere(xs, p) <= |xs| - m
  {
    if xs != [] {
      var n := |xs| - 1;
      if m <= n {
        CountWherePrefix(xs[..n], p, m);
      } else {
        CountWherePrefix(xs[..n], p, n);
      }
    }
  }

  function LessThan(v: real): real -> bool { (y: real) => y < v }

  function MoreThan(v: real): real -> bool { (y: real) => y > v }

  /** What position h means: values below v come before it, values above v come after. */
  ghost predicate Splits(s: seq<real>, h: real, v: real) {
    forall i: nat | i < |s| :: (s[i] < v ==> i as real < h) && (s[i] > v ==> h < i as real)
  }

  lemma CountsAround(s: seq<real>, h: real, v: real)
    requires s != [] && 0.0 <= h <= (|s| - 1) as real && Splits(s, h, v)
    ensures CountWhere(s, LessThan(v)) as real < h + 1.0
    ensures CountWhere(s, MoreThan(v)) as real < |s| as real - h
  {
    var m: nat := if h.Floor as real == h then h.Floor else h.Floor + 1;
    CountWherePrefix(s, LessThan(v), m);
    CountWherePrefix(s, MoreThan(v), h.Floor + 1);
  }

  lemma PercentileIs(samples: seq<real>, level: real)
    requires samples != [] && 0.0 <= level <= 1.0
    ensures 0.0 <= Position(level, |samples|) <= (|samples| - 1) as real
    ensures Position(level, |samples|) == level * (|samples| as real - 1.0)
    ensures Percentile(samples, level) == AtPosition(Sort(samples), Position(level, |samples|))
  {
    PositionInRange(level, |samples|);
  }

  lemma PositionSplitsAll(s: seq<real>, h: real)
    requires Sorted(s) && s != [] && 0.0 <= h <= (|s| - 1) as real
    ensures Splits(s, h, AtPosition(s, h))
  {
    hide Sorted, AtPosition;
    forall i: nat | i < |s|
      ensures s[i] < AtPosition(s, h) ==> i as real < h
      ensures s[i] > AtPosition(s, h) ==> h < i as real
    {
      PositionSplits(s, h, i);
    }
  }

  lemma PercentileSplitsAll(samples: seq<real>, level: real)
    requires samples != [] && 0.0 <= level <= 1.0
    ensures Splits(Sort(samples), Position(level, |samples|), Percentile(samples, level))
  {
    hide *;
    PercentileIs(samples, level);
    PositionSplitsAll(Sort(samples), Position(level, |samples|));
  }

  lemma CountsAreSizes(xs: seq<real>, v: real)
    ensures CountWhere(xs, LessThan(v)) == |Below(xs, v)| && CountWhere(xs, MoreThan(v)) == |Above(xs, v)|
  {
    CountWhereIsSize(xs, LessThan(v), Below(xs, v));
    CountWhereIsSize(xs, MoreThan(v), Above(xs, v));
  }

  /** At most as many samples as positions before h are below the value there, and at most as many as
      positions after h are above it. */
  lemma TailCounts(samples: seq<real>, level: real)
    requires samples != [] && 0.0 <= level <= 1.0
    ensures var (h, v) := (level * (|samples| as real - 1.0), Percentile(samples, level));
            && |Below(samples, v)| as real < h + 1.0
            && |Above(samples, v)| as real < |samples| as real - h
  {
    hide *;
    var v := Percentile(samples, level);
    PercentileIs(samples, level);
    PercentileSplitsAll(samples, level);
    CountsAround(Sort(samples), Position(level, |samples|), v);
    CountWhereSort(samples, LessThan(v));
    CountWhereSort(samples, MoreThan(v));
    CountsAreSizes(samples, v);
  }

  // ---------- evenly spread samples ----------

  /** 0, 1, ..., n - 1. */
  function Ramp(n: nat): seq<real> { seq(n, i requires 0 <= i < n => i as real) }

  lemma LastIsGreatest(s: seq<real>, x: real)
    requires Sorted(s) && x in s
    ensures x <= s[|s| - 1]
  {
  }

  lemma MultisetFront(s: seq<real>)
    requires s != []
    ensures s[|s| - 1] in multiset(s) && multiset(s[..|s| - 1]) == multiset(s) - multiset{s[|s| - 1]}
  {
    assert s == s[..|s| - 1] + [s[|s| - 1]];
    MultisetSnoc(s[..|s| - 1], s[|s| - 1]);
  }

  lemma SameLast(s: seq<real>, t: seq<real>)
    requires Sorted(s) && Sorted(t) && multiset(s) == multiset(t) && s != []
    ensures |t| == |s| && s[|s| - 1] == t[|t| - 1]
  {
    assert |s| == |multiset(s)| == |multiset(t)| == |t|;
    MultisetFront(s);
    MultisetFront(t);
    hide Sorted;
    assert s[|s| - 1] in t && t[|t| - 1] in s;
    LastIsGreatest(s, t[|t| - 1]);
    LastIsGreatest(t, s[|s| - 1]);
  }

  /** Sorted sequences with the same values are equal. */
  lemma {:induction false} SortedUnique(s: seq<real>, t: seq<real>)
    requires Sorted(s) && Sorted(t) && multiset(s) == multiset(t)
    ensures s == t
  {
    hide *;
    assert |s| == |multiset(s)| == |multiset(t)| == |t|;
    if s != [] {
      SameLast(s, t);
      MultisetFront(s);
      MultisetFront(t);
      SortedFront(s);
      SortedFront(t);
      SortedUnique(s[..|s| - 1], t[..|t| - 1]);
      assert s == s[..|s| - 1] + [s[|s| - 1]] && t == t[..|t| - 1] + [t[|t| - 1]];
    }
  }

  lemma RampPosition(n: nat, h: real)
    requires n > 0 && 0.0 <= h <= (n - 1) as real
    ensures AtPosition(Ramp(n), h) == h
  {
    var lo := h.Floor;
    if lo < n - 1 {
      assert Ramp(n)[lo + 1] - Ramp(n)[lo] == 1.0;
      assert Interpolate(lo as real, 1.0, h - lo as real) == h;
    }
  }

  /** The percentile of evenly spread samples, in whatever order, is its position. */
  lemma RampPercentile(samples: seq<real>, level: real)
    requires samples != [] && 0.0 <= level <= 1.0 && multiset(samples) == multiset(Ramp(|samples|))
    ensures Percentile(samples, level) == level * (|samples| as real - 1.0)
  {
    hide *;
    var n := |samples|;
    PercentileIs(samples, level);
    SortPermutes(samples);
    RampIsSorted(n);
    SortedUnique(Sort(samples), Ramp(n));
    RampPosition(n, Position(level, n));
  }

  lemma RampIsSorted(n: nat)
    ensures Sorted(Ramp(n)) && |Ramp(n)| == n
  {
  }

  // ---------- levels ----------

  ghost predicate Within(xs: seq<real>, lo: real, hi: real) { forall i | 0 <= i < |xs| :: lo <= xs[i] <= hi }

  lemma PercentileWithin(samples: seq<real>, level: real, lo: real, hi: real)
    requires samples != [] && 0.0 <= level <= 1.0 && Within(samples, lo, hi)
    ensures lo <= Percentile(samples, level) <= hi
  {
    hide AtPosition, Position;
    var s, n := Sort(samples), |samples|;
    PositionInRange(level, n);
    var h := Position(level, n);
    assert s[0] in samples && s[n - 1] in samples;
    PositionSplits(s, h, 0);
    PositionSplits(s, h, n - 1);
  }

  lemma PercentileMonotone(samples: seq<real>, p: real, q: real)
    requires samples != [] && 0.0 <= p <= q <= 1.0
    ensures Percentile(samples, p) <= Percentile(samples, q)
  {
    hide AtPosition, Position;
    var n := |samples|;
    PositionInRange(p, n);
    PositionInRange(q, n);
    PositionGrows(p, q, n);
    PositionMonotone(Sort(samples), Position(p, n), Position(q, n));
  }

  lemma SortedUnit()
    ensures Sort([0.0, 1.0]) == [0.0, 1.0]
  {
    SortPermutes([0.0, 1.0]);
    var s := Sort([0.0, 1.0]);
    assert multiset(s) == multiset{0.0, 1.0};
    assert 0.0 in s && 1.0 in s;
    assert s[0] <= s[1];
  }

  lemma UnitPosition(level: real)
    requires 0.0 <= level <= 1.0
    ensures Position(level, 2) == level && AtPosition([0.0, 1.0], level) == level
  {
    assert Interpolate(0.0, 1.0, level) == level;
  }

  /** A percentile of the samples 0 and 1 is its level. */
  lemma UnitPercentile(level: real)
    requires 0.0 <= level <= 1.0
    ensures Percentile([0.0, 1.0], level) == level
  {
    hide Sort, AtPosition, Position;
    SortedUnit();
    UnitPosition(level);
    PositionInRange(level, 2);
  }

  /** What the limits promise of any samples: fewer than tail * (n - 1) + 1 of them lie below the lower
      limit, and fewer than that above the upper one. */
  ghost predicate TailsAreSmall(samples: seq<real>, low: real, high: real, tail: real) {
    && |Below(samples, low)| as real < tail * (|samples| as real - 1.0) + 1.0
    && |Above(samples, high)| as real < tail * (|samples| as real - 1.0) + 1.0
  }

  /** ... and what they are for evenly spread samples in any order. */
  ghost predicate ExactWhenEven(samples: seq<real>, low: real, high: real, tail: real) {
    multiset(samples) == multiset(Ramp(|samples|)) ==>
      low == tail * (|samples| as real - 1.0) && high == (1.0 - tail) * (|samples| as real - 1.0)
  }

  lemma UpperTail(tail: real, level: real, n: real)
    requires level == 1.0 - tail
    ensures n - level * (n - 1.0) == tail * (n - 1.0) + 1.0
  {
  }

  lemma LimitsAt(samples: seq<real>, tail: real, level: real)
    requires samples != [] && 0.0 <= tail <= 1.0 && level == 1.0 - tail
    ensures TailsAreSmall(samples, Percentile(samples, tail), Percentile(samples, level), tail)
    ensures ExactWhenEven(samples, Percentile(samples, tail), Percentile(samples, level), tail)
  {
    hide Percentile, Below, Above, Ramp;
    TailCounts(samples, tail);
    TailCounts(samples, level);
    UpperTail(tail, level, |samples| as real);
    if multiset(samples) == multiset(Ramp(|samples|)) {
      RampPercentile(samples, tail);
      RampPercentile(samples, level);
    }
  }

  /** The percentile of the draw splits the sorted resamples at its fractional position. */
  lemma PercentileSplits(samples: seq<real>, level: real, i: nat)
    requires i < |samples| && 0.0 <= level <= 1.0
    ensures multiset(Sort(samples)) == multiset(samples)
    ensures Sort(samples)[i] < Percentile(samples, level) ==> i as real < Position(level, |samples|)
    ensures Sort(samples)[i] > Percentile(samples, level) ==> Position(level, |samples|) < i as real
  {
    hide AtPosition, Position;
    SortPermutes(samples);
    PositionInRange(level, |samples|);
    PositionSplits(Sort(samples), Position(level, |samples|), i);
  }
}
