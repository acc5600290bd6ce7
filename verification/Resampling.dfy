/** The resamples of `bootstrap_ci`, plain and stratified (melp/stats/bootstrap.py). The random generator
    is a function of its call site: every property holds for every draw. */
module Resampling {
  import opened Wrappers
  import opened Sums
  import opened Categories

  /** Draw j of stratum k (0 without strata) in resample r, before reduction to the range. */
  type Draws = (nat, nat, nat) -> nat

  // ---------- resampling ----------

  /** `x[idx]`. */
  function Take(x: seq<real>, idx: seq<nat>): seq<real>
    requires forall j | 0 <= j < |idx| :: idx[j] < |x|
  {
    seq(|idx|, j requires 0 <= j < |idx| => x[idx[j]])
  }

  /** `np.where(s == u)[0]`. */
  function Mask(s: seq<int>, u: int): (m: seq<nat>)
    ensures forall j | 0 <= j < |m| :: m[j] < |s| && s[m[j]] == u
  {
    if s == [] then []
    else
      var n := |s| - 1;
      Mask(s[..n], u) + if s[n] == u then [n] else []
  }

  /** One stratum's picks: as many as it has members, each one of its members. */
  function StratumPicks(s: seq<int>, u: int, draw: nat -> nat): (picks: seq<nat>)
    ensures |picks| == |Mask(s, u)|
    ensures forall j | 0 <= j < |picks| :: picks[j] < |s| && s[picks[j]] == u
  {
    var m := Mask(s, u);
    seq(|m|, j requires 0 <= j < |m| => m[draw(j) % |m|])
  }

  /** The draws for stratum k. */
  function DrawsOf(draw: (nat, nat) -> nat, k: nat): nat -> nat { (j: nat) => draw(k, j) }

  /** The concatenated picks of the first k strata of `cats`. */
  function StratifiedRow(s: seq<int>, cats: seq<int>, k: nat, draw: (nat, nat) -> nat): (row: seq<nat>)
    requires k <= |cats|
    ensures forall j | 0 <= j < |row| :: row[j] < |s|
  {
    if k == 0 then []
    else StratifiedRow(s, cats, k - 1, draw) + StratumPicks(s, cats[k - 1], DrawsOf(draw, k - 1))
  }

  /** One plain row of `rng.integers(0, n, size=n)`. */
  function PlainRow(n: nat, draw: nat -> nat): (row: seq<nat>)
    ensures |row| == n && forall j | 0 <= j < n :: row[j] < n
  {
    seq(n, j requires 0 <= j < n => draw(j) % n)
  }

  function RowOf(n: nat, strata: Option<seq<int>>, draws: Draws, r: nat): (row: seq<nat>)
    requires strata.Some? ==> |strata.value| == n
    ensures forall j | 0 <= j < |row| :: row[j] < n
  {
    match strata
    case None => PlainRow(n, (j: nat) => draws(r, 0, j))
    case Some(s) =>
      var cats := Unique(s);
      StratifiedRow(s, cats, |cats|, (k: nat, j: nat) => draws(r, k, j))
  }

  // ---------- stratified resampling preserves the strata ----------

  function Labels(s: seq<int>, row: seq<nat>): seq<int>
    requires forall j | 0 <= j < |row| :: row[j] < |s|
  {
    seq(|row|, j requires 0 <= j < |row| => s[row[j]])
  }

  lemma CountAppend(x: seq<int>, y: seq<int>, v: int)
    ensures CountOf(x + y, v) == CountOf(x, v) + CountOf(y, v)
    decreases |y|
  {
    if y == [] {
      assert x + y == x;
    } else {
      var n := |y| - 1;
      CountAppend(x, y[..n], v);
      CountSnoc(x + y[..n], y[n], v);
      CountSnoc(y[..n], y[n], v);
      assert (x + y[..n]) + [y[n]] == x + y && y[..n] + [y[n]] == y;
    }
  }

  lemma CountSnoc(x: seq<int>, c: int, v: int)
    ensures CountOf(x + [c], v) == CountOf(x, v) + Indicator(c == v)
  {
    SumEq(|x|, Is(x + [c], v), Is(x, v));
  }

  lemma {:induction false} MaskSize(s: seq<int>, u: int)
    ensures |Mask(s, u)| as real == CountOf(s, u)
  {
    if s != [] {
      var n := |s| - 1;
      MaskSize(s[..n], u);
      CountSnoc(s[..n], s[n], u);
      assert s[..n] + [s[n]] == s;
    }
  }

  lemma PicksCount(s: seq<int>, u: int, draw: nat -> nat, v: int)
    ensures CountOf(Labels(s, StratumPicks(s, u, draw)), v) == if u == v then CountOf(s, u) else 0.0
  {
    var labels := Labels(s, StratumPicks(s, u, draw));
    MaskSize(s, u);
    CountBounds(labels, v);
  }

  /** After k strata, each of them has its original count and no other stratum occurs. */
  lemma {:induction false} StratifiedCounts(s: seq<int>, cats: seq<int>, k: nat, draw: (nat, nat) -> nat, v: int)
    requires k <= |cats| && Increasing(cats)
    ensures CountOf(Labels(s, StratifiedRow(s, cats, k, draw)), v) == if v in cats[..k] then CountOf(s, v) else 0.0
  {
    hide CountOf, Mask, Increasing;
    if k > 0 {
      StratifiedCounts(s, cats, k - 1, draw, v);
      StratumAdds(s, cats, k, draw, v);
      LaterCategoryIsNew(cats, k, v);
    } else {
      CountBounds(Labels(s, []), v);
    }
  }

  lemma StratumAdds(s: seq<int>, cats: seq<int>, k: nat, draw: (nat, nat) -> nat, v: int)
    requires 0 < k <= |cats|
    ensures CountOf(Labels(s, StratifiedRow(s, cats, k, draw)), v)
            == CountOf(Labels(s, StratifiedRow(s, cats, k - 1, draw)), v) + if cats[k - 1] == v then CountOf(s, v) else 0.0
  {
    hide CountOf, Mask;
    var front := StratifiedRow(s, cats, k - 1, draw);
    var picks := StratumPicks(s, cats[k - 1], DrawsOf(draw, k - 1));
    assert Labels(s, front + picks) == Labels(s, front) + Labels(s, picks);
    CountAppend(Labels(s, front), Labels(s, picks), v);
    PicksCount(s, cats[k - 1], DrawsOf(draw, k - 1), v);
  }

  lemma LaterCategoryIsNew(cats: seq<int>, k: nat, v: int)
    requires Increasing(cats) && 0 < k <= |cats|
    ensures v in cats[..k] <==> v in cats[..k - 1] || v == cats[k - 1]
    ensures !(v in cats[..k - 1] && v == cats[k - 1])
  {
  }

  lemma {:induction false} StratifiedSize(s: seq<int>, cats: seq<int>, k: nat, draw: (nat, nat) -> nat, counts: nat -> real)
    requires k <= |cats| && forall l: nat | l < |cats| :: counts(l) == CountOf(s, cats[l])
    ensures |StratifiedRow(s, cats, k, draw)| as real == Sum(k, counts)
  {
    hide CountOf, Mask;
    if k > 0 {
      StratifiedSize(s, cats, k - 1, draw, counts);
      MaskSize(s, cats[k - 1]);
    }
  }

  /** Every stratified resample has the size of the data and the original count of every stratum. */
  lemma StratifiedKeepsStrata(s: seq<int>, draw: (nat, nat) -> nat)
    ensures var row := StratifiedRow(s, Unique(s), |Unique(s)|, draw);
            |row| == |s| && forall v :: CountOf(Labels(s, row), v) == CountOf(s, v)
  {
    var cats := Unique(s);
    var row := StratifiedRow(s, cats, |cats|, draw);
    var counts := (k: nat) => if k < |cats| then CountOf(s, cats[k]) else 0.0;
    StratifiedSize(s, cats, |cats|, draw, counts);
    CountsAddUp(s, cats, counts);
    assert cats[..|cats|] == cats;
    forall v
      ensures CountOf(Labels(s, row), v) == CountOf(s, v)
    {
      StratifiedCounts(s, cats, |cats|, draw, v);
      CountBounds(s, v);
    }
  }

  /** The labels of the row never decrease. */
  ghost predicate InOrder(s: seq<int>, row: seq<nat>)
    requires forall j | 0 <= j < |row| :: row[j] < |s|
  {
    forall i, j | 0 <= i < j < |row| :: s[row[i]] <= s[row[j]]
  }

  ghost predicate AllBelow(s: seq<int>, row: seq<nat>, cats: seq<int>, k: nat)
    requires forall j | 0 <= j < |row| :: row[j] < |s|
  {
    forall j, l | 0 <= j < |row| && k <= l < |cats| :: s[row[j]] < cats[l]
  }

  lemma OneMoreStratum(s: seq<int>, cats: seq<int>, k: nat, row: seq<nat>, picks: seq<nat>)
    requires Increasing(cats) && 0 < k <= |cats|
    requires forall j | 0 <= j < |row| :: row[j] < |s|
    requires forall j | 0 <= j < |picks| :: picks[j] < |s| && s[picks[j]] == cats[k - 1]
    requires InOrder(s, row) && AllBelow(s, row, cats, k - 1)
    ensures InOrder(s, row + picks) && AllBelow(s, row + picks, cats, k)
  {
  }

  lemma {:induction false} StrataInOrder(s: seq<int>, cats: seq<int>, k: nat, draw: (nat, nat) -> nat)
    requires Increasing(cats) && k <= |cats|
    ensures InOrder(s, StratifiedRow(s, cats, k, draw)) && AllBelow(s, StratifiedRow(s, cats, k, draw), cats, k)
  {
    if k > 0 {
      StrataInOrder(s, cats, k - 1, draw);
      RowStep(s, cats, k, draw);
      hide StratifiedRow, InOrder, AllBelow, StratumPicks;
      OneMoreStratum(s, cats, k, StratifiedRow(s, cats, k - 1, draw), StratumPicks(s, cats[k - 1], DrawsOf(draw, k - 1)));
    }
  }

  /** Every resample of stratified data has its size and the original count of every stratum, stratum
      by stratum in increasing order. */
  lemma ResampleKeepsStrata(s: seq<int>, draws: Draws, r: nat)
    ensures var row := RowOf(|s|, Some(s), draws, r);
            && |row| == |s| && (forall v :: CountOf(Labels(s, row), v) == CountOf(s, v))
            && forall i, j | 0 <= i < j < |row| :: s[row[i]] <= s[row[j]]
  {
    StratifiedKeepsStrata(s, (k: nat, j: nat) => draws(r, k, j));
    StrataInOrder(s, Unique(s), |Unique(s)|, (k: nat, j: nat) => draws(r, k, j));
    hide StratifiedRow, Unique, CountOf;
  }

  lemma RowSize(n: nat, strata: Option<seq<int>>, draws: Draws, r: nat)
    requires strata.Some? ==> |strata.value| == n
    ensures |RowOf(n, strata, draws, r)| == n
  {
    if strata.Some? {
      StratifiedKeepsStrata(strata.value, (k: nat, j: nat) => draws(r, k, j));
    }
  }

  lemma RowStep(s: seq<int>, cats: seq<int>, k: nat, draw: (nat, nat) -> nat)
    requires k <= |cats|
    ensures k == 0 ==> StratifiedRow(s, cats, k, draw) == []
    ensures k > 0 ==>
              StratifiedRow(s, cats, k, draw)
              == StratifiedRow(s, cats, k - 1, draw) + StratumPicks(s, cats[k - 1], DrawsOf(draw, k - 1))
  {
    hide StratumPicks;
  }

  /** The nested loops of the stratified branch, for one resample. */
  method DrawStratified(s: seq<int>, draw: (nat, nat) -> nat) returns (row: seq<nat>)
    ensures row == StratifiedRow(s, Unique(s), |Unique(s)|, draw)
  {
    hide *;
    var cats := Unique(s);
    row := [];
    RowStep(s, cats, 0, draw);
    for k := 0 to |cats|
      invariant row == StratifiedRow(s, cats, k, draw)
    {
      var mask := Mask(s, cats[k]);
      var picks := seq(|mask|, j requires 0 <= j < |mask| => mask[draw(k, j) % |mask|]);
      NextPicks(s, cats[k], draw, k, picks);
      RowStep(s, cats, k + 1, draw);
      row := row + picks;
    }
  }

  lemma NextPicks(s: seq<int>, u: int, draw: (nat, nat) -> nat, k: nat, picks: seq<nat>)
    requires |picks| == |Mask(s, u)| && forall j | 0 <= j < |picks| :: picks[j] == Mask(s, u)[draw(k, j) % |picks|]
    ensures StratumPicks(s, u, DrawsOf(draw, k)) == picks
  {
    hide Mask;
  }

  /** The row of one resample, stratified or plain. */
  method DrawRow(n: nat, strata: Option<seq<int>>, draws: Draws, r: nat) returns (row: seq<nat>)
    requires strata.Some? ==> |strata.value| == n
    ensures row == RowOf(n, strata, draws, r)
  {
    match strata
    case None =>
      row := PlainRow(n, (j: nat) => draws(r, 0, j));
    case Some(s) =>
      row := DrawStratified(s, (k: nat, j: nat) => draws(r, k, j));
  }

  // ---------- every resample can be drawn ----------

  lemma PlainRowAt(n: nat, draw: nat -> nat, row: seq<nat>)
    requires |row| == n && forall j | 0 <= j < n :: row[j] < n && draw(j) == row[j]
    ensures PlainRow(n, draw) == row
  {
    forall j | 0 <= j < n
      ensures PlainRow(n, draw)[j] == row[j]
    {
      SmallRemainder(row[j], n);
    }
  }

  /** Plain resampling can draw any selections of n examples, repetitions included, one per resample. */
  lemma EveryPlainResampleIsDrawn(n: nat, rows: nat -> seq<nat>) returns (draws: Draws)
    requires forall r: nat :: |rows(r)| == n && forall j | 0 <= j < n :: rows(r)[j] < n
    ensures forall r: nat :: RowOf(n, None, draws, r) == rows(r)
  {
    hide PlainRow;
    draws := (r: nat, k: nat, j: nat) => if j < |rows(r)| then rows(r)[j] else 0;
    forall r: nat
      ensures RowOf(n, None, draws, r) == rows(r)
    {
      PlainRowAt(n, (j: nat) => draws(r, 0, j), rows(r));
    }
  }

  lemma {:induction false} MaskHolds(s: seq<int>, u: int, i: nat)
    ensures i in Mask(s, u) <==> i < |s| && s[i] == u
  {
    if s != [] { MaskHolds(s[..|s| - 1], u, i); }
  }

  /** Where v stands in m. */
  function IndexOf(m: seq<nat>, v: nat): (k: nat)
    ensures v in m ==> k < |m| && m[k] == v
  {
    if m == [] then 0 else if m[|m| - 1] == v then |m| - 1 else IndexOf(m[..|m| - 1], v)
  }

  /** The draw that picks the members `picks` of stratum k, and otherwise does as `draw`. */
  function Redrawn(draw: (nat, nat) -> nat, k: nat, mask: seq<nat>, picks: seq<nat>): (nat, nat) -> nat {
    (l: nat, j: nat) => if l == k && j < |picks| then IndexOf(mask, picks[j]) else draw(l, j)
  }

  lemma SmallRemainder(a: nat, b: nat)
    requires a < b
    ensures a % b == a
  {
  }

  lemma PickAt(s: seq<int>, u: int, d: nat -> nat, j: nat)
    requires j < |Mask(s, u)| && d(j) < |Mask(s, u)|
    ensures StratumPicks(s, u, d)[j] == Mask(s, u)[d(j)]
  {
    hide Mask;
    SmallRemainder(d(j), |Mask(s, u)|);
  }

  lemma RedrawnAt(draw: (nat, nat) -> nat, k: nat, mask: seq<nat>, picks: seq<nat>, l: nat, j: nat)
    ensures DrawsOf(Redrawn(draw, k, mask, picks), l)(j)
            == if l == k && j < |picks| then IndexOf(mask, picks[j]) else DrawsOf(draw, l)(j)
  {
  }

  lemma RedrawnPick(s: seq<int>, u: int, draw: (nat, nat) -> nat, k: nat, picks: seq<nat>, j: nat)
    requires |picks| == |Mask(s, u)| && j < |picks| && picks[j] < |s| && s[picks[j]] == u
    ensures StratumPicks(s, u, DrawsOf(Redrawn(draw, k, Mask(s, u), picks), k))[j] == picks[j]
  {
    hide *;
    var m := Mask(s, u);
    MaskHolds(s, u, picks[j]);
    RedrawnAt(draw, k, m, picks, k, j);
    PickAt(s, u, DrawsOf(Redrawn(draw, k, m, picks), k), j);
  }

  lemma RedrawnPicks(s: seq<int>, u: int, draw: (nat, nat) -> nat, k: nat, picks: seq<nat>)
    requires |picks| == |Mask(s, u)| && forall j | 0 <= j < |picks| :: picks[j] < |s| && s[picks[j]] == u
    ensures StratumPicks(s, u, DrawsOf(Redrawn(draw, k, Mask(s, u), picks), k)) == picks
  {
    hide *;
    forall j | 0 <= j < |picks|
      ensures StratumPicks(s, u, DrawsOf(Redrawn(draw, k, Mask(s, u), picks), k))[j] == picks[j]
    {
      RedrawnPick(s, u, draw, k, picks, j);
    }
  }

  lemma SamePicks(s: seq<int>, u: int, d: nat -> nat, e: nat -> nat)
    requires forall j: nat :: d(j) == e(j)
    ensures StratumPicks(s, u, d) == StratumPicks(s, u, e)
  {
    hide Mask;
  }

  lemma {:induction false} RedrawnKeepsEarlier(s: seq<int>, cats: seq<int>, k: nat, l: nat, draw: (nat, nat) -> nat, mask: seq<nat>, picks: seq<nat>)
    requires k <= l && k <= |cats|
    ensures StratifiedRow(s, cats, k, Redrawn(draw, l, mask, picks)) == StratifiedRow(s, cats, k, draw)
  {
    hide *;
    var redrawn := Redrawn(draw, l, mask, picks);
    RowStep(s, cats, k, draw);
    RowStep(s, cats, k, redrawn);
    if k > 0 {
      RedrawnKeepsEarlier(s, cats, k - 1, l, draw, mask, picks);
      var d, e := DrawsOf(redrawn, k - 1), DrawsOf(draw, k - 1);
      forall j: nat
        ensures d(j) == e(j)
      {
        RedrawnAt(draw, l, mask, picks, k - 1, j);
      }
      SamePicks(s, cats[k - 1], d, e);
    }
  }

  lemma LastStratum(s: seq<int>, cats: seq<int>, k: nat, draw: (nat, nat) -> nat, head: seq<nat>, tail: seq<nat>)
    returns (longer: (nat, nat) -> nat)
    requires 0 < k <= |cats| && StratifiedRow(s, cats, k - 1, draw) == head
    requires |tail| == |Mask(s, cats[k - 1])| && forall j | 0 <= j < |tail| :: tail[j] < |s| && s[tail[j]] == cats[k - 1]
    ensures StratifiedRow(s, cats, k, longer) == head + tail
  {
    hide *;
    var mask := Mask(s, cats[k - 1]);
    longer := Redrawn(draw, k - 1, mask, tail);
    RedrawnKeepsEarlier(s, cats, k - 1, k - 1, draw, mask, tail);
    RedrawnPicks(s, cats[k - 1], draw, k - 1, tail);
    RowStep(s, cats, k, longer);
  }

  lemma LabelsAt(s: seq<int>, row: seq<nat>)
    requires forall j | 0 <= j < |row| :: row[j] < |s|
    ensures |Labels(s, row)| == |row|
    ensures forall j | 0 <= j < |row| :: Labels(s, row)[j] == s[row[j]]
  {
  }

  /** A row with the labels of front + last, cut where front ends. */
  lemma CutByLabels(s: seq<int>, row: seq<nat>, front: seq<nat>, last: seq<nat>, u: int)
    requires forall j | 0 <= j < |row| :: row[j] < |s|
    requires forall j | 0 <= j < |front| :: front[j] < |s|
    requires forall j | 0 <= j < |last| :: last[j] < |s| && s[last[j]] == u
    requires Labels(s, row) == Labels(s, front + last)
    ensures |row| == |front| + |last|
    ensures Labels(s, row[..|front|]) == Labels(s, front)
    ensures forall j | |front| <= j < |row| :: s[row[j]] == u
  {
    hide *;
    var both := front + last;
    LabelsAt(s, row);
    LabelsAt(s, both);
    LabelsAt(s, front);
    LabelsAt(s, row[..|front|]);
    forall j | 0 <= j < |row|
      ensures s[row[j]] == s[both[j]]
    {
      assert Labels(s, row)[j] == Labels(s, both)[j];
    }
  }

  lemma {:induction false} RowIsDrawn(s: seq<int>, cats: seq<int>, k: nat, row: seq<nat>, other: (nat, nat) -> nat)
    returns (draw: (nat, nat) -> nat)
    requires k <= |cats| && forall j | 0 <= j < |row| :: row[j] < |s|
    requires Labels(s, row) == Labels(s, StratifiedRow(s, cats, k, other))
    ensures StratifiedRow(s, cats, k, draw) == row
  {
    hide *;
    draw := other;
    RowStep(s, cats, k, other);
    LabelsAt(s, row);
    LabelsAt(s, StratifiedRow(s, cats, k, other));
    if k > 0 {
      var front, last := StratifiedRow(s, cats, k - 1, other), StratumPicks(s, cats[k - 1], DrawsOf(other, k - 1));
      CutByLabels(s, row, front, last, cats[k - 1]);
      draw := RowIsDrawn(s, cats, k - 1, row[..|front|], other);
      draw := LastStratum(s, cats, k, draw, row[..|front|], row[|front|..]);
      assert row == row[..|front|] + row[|front|..];
    }
  }

  ghost predicate Drawn(s: seq<int>, row: seq<nat>, draw: (nat, nat) -> nat) {
    StratifiedRow(s, Unique(s), |Unique(s)|, draw) == row
  }

  /** A draw that yields the row. */
  ghost function DrawFor(s: seq<int>, row: seq<nat>): (nat, nat) -> nat
    requires exists draw :: Drawn(s, row, draw)
  {
    var draw :| Drawn(s, row, draw);
    draw
  }

  lemma SameRow(s: seq<int>, draws: Draws, r: nat, draw: (nat, nat) -> nat)
    requires forall k: nat, j: nat :: draws(r, k, j) == draw(k, j)
    ensures RowOf(|s|, Some(s), draws, r) == StratifiedRow(s, Unique(s), |Unique(s)|, draw)
  {
    hide StratifiedRow, Unique;
    SameDraws(s, Unique(s), |Unique(s)|, (k: nat, j: nat) => draws(r, k, j), draw);
  }

  lemma {:induction false} SameDraws(s: seq<int>, cats: seq<int>, k: nat, draw: (nat, nat) -> nat, other: (nat, nat) -> nat)
    requires k <= |cats| && forall l: nat, j: nat :: draw(l, j) == other(l, j)
    ensures StratifiedRow(s, cats, k, draw) == StratifiedRow(s, cats, k, other)
  {
    hide *;
    RowStep(s, cats, k, draw);
    RowStep(s, cats, k, other);
    if k > 0 {
      SameDraws(s, cats, k - 1, draw, other);
      SameNextPicks(s, cats[k - 1], draw, other, k - 1);
    }
  }

  lemma SameNextPicks(s: seq<int>, u: int, draw: (nat, nat) -> nat, other: (nat, nat) -> nat, k: nat)
    requires forall l: nat, j: nat :: draw(l, j) == other(l, j)
    ensures StratumPicks(s, u, DrawsOf(draw, k)) == StratumPicks(s, u, DrawsOf(other, k))
  {
    hide StratumPicks;
    SamePicks(s, u, DrawsOf(draw, k), DrawsOf(other, k));
  }

  /** Stratified resampling can draw any selections that keep the sequence of the strata, one per
      resample: within its stratum every pick is free. */
  lemma EveryStratifiedResampleIsDrawn(s: seq<int>, rows: nat -> seq<nat>, other: Draws) returns (draws: Draws)
    requires forall r: nat :: forall j | 0 <= j < |rows(r)| :: rows(r)[j] < |s|
    requires forall r: nat :: Labels(s, rows(r)) == Labels(s, RowOf(|s|, Some(s), other, r))
    ensures forall r: nat :: RowOf(|s|, Some(s), draws, r) == rows(r)
  {
    hide StratifiedRow, Unique, Labels;
    forall r: nat
      ensures exists draw :: Drawn(s, rows(r), draw)
    {
      var draw := RowIsDrawn(s, Unique(s), |Unique(s)|, rows(r), (k: nat, j: nat) => other(r, k, j));
      assert Drawn(s, rows(r), draw);
    }
    draws := (r: nat, k: nat, j: nat) => DrawFor(s, rows(r))(k, j);
    forall r: nat
      ensures RowOf(|s|, Some(s), draws, r) == rows(r)
    {
      SameRow(s, draws, r, DrawFor(s, rows(r)));
    }
  }
}
