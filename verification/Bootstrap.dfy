/** `bootstrap_ci` with the percentile method, for any statistic (melp/stats/bootstrap.py). */
module Bootstrap {
  import opened Wrappers
  import opened Sums
  import opened Arith
  import opened Resampling
  import opened Percentiles

  datatype CI = CI(point: real, low: real, high: real, how: string, resamples: nat)

  type Statistic = seq<real> -> real

  lemma MeanWithin(xs: seq<real>, lo: real, hi: real)
    requires xs != [] && Within(xs, lo, hi)
    ensures lo <= Mean(xs) <= hi
  {
    var n, low, high := |xs|, (i: nat) => lo, (i: nat) => hi;
    SumConst(n, lo, low);
    SumConst(n, hi, high);
    SumLe(n, low, At(xs));
    SumLe(n, At(xs), high);
    QuotientBetween(lo, Total(xs), hi, n as real);
  }

  /** The statistic of a nonempty sample lies between the bounds of the sample, as the mean, the
      median and every quantile do. */
  ghost predicate Internal(statistic: Statistic) {
    forall xs, lo, hi | xs != [] && Within(xs, lo, hi) :: lo <= statistic(xs) <= hi
  }

  function MeanStatistic(): Statistic { (xs: seq<real>) => Mean(xs) }

  /** The default statistic is internal. */
  lemma MeanIsInternal()
    ensures Internal(MeanStatistic())
  {
    forall xs: seq<real>, lo, hi | xs != [] && Within(xs, lo, hi)
      ensures lo <= MeanStatistic()(xs) <= hi
    {
      MeanWithin(xs, lo, hi);
    }
  }

  /** The statistic of resample r. */
  function Resampled(statistic: Statistic, x: seq<real>, strata: Option<seq<int>>, draws: Draws, r: nat): real
    requires strata.Some? ==> |strata.value| == |x|
  {
    statistic(Take(x, RowOf(|x|, strata, draws, r)))
  }

  lemma ResampledWithin(statistic: Statistic, x: seq<real>, strata: Option<seq<int>>, draws: Draws, r: nat, lo: real, hi: real)
    requires Internal(statistic) && (strata.Some? ==> |strata.value| == |x|)
    requires x != [] && Within(x, lo, hi)
    ensures lo <= Resampled(statistic, x, strata, draws, r) <= hi
  {
    RowSize(|x|, strata, draws, r);
    assert Within(Take(x, RowOf(|x|, strata, draws, r)), lo, hi);
  }

  function Samples(statistic: Statistic, x: seq<real>, n: nat, strata: Option<seq<int>>, draws: Draws): seq<real>
    requires strata.Some? ==> |strata.value| == |x|
  {
    seq(n, r requires 0 <= r < n => Resampled(statistic, x, strata, draws, r))
  }

  /** `rows` keeps, resample by resample, the sequence of the strata that `other` has. */
  ghost predicate SelectsLike(strata: Option<seq<int>>, n: nat, rows: nat -> seq<nat>, other: Draws) {
    && (strata.Some? ==> |strata.value| == n)
    && forall r: nat ::
      && |rows(r)| == n && (forall j | 0 <= j < n :: rows(r)[j] < n)
      && (strata.Some? ==> Labels(strata.value, rows(r)) == Labels(strata.value, RowOf(n, strata, other, r)))
  }

  /** The examples of x at the positions `row`. */
  ghost predicate Selected(x: seq<real>, row: seq<nat>, data: seq<real>) {
    |data| == |row| && forall j | 0 <= j < |row| :: row[j] < |x| && data[j] == x[row[j]]
  }

  /** Any selection of examples for every resample, repetitions included, is the outcome of some draw;
      with strata, any that keeps their sequence. */
  lemma EverySelectionIsDrawn(statistic: Statistic, x: seq<real>, n: nat, strata: Option<seq<int>>, rows: nat -> seq<nat>, other: Draws)
    returns (draws: Draws)
    requires SelectsLike(strata, |x|, rows, other)
    ensures forall r: nat, data | r < n && Selected(x, rows(r), data) ::
              Samples(statistic, x, n, strata, draws)[r] == statistic(data)
  {
    hide RowOf, Labels;
    if strata.None? {
      draws := EveryPlainResampleIsDrawn(|x|, rows);
    } else {
      draws := EveryStratifiedResampleIsDrawn(strata.value, rows, other);
    }
    forall r: nat, data | r < n && Selected(x, rows(r), data)
      ensures Samples(statistic, x, n, strata, draws)[r] == statistic(data)
    {
      assert Take(x, RowOf(|x|, strata, draws, r)) == data;
    }
  }

  function Interval(statistic: Statistic, x: seq<real>, samples: seq<real>, alpha: real): CI
    requires samples != [] && 0.0 <= alpha <= 2.0
  {
    CI(statistic(x), Percentile(samples, alpha / 2.0), Percentile(samples, 1.0 - alpha / 2.0), "percentile", |samples|)
  }

  lemma IntervalLimits(statistic: Statistic, x: seq<real>, samples: seq<real>, alpha: real)
    requires samples != [] && 0.0 <= alpha <= 2.0
    ensures var ci := Interval(statistic, x, samples, alpha);
            && TailsAreSmall(samples, ci.low, ci.high, alpha / 2.0)
            && ExactWhenEven(samples, ci.low, ci.high, alpha / 2.0)
  {
    hide Percentile, TailsAreSmall, ExactWhenEven;
    LimitsAt(samples, alpha / 2.0, 1.0 - alpha / 2.0);
  }

  /** `bootstrap_ci` for at least one resample and every method but BCa. */
  method BootstrapCi(statistic: Statistic, x: seq<real>, nResamples: nat, alpha: real, how: string, strata: Option<seq<int>>, draws: Draws)
    returns (r: Result<CI, string>)
    requires nResamples > 0 && how != "bca" && (strata.Some? ==> |strata.value| == |x|)
    ensures x == [] ==> r == Ok(CI(0.0, 0.0, 0.0, how, 0))
    ensures x != [] ==> (r.Err? <==> how != "percentile" || alpha < 0.0 || alpha > 2.0)
    ensures x != [] && r.Ok? ==> r.value == Interval(statistic, x, Samples(statistic, x, nResamples, strata, draws), alpha)
    ensures x != [] && r.Ok? ==>
      && r.value.point == statistic(x) && r.value.how == how && r.value.resamples == nResamples
      && TailsAreSmall(Samples(statistic, x, nResamples, strata, draws), r.value.low, r.value.high, alpha / 2.0)
      && ExactWhenEven(Samples(statistic, x, nResamples, strata, draws), r.value.low, r.value.high, alpha / 2.0)
  {
    hide Percentile, RowOf, TailsAreSmall, ExactWhenEven;
    if x == [] {
      return Ok(CI(0.0, 0.0, 0.0, how, 0));
    }
    var samples := new real[nResamples](_ => 0.0);
    for k := 0 to nResamples
      invariant forall l | 0 <= l < k :: samples[l] == Resampled(statistic, x, strata, draws, l)
    {
      var row := DrawRow(|x|, strata, draws, k);
      samples[k] := statistic(Take(x, row));
    }
    var point := statistic(x);
    if how != "percentile" {
      return Err("unknown CI method");
    }
    if alpha < 0.0 || alpha > 2.0 {
      return Err("Percentiles must be in the range [0, 100]");
    }
    var drawn := samples[..];
    assert drawn == Samples(statistic, x, nResamples, strata, draws);
    var low, high := Percentile(drawn, alpha / 2.0), Percentile(drawn, 1.0 - alpha / 2.0);
    IntervalLimits(statistic, x, drawn, alpha);
    r := Ok(CI(point, low, high, how, nResamples));
  }

  ghost predicate Ordered(statistic: Statistic, x: seq<real>, samples: seq<real>, alpha: real)
    requires samples != [] && 0.0 <= alpha <= 2.0
  {
    Interval(statistic, x, samples, alpha).low <= Interval(statistic, x, samples, alpha).high
  }

  /** For any statistic at all the interval is in order for all samples if and only if alpha is at
      most 1: beyond that its two levels are exchanged. */
  lemma IntervalOrdered(statistic: Statistic, x: seq<real>, alpha: real)
    requires 0.0 <= alpha <= 2.0
    ensures (forall samples: seq<real> | samples != [] :: Ordered(statistic, x, samples, alpha)) <==> alpha <= 1.0
  {
    hide Percentile;
    if alpha <= 1.0 {
      forall samples: seq<real> | samples != []
        ensures Ordered(statistic, x, samples, alpha)
      {
        PercentileMonotone(samples, alpha / 2.0, 1.0 - alpha / 2.0);
      }
    } else {
      UnitPercentile(alpha / 2.0);
      UnitPercentile(1.0 - alpha / 2.0);
      assert !Ordered(statistic, x, [0.0, 1.0], alpha);
    }
  }

  /** For every draw and every internal statistic: point estimate and interval stay within any bounds
      on the data. */
  lemma IntervalBounds(statistic: Statistic, x: seq<real>, n: nat, strata: Option<seq<int>>, draws: Draws, alpha: real, lo: real, hi: real)
    requires Internal(statistic) && x != [] && n > 0 && 0.0 <= alpha <= 2.0 && (strata.Some? ==> |strata.value| == |x|)
    requires Within(x, lo, hi)
    ensures var ci := Interval(statistic, x, Samples(statistic, x, n, strata, draws), alpha);
            && lo <= ci.point <= hi && lo <= ci.low <= hi && lo <= ci.high <= hi
            && (alpha <= 1.0 ==> ci.low <= ci.high)
  {
    hide Percentile, Resampled;
    var drawn := Samples(statistic, x, n, strata, draws);
    forall k | 0 <= k < n
      ensures lo <= drawn[k] <= hi
    {
      ResampledWithin(statistic, x, strata, draws, k, lo, hi);
    }
    PercentileWithin(drawn, alpha / 2.0, lo, hi);
    PercentileWithin(drawn, 1.0 - alpha / 2.0, lo, hi);
    if alpha <= 1.0 { PercentileMonotone(drawn, alpha / 2.0, 1.0 - alpha / 2.0); }
  }
}
