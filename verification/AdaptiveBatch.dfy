/** The worker's batch sizes: adapted to how long the host took, and always within the controller's bounds. */
module AdaptiveBatch {
  import opened Results
  import opened Sorting

  const OUTLIER_MS := 100.0
  const FAST_MS := 6.0
  const SLOW_MS := 20.0
  const SAMPLE_LIMIT := 8

  datatype Metrics = Metrics(
    samples: seq<real>, size: nat, fast: nat, slow: nat, outliers: nat, outlierCount: nat, recovery: Option<nat>)

  function Max(a: nat, b: int): nat { if a < b then b else a }
  function Min(a: nat, b: nat): nat { if a < b then a else b }

  // Percentiles

  const BY_VALUE := (a: real, b: real) => a < b

  lemma {:induction false} SortedValues(values: seq<real>)
    ensures |Sort(values, BY_VALUE)| == |values|
    ensures multiset(Sort(values, BY_VALUE)) == multiset(values)
    ensures Sorted(Sort(values, BY_VALUE), BY_VALUE)
  {
    assert StrictWeakOrder(BY_VALUE);
    SortSorts(values, BY_VALUE);
    assert |multiset(Sort(values, BY_VALUE))| == |Sort(values, BY_VALUE)| && |multiset(values)| == |values|;
  }

  /** The value at a position between two places of a sorted list. */
  function Interpolated(sorted: seq<real>, position: real): real
    requires 0.0 <= position <= (|sorted| - 1) as real
  {
    var lower := position.Floor;
    if lower as real == position then sorted[lower]
    else sorted[lower] + Share(sorted[lower + 1] - sorted[lower], position - lower as real)
  }

  function Share(gap: real, part: real): real { gap * part }

  function Position(n: nat, ratio: real): real { Share((n - 1) as real, ratio) }

  lemma PositionFits(n: nat, ratio: real)
    requires n > 0 && 0.0 <= ratio <= 1.0
    ensures 0.0 <= Position(n, ratio) <= (n - 1) as real
  {
    MultiplyAtMost((n - 1) as real, ratio);
  }

  function Percentile(values: seq<real>, ratio: real): real
    requires 0.0 <= ratio <= 1.0
  {
    if values == [] then 0.0
    else
      SortedValues(values);
      PositionFits(|values|, ratio);
      Interpolated(Sort(values, BY_VALUE), Position(|values|, ratio))
  }

  lemma MultiplyAtMost(a: real, b: real)
    requires 0.0 <= a && 0.0 <= b <= 1.0
    ensures 0.0 <= Share(a, b) <= a
  {
    assert a * (1.0 - b) >= 0.0;
  }

  lemma InterpolatedBetween(sorted: seq<real>, position: real)
    requires 0.0 <= position <= (|sorted| - 1) as real && Sorted(sorted, BY_VALUE)
    ensures exists low, high :: low in sorted && high in sorted && low <= Interpolated(sorted, position) <= high
  {
    var lower := position.Floor;
    assert sorted[lower] in sorted;
    if lower as real != position {
      assert !BY_VALUE(sorted[lower + 1], sorted[lower]);
      MultiplyAtMost(sorted[lower + 1] - sorted[lower], position - lower as real);
      assert sorted[lower + 1] in sorted;
      assert sorted[lower] <= Interpolated(sorted, position) <= sorted[lower + 1];
    }
  }

  /** A percentile lies between two values that were measured. */
  lemma PercentileBetween(values: seq<real>, ratio: real)
    requires values != [] && 0.0 <= ratio <= 1.0
    ensures exists low, high :: low in values && high in values && low <= Percentile(values, ratio) <= high
  {
    SortedValues(values);
    PositionFits(|values|, ratio);
    var sorted := Sort(values, BY_VALUE);
    InterpolatedBetween(sorted, Position(|values|, ratio));
    var low, high :| low in sorted && high in sorted && low <= Interpolated(sorted, Position(|values|, ratio)) <= high;
    assert low in multiset(sorted) && high in multiset(sorted);
    assert low in values && high in values;
  }

  // One measured duration

  /** The latest eight durations. */
  function Sampled(samples: seq<real>, duration: real): seq<real> {
    var longer := samples + [duration];
    if |longer| > SAMPLE_LIMIT then longer[1..] else longer
  }

  function Slowed(m: Metrics, minimum: nat): Metrics {
    var next := m.(outlierCount := m.outlierCount + 1, outliers := m.outliers + 1, fast := 0, slow := 0);
    if next.outliers >= 3 then next.(size := minimum, recovery := None)
    else next.(recovery := if m.recovery.None? then Some(m.size) else m.recovery, size := Max(minimum, m.size - 1))
  }

  function Judged(m: Metrics, median: real, minimum: nat, maximum: nat): Metrics {
    if median <= FAST_MS then
      if m.fast + 1 >= 3 then m.(fast := 0, slow := 0, size := Min(maximum, m.size + 1))
          else m.(fast := m.fast + 1, slow := 0)
    else if median > SLOW_MS then
      if m.slow + 1 >= 2 then m.(slow := 0, fast := 0, size := Max(minimum, m.size / 2))
          else m.(slow := m.slow + 1, fast := 0)
    else m.(fast := 0, slow := 0)
  }

  function Recovered(m: Metrics): Metrics {
    m.(size := if m.recovery.Some? then m.recovery.value else m.size, recovery := None, outliers := 0)
  }

  function Recorded(m: Metrics, duration: real, minimum: nat, maximum: nat): Metrics {
    if duration > OUTLIER_MS then Slowed(m, minimum)
    else
      var next := Recovered(m).(samples := Sampled(m.samples, duration));
      Judged(next, Percentile(next.samples, 0.5), minimum, maximum)
  }

  predicate Within(m: Metrics, minimum: nat, maximum: nat) {
    && minimum <= m.size <= maximum
    && (m.recovery.Some? ==> minimum <= m.recovery.value <= maximum)
    && |m.samples| <= SAMPLE_LIMIT
    && m.fast < 3 && m.slow < 2
  }

  function RecordedAll(m: Metrics, durations: seq<real>, minimum: nat, maximum: nat): Metrics {
    if durations == [] then m
    else Recorded(RecordedAll(m, durations[..|durations| - 1], minimum, maximum), durations[|durations| - 1], minimum,
        maximum)
  }

  lemma RecordedWithin(m: Metrics, duration: real, minimum: nat, maximum: nat)
    requires Within(m, minimum, maximum)
    ensures Within(Recorded(m, duration, minimum, maximum), minimum, maximum)
  {
    hide Percentile;
  }

  /** Over every sequence of durations the batch size, and the size kept for after an outlier, stay within bounds. */
  lemma {:induction false} AlwaysWithin(m: Metrics, durations: seq<real>, minimum: nat, maximum: nat)
    requires Within(m, minimum, maximum)
    ensures Within(RecordedAll(m, durations, minimum, maximum), minimum, maximum)
  {
    hide Recorded, Within;
    if durations != [] {
      var front, last := durations[..|durations| - 1], durations[|durations| - 1];
      AlwaysWithin(m, front, minimum, maximum);
      RecordedWithin(RecordedAll(m, front, minimum, maximum), last, minimum, maximum);
    }
  }

  /** One or two outliers in a row are forgotten by the next ordinary duration, but for their count and a fresh start of
      the fast and slow streaks: same size, same samples as if they had not happened. */
  lemma {:induction false} IsolatedOutliersForgotten(m: Metrics, outliers: seq<real>, duration: real, minimum: nat,
                                                     maximum: nat)
    requires m.outliers == 0 && m.recovery.None? && 1 <= |outliers| <= 2 && duration <= OUTLIER_MS
    requires forall k :: 0 <= k < |outliers| ==> outliers[k] > OUTLIER_MS
    ensures RecordedAll(m, outliers + [duration], minimum, maximum)
         == Recorded(m.(fast := 0, slow := 0, outlierCount := m.outlierCount + |outliers|), duration, minimum, maximum)
  {
    assert (outliers + [duration])[..|outliers|] == outliers;
    assert outliers == if |outliers| == 1 then [outliers[0]] else [outliers[0], outliers[1]];
    if |outliers| == 1 {
      assert outliers[..0] == [];
      assert RecordedAll(m, outliers, minimum, maximum) == Slowed(m, minimum);
    } else {
      assert outliers[..1] == [outliers[0]] && outliers[..1][..0] == [];
      assert RecordedAll(m, outliers[..1], minimum, maximum) == Slowed(m, minimum);
      assert RecordedAll(m, outliers, minimum, maximum) == Slowed(Slowed(m, minimum), minimum);
    }
  }

  /** A third outlier in a row gives up the remembered size: the next ordinary duration starts from the minimum. */
  lemma {:induction false} ThreeOutliersReset(m: Metrics, durations: seq<real>, minimum: nat, maximum: nat)
    requires |durations| >= 3 && forall k :: 0 <= k < |durations| ==> durations[k] > OUTLIER_MS
    ensures RecordedAll(m, durations, minimum, maximum).outliers == m.outliers + |durations|
    ensures RecordedAll(m, durations, minimum, maximum).size == minimum
    ensures RecordedAll(m, durations, minimum, maximum).recovery.None?
    ensures RecordedAll(m, durations, minimum, maximum).samples == m.samples
  {
    OutliersCount(m, durations, minimum, maximum);
    OutliersCount(m, durations[..|durations| - 1], minimum, maximum);
  }

  lemma {:induction false} OutliersCount(m: Metrics, durations: seq<real>, minimum: nat, maximum: nat)
    requires forall k :: 0 <= k < |durations| ==> durations[k] > OUTLIER_MS
    ensures RecordedAll(m, durations, minimum, maximum).outliers == m.outliers + |durations|
    ensures RecordedAll(m, durations, minimum, maximum).samples == m.samples
  {
    if durations != [] {
      OutliersCount(m, durations[..|durations| - 1], minimum, maximum);
    }
  }

  class AdaptiveBatchController {
    const minimum: nat
    const maximum: nat
    var metrics: Metrics

    constructor (initial: nat, minimum: nat, maximum: nat)
      requires minimum <= initial <= maximum
      ensures this.minimum == minimum && this.maximum == maximum
      ensures metrics == Metrics([], initial, 0, 0, 0, 0, None) && Valid()
    {
      this.minimum, this.maximum := minimum, maximum;
      metrics := Metrics([], initial, 0, 0, 0, 0, None);
    }

    ghost predicate Valid()
      reads this
    {
      Within(metrics, minimum, maximum)
    }

    method Record(duration: real) returns (size: nat)
      requires Valid()
      modifies this
      ensures Valid()
      ensures metrics == Recorded(old(metrics), duration, minimum, maximum) && size == metrics.size
    {
      hide Percentile;
      if duration > OUTLIER_MS {
        metrics := metrics.(outlierCount := metrics.outlierCount + 1, outliers := metrics.outliers + 1, fast := 0,
            slow := 0);
        if metrics.outliers >= 3 {
          metrics := metrics.(size := minimum, recovery := None);
        } else {
          if metrics.recovery.None? {
            metrics := metrics.(recovery := Some(metrics.size));
          }
          metrics := metrics.(size := Max(minimum, metrics.size - 1));
        }
        return metrics.size;
      }
      if metrics.recovery.Some? {
        metrics := metrics.(size := metrics.recovery.value, recovery := None);
      }
      metrics := metrics.(outliers := 0, samples := metrics.samples + [duration]);
      if |metrics.samples| > SAMPLE_LIMIT {
        metrics := metrics.(samples := metrics.samples[1..]);
      }
      var median := Percentile(metrics.samples, 0.5);
      if median <= FAST_MS {
        metrics := metrics.(fast := metrics.fast + 1, slow := 0);
        if metrics.fast >= 3 {
          metrics := metrics.(size := Min(maximum, metrics.size + 1), fast := 0);
        }
      } else if median > SLOW_MS {
        metrics := metrics.(slow := metrics.slow + 1, fast := 0);
        if metrics.slow >= 2 {
          metrics := metrics.(size := Max(minimum, metrics.size / 2), slow := 0);
        }
      } else {
        metrics := metrics.(fast := 0, slow := 0);
      }
      return metrics.size;
    }
  }
}
