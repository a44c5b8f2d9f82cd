/** Which way the batch size moves, over runs of measured durations. */
module AdaptiveSizes {
  import opened Results
  import opened Sorting
  import opened AdaptiveBatch

  // ---------------------------------------------------------------- the median

  /** The middle value, or the mean of the two middle ones. */
  ghost predicate IsMedian(values: seq<real>, median: real) {
    exists sorted: seq<real> ::
      && multiset(sorted) == multiset(values) && |sorted| == |values| > 0
      && (forall i, j :: 0 <= i < j < |sorted| ==> sorted[i] <= sorted[j])
      && median == if |sorted| % 2 == 1 then sorted[|sorted| / 2]
                   else (sorted[|sorted| / 2 - 1] + sorted[|sorted| / 2]) / 2.0
  }

  lemma HalfWay(n: nat)
    requires n > 0
    ensures Position(n, 0.5) == (n - 1) as real / 2.0
    ensures n % 2 == 1 ==> Position(n, 0.5) == (n / 2) as real && Position(n, 0.5).Floor == n / 2
    ensures n % 2 == 0 ==>
              && Position(n, 0.5) == (n / 2 - 1) as real + 0.5 && Position(n, 0.5).Floor == n / 2 - 1
              && Position(n, 0.5) != (n / 2 - 1) as real
  {
  }

  lemma MedianExactly(values: seq<real>)
    requires values != []
    ensures IsMedian(values, Percentile(values, 0.5))
  {
    hide Sort, Interpolated, Position;
    var sorted := Sort(values, BY_VALUE);
    SortedValues(values);
    Middle(sorted);
    assert |sorted| == |values| && multiset(sorted) == multiset(values);
    forall i, j | 0 <= i < j < |sorted| ensures sorted[i] <= sorted[j] {
      assert !BY_VALUE(sorted[j], sorted[i]);
    }
  }

  lemma Middle(sorted: seq<real>)
    requires sorted != []
    ensures 0.0 <= Position(|sorted|, 0.5) <= (|sorted| - 1) as real
    ensures Interpolated(sorted, Position(|sorted|, 0.5)) ==
            if |sorted| % 2 == 1 then sorted[|sorted| / 2]
            else (sorted[|sorted| / 2 - 1] + sorted[|sorted| / 2]) / 2.0
  {
    hide Position;
    PositionFits(|sorted|, 0.5);
    HalfWay(|sorted|);
  }

  function MedianOf(values: seq<real>): real { Percentile(values, 0.5) }

  // ---------------------------------------------------------------- the samples

  /** Durations that are not outliers. */
  function Ordinary(durations: seq<real>): seq<real> {
    if durations == [] then []
    else Ordinary(durations[..|durations| - 1])
         + if durations[|durations| - 1] <= 100.0 then [durations[|durations| - 1]] else []
  }

  function LastEight(values: seq<real>): seq<real> {
    if |values| <= 8 then values else values[|values| - 8..]
  }

  /** The samples are always the last eight durations that were no outliers. */
  lemma {:induction false} SamplesAre(m: Metrics, durations: seq<real>, minimum: nat, maximum: nat)
    requires |m.samples| <= 8
    ensures RecordedAll(m, durations, minimum, maximum).samples == LastEight(m.samples + Ordinary(durations))
  {
    hide Percentile;
    if durations == [] {
      assert m.samples + Ordinary(durations) == m.samples;
    } else {
      var front, last := durations[..|durations| - 1], durations[|durations| - 1];
      SamplesAre(m, front, minimum, maximum);
      if last <= 100.0 {
        assert m.samples + Ordinary(durations) == (m.samples + Ordinary(front)) + [last];
        OneSampleMore(m.samples + Ordinary(front), last);
      } else {
        assert Ordinary(front) + [] == Ordinary(front);
      }
    }
  }

  lemma OneSampleMore(values: seq<real>, last: real)
    ensures Sampled(LastEight(values), last) == LastEight(values + [last])
  {
  }

  // ---------------------------------------------------------------- streaks

  /** The median after the first k durations. */
  function MedianAfter(m: Metrics, durations: seq<real>, k: nat, minimum: nat, maximum: nat): real
    requires k <= |durations|
  {
    MedianOf(RecordedAll(m, durations[..k], minimum, maximum).samples)
  }

  /** No outliers, and every median in the range. */
  ghost predicate Streak(m: Metrics, durations: seq<real>, minimum: nat, maximum: nat, fits: real -> bool) {
    forall k :: 0 < k <= |durations| ==> StreakAt(m, durations, k, minimum, maximum, fits)
  }

  ghost predicate StreakAt(m: Metrics, durations: seq<real>, k: nat, minimum: nat, maximum: nat, fits: real -> bool)
    requires 0 < k <= |durations|
  {
    durations[k - 1] <= 100.0 && fits(MedianAfter(m, durations, k, minimum, maximum))
  }

  lemma StreakFront(m: Metrics, durations: seq<real>, minimum: nat, maximum: nat, fits: real -> bool)
    requires durations != [] && Streak(m, durations, minimum, maximum, fits)
    ensures Streak(m, durations[..|durations| - 1], minimum, maximum, fits)
    ensures durations[|durations| - 1] <= 100.0
    ensures fits(MedianOf(RecordedAll(m, durations, minimum, maximum).samples))
  {
    hide RecordedAll, Percentile;
    var front := durations[..|durations| - 1];
    assert durations[..|durations|] == durations;
    assert StreakAt(m, durations, |durations|, minimum, maximum, fits);
    forall k | 0 < k <= |front| ensures StreakAt(m, front, k, minimum, maximum, fits) {
      assert front[..k] == durations[..k];
      assert StreakAt(m, durations, k, minimum, maximum, fits);
    }
  }

  /** One duration that is no outlier, when no outlier is to be made up for. */
  lemma OrdinaryStep(m: Metrics, duration: real, minimum: nat, maximum: nat)
    requires duration <= 100.0 && m.recovery == None
    ensures var next := Recorded(m, duration, minimum, maximum);
            var median := MedianOf(next.samples);
            && next.recovery == None && next.outliers == 0
            && (median <= 6.0 && m.fast < 2 ==> next.size == m.size && next.fast == m.fast + 1 && next.slow == 0)
            && (median <= 6.0 && m.fast == 2 ==> next.size == Min(maximum, m.size + 1) && next.fast == next.slow == 0)
            && (6.0 < median <= 20.0 ==> next.size == m.size && next.fast == next.slow == 0)
            && (20.0 < median && m.slow < 1 ==> next.size == m.size && next.slow == m.slow + 1 && next.fast == 0)
            && (20.0 < median && m.slow == 1 ==>
                  next.size == Max(minimum, m.size / 2) && next.slow == next.fast == 0)
  {
    hide Percentile;
  }

  /** Three fast medians in a row raise the size by one, and only they do: after k of them it has gone up by a third of
      k, as far as the maximum allows. */
  lemma {:induction false} FastStreakRaises(m: Metrics, durations: seq<real>, minimum: nat, maximum: nat)
    requires m.fast == 0 && m.recovery == None && m.size <= maximum
    requires Streak(m, durations, minimum, maximum, median => median <= 6.0)
    ensures var t := RecordedAll(m, durations, minimum, maximum);
            && t.size == Min(maximum, m.size + |durations| / 3) && t.fast == |durations| % 3 && t.recovery == None
  {
    hide Streak, Recorded;
    if durations != [] {
      var front, last := durations[..|durations| - 1], durations[|durations| - 1];
      StreakFront(m, durations, minimum, maximum, median => median <= 6.0);
      FastStreakRaises(m, front, minimum, maximum);
      OrdinaryStep(RecordedAll(m, front, minimum, maximum), last, minimum, maximum);
    }
  }

  function Halved(size: nat, times: nat, minimum: nat): nat {
    if times == 0 then size else Max(minimum, Halved(size, times - 1, minimum) / 2)
  }

  /** Two slow medians in a row halve the size, and only they do, never below the minimum. */
  lemma {:induction false} SlowStreakHalves(m: Metrics, durations: seq<real>, minimum: nat, maximum: nat)
    requires m.slow == 0 && m.recovery == None
    requires Streak(m, durations, minimum, maximum, median => median > 20.0)
    ensures var t := RecordedAll(m, durations, minimum, maximum);
            && t.size == Halved(m.size, |durations| / 2, minimum) && t.slow == |durations| % 2 && t.recovery == None
  {
    hide Streak, Recorded;
    if durations != [] {
      var front, last := durations[..|durations| - 1], durations[|durations| - 1];
      StreakFront(m, durations, minimum, maximum, median => median > 20.0);
      SlowStreakHalves(m, front, minimum, maximum);
      OrdinaryStep(RecordedAll(m, front, minimum, maximum), last, minimum, maximum);
    }
  }

  /** Medians in between leave the size alone and end both streaks. */
  lemma {:induction false} MiddleStreakStays(m: Metrics, durations: seq<real>, minimum: nat, maximum: nat)
    requires m.recovery == None && durations != []
    requires Streak(m, durations, minimum, maximum, median => 6.0 < median <= 20.0)
    ensures var t := RecordedAll(m, durations, minimum, maximum);
            t.size == m.size && t.fast == t.slow == 0 && t.recovery == None
  {
    hide Streak, Recorded;
    var front, last := durations[..|durations| - 1], durations[|durations| - 1];
    StreakFront(m, durations, minimum, maximum, median => 6.0 < median <= 20.0);
    if front != [] {
      MiddleStreakStays(m, front, minimum, maximum);
    }
    OrdinaryStep(RecordedAll(m, front, minimum, maximum), last, minimum, maximum);
  }

  /** An outlier takes one off the size and ends both streaks; the size to return to is the one before the first. */
  lemma OutlierStep(m: Metrics, duration: real, minimum: nat, maximum: nat)
    requires duration > 100.0
    ensures var next := Recorded(m, duration, minimum, maximum);
            && next.samples == m.samples && next.fast == next.slow == 0
            && next.outliers == m.outliers + 1 && next.outlierCount == m.outlierCount + 1
            && (m.outliers < 2 ==>
                  && next.size == (if m.size > minimum then m.size - 1 else minimum)
                  && next.recovery == if m.recovery == None then Some(m.size) else m.recovery)
            && (m.outliers >= 2 ==> next.size == minimum && next.recovery == None)
  {
  }
}
