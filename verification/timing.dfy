/**
 * The post-run interframe analysis the primary camera's lane prints after
 * `EndAcquisition`: intervals between consecutive timestamps in milliseconds,
 * their mean rounded half-to-even, the deviations from that rounded mean, the
 * largest deviation and where it occurs, the threshold counts, the
 * "likely dropped frames" count and the good/weird verdict.
 *
 * Arithmetic is over `real`, where nanoseconds times 10^-6 is exact.
 */
module Timing {
  import opened Outcomes

  /** Nanoseconds as milliseconds. */
  function Millis(ns: int): real
  {
    ns as real / 1000000.0
  }

  function Abs(x: real): (a: real)
    ensures a >= 0.0 && (a == x || a == -x)
  {
    if x < 0.0 then -x else x
  }

  /** `diff(times) * 1e-6`: one interval per pair of consecutive timestamps. */
  function Intervals(t: seq<int>): (d: seq<real>)
    ensures |d| == if |t| == 0 then 0 else |t| - 1
    ensures forall i :: 0 <= i < |d| ==> d[i] == Millis(t[i + 1] - t[i])
  {
    if |t| < 2 then []
    else [Millis(t[1] - t[0])] + Intervals(t[1..])
  }

  function Sum(xs: seq<real>): real
  {
    if |xs| == 0 then 0.0 else Sum(xs[..|xs| - 1]) + xs[|xs| - 1]
  }

  /** `m` is the mean of `xs`: its `|xs|`-fold is their sum. */
  predicate IsMeanOf(m: real, xs: seq<real>)
  {
    |xs| > 0 && m * |xs| as real == Sum(xs)
  }

  function Mean(xs: seq<real>): (m: real)
    requires |xs| > 0
    ensures IsMeanOf(m, xs)
  {
    var n := |xs| as real;
    var m := Sum(xs) / n;
    assert m * n == Sum(xs);
    m
  }

  /**
   * `r` is numpy's rounding of `x` to an integer: the nearest integer, and the
   * even one of the two when `x` lies exactly half-way between them.
   */
  predicate IsRoundingOf(r: int, x: real)
  {
    && x - 0.5 <= r as real <= x + 0.5
    && ((r as real == x - 0.5 || r as real == x + 0.5) ==> r % 2 == 0)
  }

  function RoundHalfEven(x: real): (r: int)
    ensures IsRoundingOf(r, x)
  {
    var f := x.Floor;
    var frac := x - f as real;
    if frac < 0.5 then f
    else if frac > 0.5 then f + 1
    else if f % 2 == 0 then f
    else f + 1
  }

  /** The rounding is determined by its contract: no other integer meets it. */
  lemma RoundHalfEvenUnique(x: real, n: int)
    requires IsRoundingOf(n, x)
    ensures RoundHalfEven(x) == n
  {
  }

  lemma RoundInteger(n: int)
    ensures RoundHalfEven(n as real) == n
  {
    RoundHalfEvenUnique(n as real, n);
  }

  /**
   * `frame_diff_times - round_interframe_mean`: shifting every interval by
   * the rounded mean shifts their sum by `|d|` times it.
   */
  function Deviations(d: seq<real>, rounded: int): (devs: seq<real>)
    ensures |devs| == |d|
    ensures Sum(devs) == Sum(d) - |d| as real * rounded as real
  {
    var devs := seq(|d|, i requires 0 <= i < |d| => d[i] - rounded as real);
    ShiftSum(d, rounded, devs);
    devs
  }

  /** Subtracting `rounded` from each of `n` elements subtracts `n` times it from the sum. */
  lemma {:induction false} ShiftSum(d: seq<real>, rounded: int, devs: seq<real>)
    requires |devs| == |d|
    requires forall i :: 0 <= i < |d| ==> devs[i] == d[i] - rounded as real
    ensures Sum(devs) == Sum(d) - |d| as real * rounded as real
  {
    if |d| > 0 {
      var n := |d|;
      ShiftSum(d[..n - 1], rounded, devs[..n - 1]);
      assert (n - 1) as real * rounded as real + rounded as real == n as real * rounded as real;
    }
  }

  /**
   * The deviations from the rounded mean are centred: their mean is the
   * rounding error `mean - R`, which lies within half a millisecond of 0,
   * and sits exactly on the edge only when `R` is even.
   */
  lemma DeviationsCentred(d: seq<real>)
    requires |d| > 0
    ensures var r := RoundHalfEven(Mean(d));
            var devs := Deviations(d, r);
            && IsMeanOf(Mean(d) - r as real, devs)
            && -0.5 <= Mean(devs) <= 0.5
            && (Mean(devs) == 0.5 || Mean(devs) == -0.5 ==> r % 2 == 0)
  {
    var r := RoundHalfEven(Mean(d));
    CentredAt(d, Mean(d), r, Mean(Deviations(d, r)));
  }

  /** `DeviationsCentred` for any mean `m`, rounding `r` and deviation mean `md`. */
  lemma CentredAt(d: seq<real>, m: real, r: int, md: real)
    requires IsMeanOf(m, d) && IsRoundingOf(r, m) && IsMeanOf(md, Deviations(d, r))
    ensures IsMeanOf(m - r as real, Deviations(d, r))
    ensures md == m - r as real && -0.5 <= md <= 0.5
    ensures md == 0.5 || md == -0.5 ==> r % 2 == 0
  {
    ShiftedMean(Sum(d), m, r as real, |d| as real, Sum(Deviations(d, r)), md);
    RoundingError(m, r, md);
  }

  /** The error of a half-to-even rounding is at most a half, and a half only at an even result. */
  lemma RoundingError(x: real, r: int, e: real)
    requires IsRoundingOf(r, x) && e == x - r as real
    ensures -0.5 <= e <= 0.5 && (e == 0.5 || e == -0.5 ==> r % 2 == 0)
  {
  }

  /** Averaging commutes with a shift: the sums' relation carries over to the means. */
  lemma ShiftedMean(sum: real, m: real, r: real, n: real, shifted: real, md: real)
    requires n > 0.0 && m * n == sum && shifted == sum - n * r && md * n == shifted
    ensures (m - r) * n == shifted && md == m - r
  {
    assert (m - r) * n == m * n - n * r;
    assert (md - (m - r)) * n == 0.0;
  }

  /**
   * Where `max(devs, key=abs)` and `argmax(abs(devs))` land: the first index
   * whose absolute value no other element exceeds.
   */
  function ArgMaxAbs(devs: seq<real>): (k: nat)
    requires |devs| > 0
    ensures k < |devs|
    ensures forall j :: 0 <= j < |devs| ==> Abs(devs[j]) <= Abs(devs[k])
    ensures forall j :: 0 <= j < k ==> Abs(devs[j]) < Abs(devs[k])
  {
    if |devs| == 1 then 0
    else
      var init := devs[..|devs| - 1];
      var k := ArgMaxAbs(init);
      assert forall j :: 0 <= j < |init| ==> init[j] == devs[j];
      if Abs(devs[|devs| - 1]) > Abs(devs[k]) then |devs| - 1 else k
  }

  /** `sum(xs > c)`. */
  function CountAbove(xs: seq<real>, c: real): (n: nat)
    ensures n <= |xs|
  {
    if |xs| == 0 then 0
    else CountAbove(xs[..|xs| - 1], c) + (if xs[|xs| - 1] > c then 1 else 0)
  }

  /** `sum(xs >= c)`. */
  function CountAtLeast(xs: seq<real>, c: real): (n: nat)
    ensures n <= |xs|
  {
    if |xs| == 0 then 0
    else CountAtLeast(xs[..|xs| - 1], c) + (if xs[|xs| - 1] >= c then 1 else 0)
  }

  /** The counts are the sizes of the index sets they describe. */
  lemma {:induction false} CountAboveIsCardinality(xs: seq<real>, c: real)
    ensures CountAbove(xs, c) == |set i | 0 <= i < |xs| && xs[i] > c|
  {
    if |xs| > 0 {
      var init := xs[..|xs| - 1];
      CountAboveIsCardinality(init, c);
      var a := set i | 0 <= i < |init| && init[i] > c;
      var b := set i | 0 <= i < |xs| && xs[i] > c;
      assert forall i :: 0 <= i < |init| ==> init[i] == xs[i];
      if xs[|xs| - 1] > c {
        assert b == a + {|xs| - 1};
      } else {
        assert b == a;
      }
    }
  }

  lemma {:induction false} CountAtLeastIsCardinality(xs: seq<real>, c: real)
    ensures CountAtLeast(xs, c) == |set i | 0 <= i < |xs| && xs[i] >= c|
  {
    if |xs| > 0 {
      var init := xs[..|xs| - 1];
      CountAtLeastIsCardinality(init, c);
      var a := set i | 0 <= i < |init| && init[i] >= c;
      var b := set i | 0 <= i < |xs| && xs[i] >= c;
      assert forall i :: 0 <= i < |init| ==> init[i] == xs[i];
      if xs[|xs| - 1] >= c {
        assert b == a + {|xs| - 1};
      } else {
        assert b == a;
      }
    }
  }

  /** A higher threshold never counts more. */
  lemma {:induction false} CountAboveMonotone(xs: seq<real>, lo: real, hi: real)
    requires lo <= hi
    ensures CountAbove(xs, hi) <= CountAbove(xs, lo)
  {
    if |xs| > 0 {
      CountAboveMonotone(xs[..|xs| - 1], lo, hi);
    }
  }

  /** Subtracting `rounded` from every element shifts the threshold by `rounded`. */
  lemma {:induction false} CountAtLeastShift(d: seq<real>, rounded: int, c: real)
    ensures CountAtLeast(Deviations(d, rounded), c) == CountAtLeast(d, c + rounded as real)
  {
    if |d| > 0 {
      var init := d[..|d| - 1];
      CountAtLeastShift(init, rounded, c);
      assert Deviations(d, rounded)[..|d| - 1] == Deviations(init, rounded);
    }
  }

  datatype Verdict = GoodRecording | WeirdRecording

  datatype TimingReport = TimingReport(
    intervals: seq<real>,       // frame_diff_times, ms
    mean: real,                 // interframe_mean, ms
    roundedMean: int,           // round_interframe_mean
    deviations: seq<real>,      // interframe_devs, ms
    largestDeviation: real,     // largest_interframe_dev
    largestDeviationIndex: nat, // argmax(abs(interframe_devs))
    over01: nat,                // deviations > 0.1 ms
    over05: nat,                // deviations > 0.5 ms
    over1: nat,                 // deviations > 1 ms
    dropped: nat,               // number_of_dropped_frames
    verdict: Verdict)

  /** With fewer than two timestamps the mean is NaN and `int(round(nan))` raises. */
  datatype AnalysisError = NoIntervals

  /** The rounded mean is numpy's rounding of the mean of the intervals. */
  predicate RoundedMeanOk(rep: TimingReport)
  {
    IsMeanOf(rep.mean, rep.intervals) && IsRoundingOf(rep.roundedMean, rep.mean)
  }

  /** Each deviation is its interval minus the rounded mean. */
  predicate DeviationsOk(rep: TimingReport)
  {
    && |rep.deviations| == |rep.intervals|
    && (forall i :: 0 <= i < |rep.deviations| ==> rep.deviations[i] == rep.intervals[i] - rep.roundedMean as real)
  }

  /** The reported deviation is the first one of largest magnitude. */
  predicate LargestOk(rep: TimingReport)
  {
    && rep.largestDeviationIndex < |rep.deviations|
    && rep.largestDeviation == rep.deviations[rep.largestDeviationIndex]
    && (forall j :: 0 <= j < |rep.deviations| ==> Abs(rep.deviations[j]) <= Abs(rep.largestDeviation))
    && (forall j :: 0 <= j < rep.largestDeviationIndex ==> Abs(rep.deviations[j]) < Abs(rep.largestDeviation))
  }

  /**
   * The threshold counts are one-sided and nested; the dropped-frame count is
   * the number of intervals of at least twice the rounded mean less one; the
   * verdict is good exactly when nothing was dropped.
   */
  predicate CountsOk(rep: TimingReport)
  {
    var n := |rep.intervals|;
    && rep.over01 == CountAbove(rep.deviations, 0.1)
    && rep.over05 == CountAbove(rep.deviations, 0.5)
    && rep.over1 == CountAbove(rep.deviations, 1.0)
    && rep.over1 <= rep.over05 <= rep.over01 <= n
    && rep.dropped == CountAtLeast(rep.intervals, (2 * rep.roundedMean - 1) as real)
    && rep.dropped <= n
    && (rep.verdict == GoodRecording <==> rep.dropped == 0)
  }

  /** What the printed statistics mean, relative to the intervals. */
  predicate Consistent(rep: TimingReport)
  {
    RoundedMeanOk(rep) && DeviationsOk(rep) && LargestOk(rep) && CountsOk(rep)
  }

  /** The statistics of a nonempty sequence of intervals. */
  function Summarise(d: seq<real>): (rep: TimingReport)
    requires |d| > 0
    ensures rep.intervals == d
    ensures Consistent(rep)
  {
    var m := Mean(d);
    var rounded := RoundHalfEven(m);
    var devs := Deviations(d, rounded);
    var k := ArgMaxAbs(devs);
    var dropped := CountAtLeast(devs, (rounded - 1) as real);
    var rep := TimingReport(
      d, m, rounded, devs, devs[k], k,
      CountAbove(devs, 0.1), CountAbove(devs, 0.5), CountAbove(devs, 1.0),
      dropped, if dropped > 0 then WeirdRecording else GoodRecording);
    assert RoundedMeanOk(rep);
    assert DeviationsOk(rep);
    assert LargestOk(rep);
    CountsHold(d, rounded, rep);
    rep
  }

  /** The counts `Summarise` reports, taken over the deviations, satisfy `CountsOk`. */
  lemma CountsHold(d: seq<real>, rounded: int, rep: TimingReport)
    requires rep.intervals == d && rep.roundedMean == rounded && rep.deviations == Deviations(d, rounded)
    requires rep.over01 == CountAbove(rep.deviations, 0.1)
    requires rep.over05 == CountAbove(rep.deviations, 0.5)
    requires rep.over1 == CountAbove(rep.deviations, 1.0)
    requires rep.dropped == CountAtLeast(rep.deviations, (rounded - 1) as real)
    requires rep.verdict == if rep.dropped > 0 then WeirdRecording else GoodRecording
    ensures CountsOk(rep)
  {
    CountAtLeastShift(d, rounded, (rounded - 1) as real);
    assert (rounded - 1) as real + rounded as real == (2 * rounded - 1) as real;
    CountAboveMonotone(rep.deviations, 0.1, 0.5);
    CountAboveMonotone(rep.deviations, 0.5, 1.0);
  }

  /**
   * The analysis of one lane's timestamps (nanoseconds): one interval per
   * consecutive pair, in milliseconds, and the statistics over them.
   */
  function Analyse(t: seq<int>): (r: Result<TimingReport, AnalysisError>)
    ensures r.Failure? <==> |t| < 2
    ensures r.Success? ==>
              && |r.value.intervals| == |t| - 1
              && (forall i :: 0 <= i < |t| - 1 ==> r.value.intervals[i] == Millis(t[i + 1] - t[i]))
              && Consistent(r.value)
  {
    if |t| < 2 then Failure(NoIntervals)
    else Success(Summarise(Intervals(t)))
  }

  /** Timestamps that never go backwards give intervals that are never negative. */
  lemma IntervalsNonNegative(t: seq<int>)
    requires forall i, j :: 0 <= i <= j < |t| ==> t[i] <= t[j]
    ensures forall i :: 0 <= i < |Intervals(t)| ==> Intervals(t)[i] >= 0.0
  {
    var d := Intervals(t);
    forall i | 0 <= i < |d|
      ensures d[i] >= 0.0
    {
      assert t[i] <= t[i + 1];
    }
  }

  /** The intervals telescope: together they span the first to the last timestamp. */
  lemma {:induction false} IntervalsSum(t: seq<int>)
    requires |t| >= 1
    ensures Sum(Intervals(t)) == Millis(t[|t| - 1] - t[0])
  {
    if |t| >= 2 {
      var init := t[..|t| - 1];
      IntervalsSum(init);
      var d := Intervals(t);
      var e := Intervals(init);
      assert |d[..|d| - 1]| == |e|;
      forall i | 0 <= i < |e|
        ensures d[i] == e[i]
      {
        assert init[i] == t[i] && init[i + 1] == t[i + 1];
      }
      assert d[..|d| - 1] == e;
    }
  }

  /** A whole number of milliseconds, written in nanoseconds. */
  lemma MillisOfWhole(k: int)
    ensures Millis(k * 1000000) == k as real
  {
  }

  /** A sum of `p` per element averages to `p`. */
  lemma MeanOfWholeSum(m: real, xs: seq<real>, p: int)
    requires IsMeanOf(m, xs)
    requires Sum(xs) == (p * |xs|) as real
    ensures m == p as real
  {
    var n := |xs| as real;
    assert (p * |xs|) as real == p as real * n;
    assert (m - p as real) * n == 0.0;
  }

  lemma {:induction false} CountAtLeastAll(xs: seq<real>, c: real)
    requires forall i :: 0 <= i < |xs| ==> xs[i] >= c
    ensures CountAtLeast(xs, c) == |xs|
  {
    if |xs| > 0 {
      CountAtLeastAll(xs[..|xs| - 1], c);
    }
  }

  lemma {:induction false} CountAtLeastNone(xs: seq<real>, c: real)
    requires forall i :: 0 <= i < |xs| ==> xs[i] < c
    ensures CountAtLeast(xs, c) == 0
  {
    if |xs| > 0 {
      CountAtLeastNone(xs[..|xs| - 1], c);
    }
  }

  lemma {:induction false} SumConstant(xs: seq<real>, p: int)
    requires forall i :: 0 <= i < |xs| ==> xs[i] == p as real
    ensures Sum(xs) == (p * |xs|) as real
  {
    if |xs| > 0 {
      SumConstant(xs[..|xs| - 1], p);
      assert (p * |xs|) as real == (p * (|xs| - 1)) as real + p as real;
    }
  }

  /**
   * Statistics over intervals that all equal `p` whole milliseconds: the
   * rounded mean is `p`, every deviation is 0, and the dropped-frame test
   * `0 >= p - 1` counts no interval when `p >= 2` and every one otherwise.
   */
  lemma ConstantIntervals(rep: TimingReport, p: nat)
    requires Consistent(rep)
    requires forall i :: 0 <= i < |rep.intervals| ==> rep.intervals[i] == p as real
    ensures rep.roundedMean == p
    ensures forall i :: 0 <= i < |rep.deviations| ==> rep.deviations[i] == 0.0
    ensures rep.dropped == (if p >= 2 then 0 else |rep.intervals|)
    ensures rep.verdict == GoodRecording <==> p >= 2
  {
    var d := rep.intervals;
    SumConstant(d, p);
    MeanOfWholeSum(rep.mean, d, p);
    RoundInteger(p);
    RoundHalfEvenUnique(rep.mean, rep.roundedMean);
    var c := (2 * p - 1) as real;
    if p >= 2 {
      CountAtLeastNone(d, c);
    } else {
      CountAtLeastAll(d, c);
    }
  }

  /**
   * A perfectly regular run with a whole-millisecond period `p`: the rounded
   * mean is `p` and every deviation is 0, so nothing counts as dropped when
   * `p >= 2`, but every interval does when `p <= 1`.
   */
  lemma UniformRun(t: seq<int>, t0: int, p: nat)
    requires |t| >= 2
    requires forall i :: 0 <= i < |t| ==> t[i] == t0 + i * p * 1000000
    ensures Analyse(t).Success?
    ensures var rep := Analyse(t).value;
            && rep.roundedMean == p
            && (forall i :: 0 <= i < |rep.deviations| ==> rep.deviations[i] == 0.0)
            && rep.dropped == (if p >= 2 then 0 else |t| - 1)
            && (rep.verdict == GoodRecording <==> p >= 2)
  {
    var rep := Analyse(t).value;
    forall i | 0 <= i < |t| - 1
      ensures rep.intervals[i] == p as real
    {
      assert t[i + 1] - t[i] == p * 1000000;
      MillisOfWhole(p);
    }
    ConstantIntervals(rep, p);
  }

  /** Deviations -3, -3, 8, -3 exceed each of the three thresholds exactly once. */
  lemma ExampleThresholds(c: real)
    requires 0.0 <= c < 8.0
    ensures CountAbove([-3.0, -3.0, 8.0, -3.0], c) == 1
  {
    var s1: seq<real> := [-3.0];
    var s2: seq<real> := [-3.0, -3.0];
    var s3: seq<real> := [-3.0, -3.0, 8.0];
    var s4: seq<real> := [-3.0, -3.0, 8.0, -3.0];
    assert s1[..0] == [];
    assert CountAbove(s1, c) == 0;
    assert s2[..1] == s1;
    assert CountAbove(s2, c) == 0;
    assert s3[..2] == s2;
    assert CountAbove(s3, c) == 1;
    assert s4[..3] == s3;
  }

  /** The statistics of intervals 10, 10, 21 and 10 ms. */
  lemma ExampleStatistics(rep: TimingReport)
    requires Consistent(rep)
    requires rep.intervals == [10.0, 10.0, 21.0, 10.0]
    ensures rep.roundedMean == 13
    ensures rep.deviations == [-3.0, -3.0, 8.0, -3.0]
    ensures rep.largestDeviationIndex == 2 && rep.largestDeviation == 8.0
    ensures rep.over01 == 1 && rep.over05 == 1 && rep.over1 == 1
    ensures rep.dropped == 0 && rep.verdict == GoodRecording
  {
    var d := rep.intervals;
    assert Sum(d) == 51.0 by {
      var s1: seq<real> := [10.0];
      var s2: seq<real> := [10.0, 10.0];
      var s3: seq<real> := [10.0, 10.0, 21.0];
      assert s1[..0] == [];
      assert Sum(s1) == 10.0;
      assert s2[..1] == s1;
      assert Sum(s2) == 20.0;
      assert s3[..2] == s2;
      assert Sum(s3) == 41.0;
      assert d[..3] == s3;
    }
    assert rep.mean == 12.75;
    RoundHalfEvenUnique(rep.mean, 13);
    var devs := rep.deviations;
    assert devs == [-3.0, -3.0, 8.0, -3.0];
    assert rep.largestDeviationIndex == 2 by {
      var k := rep.largestDeviationIndex;
      assert Abs(devs[2]) <= Abs(devs[k]);
    }
    CountAtLeastNone(d, 25.0);
    ExampleThresholds(0.1);
    ExampleThresholds(0.5);
    ExampleThresholds(1.0);
  }

  /**
   * Stamps 0, 10, 20, 41 and 51 ms: intervals 10, 10, 21 and 10 average 12.75,
   * which rounds to 13; the deviations are -3, -3, 8 and -3, the largest at
   * index 2; the dropped-frame threshold is 2 * 13 - 1 = 25 ms, which no
   * interval reaches, so the 21 ms gap is reported as a deviation but not as a
   * dropped frame and the verdict is good.
   */
  lemma LongGapExample(t: seq<int>)
    requires t == [0, 10000000, 20000000, 41000000, 51000000]
    ensures Analyse(t).Success?
    ensures var rep := Analyse(t).value;
            && rep.intervals == [10.0, 10.0, 21.0, 10.0]
            && rep.roundedMean == 13
            && rep.deviations == [-3.0, -3.0, 8.0, -3.0]
            && rep.largestDeviationIndex == 2
            && rep.largestDeviation == 8.0
            && rep.over01 == 1 && rep.over05 == 1 && rep.over1 == 1
            && rep.dropped == 0
            && rep.verdict == GoodRecording
  {
    LongGapIntervals(t);
    ExampleStatistics(Analyse(t).value);
  }

  lemma LongGapIntervals(t: seq<int>)
    requires t == [0, 10000000, 20000000, 41000000, 51000000]
    ensures Intervals(t) == [10.0, 10.0, 21.0, 10.0]
  {
    var d := Intervals(t);
    MillisOfWhole(10);
    MillisOfWhole(21);
    assert d[0] == Millis(t[1] - t[0]) && t[1] - t[0] == 10 * 1000000;
    assert d[1] == Millis(t[2] - t[1]) && t[2] - t[1] == 10 * 1000000;
    assert d[2] == Millis(t[3] - t[2]) && t[3] - t[2] == 21 * 1000000;
    assert d[3] == Millis(t[4] - t[3]) && t[4] - t[3] == 10 * 1000000;
  }
}
