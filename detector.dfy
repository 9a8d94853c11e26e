/**
 * The dual moving-average anomaly detector of DataUsageService: the averaging rule
 * computeAvg, the warning test, and the decision taken for one tracked row in one cycle.
 *
 * The source computes in 32-bit float and casts back to long; here the arithmetic
 * is exact and the cast is Java's truncation toward zero.
 */
module Detector {
  import opened Wrappers

  /** Samples needed before the warning test runs (FAST_MODE is false). */
  const MIN_SLOW_SAMPLE_COUNT: nat := 60
  /** Width of the short-horizon window. */
  const MIN_FAST_SAMPLE_COUNT: nat := 5
  /** Percentage by which the fast average must exceed the slow one. */
  const WARNING_PERCENTAGE := 68
  /** Largest per-cycle byte delta still treated as idle. */
  const MAX_IDLE_BW := 5 * 1024

  /** The statistics the detection loop reads from a row. */
  datatype Stats = Stats(
    active: bool,
    bytes: int,
    slowAvg: int,
    slowSamples: nat,
    fastAvg: int,
    fastSamples: nat)

  /** The two shapes of updateDb: the bytes column alone, or every statistic. */
  datatype Write =
    | BytesOnly(bytes: int)
    | AllColumns(slowAvg: int, slowSamples: nat, fastAvg: int, fastSamples: nat, active: int, bytes: int)

  /** What one cycle does with one row: the write, and the warning raised, as its first-time flag. */
  datatype Verdict = Verdict(write: Write, warning: Option<bool>)

  /** Java's (long) cast of a quotient: rounds toward zero, so the result never overshoots `n / d` away from 0. */
  function TruncDiv(n: int, d: int): (q: int)
    requires d > 0
    ensures n >= 0 ==> q * d <= n < q * d + d
    ensures n < 0 ==> q * d - d < n <= q * d
  {
    if n >= 0 then n / d else -((-n) / d)
  }

  /**
   * computeAvg: while the window is still filling, the mean of `samples` previous
   * values and the new one; once full, a fixed window of width `samples`.
   */
  function ComputeAvg(avg: int, samples: nat, minSamples: nat, delta: int): (r: int)
    requires minSamples > 0
    ensures samples == 0 ==> r == delta
    ensures var w := if samples < minSamples then samples + 1 else samples;
            var sum := avg * (w - 1) + delta;
            w > 0 && (sum >= 0 ==> r * w <= sum < r * w + w)
  {
    if samples < minSamples then TruncDiv(avg * samples + delta, samples + 1)
    else TruncDiv(avg * (samples - 1) + delta, samples)
  }

  function Min(a: int, b: int): int { if a <= b then a else b }
  function Max(a: int, b: int): int { if a <= b then b else a }

  lemma MulMonotone(a: int, b: int, d: nat)
    requires a <= b
    ensures a * d <= b * d
  {
    var k: nat := b - a;
    assert b * d == a * d + k * d;
  }

  lemma QuotientBounds(n: int, d: int, lo: int, hi: int)
    requires d > 0 && lo * d <= n <= hi * d
    ensures lo <= n / d <= hi
  {
    var q := n / d;
    assert n == q * d + n % d && 0 <= n % d < d;
    if q < lo {
      assert (q + 1) * d == q * d + d;
      MulMonotone(q + 1, lo, d);
    }
    if q > hi {
      assert (hi + 1) * d == hi * d + d;
      MulMonotone(hi + 1, q, d);
    }
  }

  lemma {:induction false} WeightedBounds(avg: int, k: nat, delta: int)
    ensures Min(avg, delta) * (k + 1) <= avg * k + delta <= Max(avg, delta) * (k + 1)
  {
    var lo, hi := Min(avg, delta), Max(avg, delta);
    assert lo * (k + 1) == lo * k + lo;
    assert hi * (k + 1) == hi * k + hi;
    assert lo * k <= avg * k by {
      assert avg * k - lo * k == (avg - lo) * k;
    }
    assert avg * k <= hi * k by {
      assert hi * k - avg * k == (hi - avg) * k;
    }
  }

  /** With a non-negative average and delta, the new average lies between the two. */
  lemma ComputeAvgBetween(avg: int, samples: nat, minSamples: nat, delta: int)
    requires minSamples > 0 && avg >= 0 && delta >= 0
    ensures Min(avg, delta) <= ComputeAvg(avg, samples, minSamples, delta) <= Max(avg, delta)
  {
    var k: nat := if samples < minSamples then samples else samples - 1;
    WeightedBounds(avg, k, delta);
    assert Min(avg, delta) >= 0;
    assert avg * k >= 0;
    QuotientBounds(avg * k + delta, k + 1, Min(avg, delta), Max(avg, delta));
  }

  /** A delta equal to the average leaves it unchanged, whatever the sample count. */
  lemma ComputeAvgFixedPoint(avg: int, samples: nat, minSamples: nat)
    requires minSamples > 0
    ensures ComputeAvg(avg, samples, minSamples, avg) == avg
  {
    var d: int := if samples < minSamples then samples + 1 else samples;
    assert d > 0;
    assert avg * (d - 1) + avg == avg * d;
    if avg >= 0 {
      QuotientBounds(avg * d, d, avg, avg);
    } else {
      assert -(avg * d) == (-avg) * d;
      QuotientBounds((-avg) * d, d, -avg, -avg);
    }
  }

  /**
   * The warning test: fast > slow and (fast - slow) / slow * 100 > WARNING_PERCENTAGE,
   * in exact arithmetic. A zero slow average makes the quotient +infinity (the test
   * passes); a negative one makes it negative (the test fails).
   */
  predicate Exceeds(fastAvg: int, slowAvg: int)
    ensures slowAvg > 0 ==> (Exceeds(fastAvg, slowAvg) <==> fastAvg * 100 > (100 + WARNING_PERCENTAGE) * slowAvg)
    ensures slowAvg == 0 ==> (Exceeds(fastAvg, slowAvg) <==> fastAvg > 0)
    ensures slowAvg < 0 ==> !Exceeds(fastAvg, slowAvg)
  {
    fastAvg > slowAvg &&
    if slowAvg > 0 then (fastAvg - slowAvg) * 100 > WARNING_PERCENTAGE * slowAvg else slowAvg == 0
  }

  /** The byte delta of this cycle: 0 on a row that never saw bytes, otherwise the growth (negative after a counter reset). */
  function Delta(s: Stats, total: int): (d: int)
    ensures s.bytes != 0 ==> s.bytes + d == total
    ensures s.bytes == 0 ==> d == 0
  {
    if s.bytes == 0 then 0 else total - s.bytes
  }

  /** The detection step of dataUsageUpdate for one enabled row whose uid has a bucket holding `total` bytes. */
  function Evaluate(s: Stats, total: int): (v: Verdict)
    ensures v.write.bytes == total
    ensures v.write.BytesOnly? <==> Delta(s, total) <= MAX_IDLE_BW
    ensures v.warning.Some? ==> v.write.AllColumns? && v.write.active == 1 && v.warning.value == !s.active
  {
    var delta := Delta(s, total);
    if delta <= MAX_IDLE_BW then
      Verdict(BytesOnly(total), None)
    else if s.slowSamples < MIN_SLOW_SAMPLE_COUNT then
      var slowAvg := ComputeAvg(s.slowAvg, s.slowSamples, MIN_SLOW_SAMPLE_COUNT, delta);
      var fastAvg := ComputeAvg(s.fastAvg, s.fastSamples, MIN_FAST_SAMPLE_COUNT, delta);
      var fastSamples := if s.fastSamples < MIN_FAST_SAMPLE_COUNT then s.fastSamples + 1 else s.fastSamples;
      Verdict(AllColumns(slowAvg, s.slowSamples + 1, fastAvg, fastSamples, 0, total), None)
    else
      var warn := Exceeds(s.fastAvg, s.slowAvg);
      var slowAvg := ComputeAvg(s.slowAvg, s.slowSamples, MIN_SLOW_SAMPLE_COUNT, delta);
      var fastAvg := ComputeAvg(s.fastAvg, s.fastSamples, MIN_FAST_SAMPLE_COUNT, delta);
      Verdict(AllColumns(slowAvg, s.slowSamples, fastAvg, s.fastSamples, if warn then 1 else 0, total),
              if warn then Some(!s.active) else None)
  }

  /** The statistics as the next cycle reads them back after the write. */
  function Written(s: Stats, w: Write): (r: Stats)
    ensures r.bytes == w.bytes
    ensures w.BytesOnly? ==> r.(bytes := s.bytes) == s
    ensures w.AllColumns? ==> r.active == (w.active > 0) && r.slowSamples == w.slowSamples && r.fastSamples == w.fastSamples
    ensures w.AllColumns? ==> r.slowAvg == w.slowAvg && r.fastAvg == w.fastAvg
  {
    match w
    case BytesOnly(b) => s.(bytes := b)
    case AllColumns(sa, ss, fa, fs, a, b) => Stats(a > 0, b, sa, ss, fa, fs)
  }

  /** One cycle as the next one sees it: the bytes column always holds the new total. */
  function Cycle(s: Stats, total: int): (r: Stats)
    ensures r.bytes == total
    ensures Delta(s, total) <= MAX_IDLE_BW ==> r == s.(bytes := total)
  {
    Written(s, Evaluate(s, total).write)
  }

  /** The statistics after one cycle per entry of `totals`, in order. */
  function Run(s: Stats, totals: seq<int>): (r: Stats)
    ensures totals != [] ==> r.bytes == totals[|totals| - 1]
    decreases |totals|
  {
    if totals == [] then s else Run(Cycle(s, totals[0]), totals[1..])
  }

  /** The first-time flags of the warnings raised along a run. */
  function Warnings(s: Stats, totals: seq<int>): (ws: seq<bool>)
    ensures |ws| <= |totals|
    decreases |totals|
  {
    if totals == [] then []
    else
      var w := Evaluate(s, totals[0]).warning;
      (if w.Some? then [w.value] else []) + Warnings(Cycle(s, totals[0]), totals[1..])
  }

  /** Idle cycle (delta at most MAX_IDLE_BW, which includes a negative delta after a counter reset): only the bytes column is written, no warning. */
  lemma IdleCycle(s: Stats, total: int)
    requires Delta(s, total) <= MAX_IDLE_BW
    ensures Evaluate(s, total) == Verdict(BytesOnly(total), None)
    ensures Cycle(s, total) == s.(bytes := total)
  {
  }

  /**
   * Baseline cycle: the slow count goes up by exactly one and the slow average is the
   * growing-window mean; the fast count goes up only while below its window, and the fast
   * average is the growing- or fixed-window mean accordingly; the active flag is written as 0 and no warning is raised.
   */
  lemma BaselineCycle(s: Stats, total: int)
    requires Delta(s, total) > MAX_IDLE_BW && s.slowSamples < MIN_SLOW_SAMPLE_COUNT
    ensures var v := Evaluate(s, total);
      && v.warning.None?
      && v.write.AllColumns?
      && v.write.slowSamples == s.slowSamples + 1
      && v.write.slowAvg == TruncDiv(s.slowAvg * s.slowSamples + Delta(s, total), s.slowSamples + 1)
      && (s.fastSamples < MIN_FAST_SAMPLE_COUNT ==>
            v.write.fastAvg == TruncDiv(s.fastAvg * s.fastSamples + Delta(s, total), s.fastSamples + 1))
      && (s.fastSamples >= MIN_FAST_SAMPLE_COUNT ==>
            v.write.fastAvg == TruncDiv(s.fastAvg * (s.fastSamples - 1) + Delta(s, total), s.fastSamples))
      && v.write.fastSamples == (if s.fastSamples < MIN_FAST_SAMPLE_COUNT then s.fastSamples + 1 else s.fastSamples)
      && v.write.active == 0
      && v.write.bytes == total
  {
  }

  /**
   * Established cycle: the warning is decided on the averages from before this
   * cycle; it is first-time iff the stored flag was off; the stored flag becomes
   * the decision; both averages move by the fixed-window rule; counts stay.
   */
  lemma EstablishedCycle(s: Stats, total: int)
    requires Delta(s, total) > MAX_IDLE_BW && s.slowSamples >= MIN_SLOW_SAMPLE_COUNT
    ensures var v := Evaluate(s, total);
      && (v.warning.Some? <==> Exceeds(s.fastAvg, s.slowAvg))
      && (v.warning.Some? ==> v.warning.value == !s.active)
      && v.write.AllColumns?
      && v.write.active == (if Exceeds(s.fastAvg, s.slowAvg) then 1 else 0)
      && v.write.slowSamples == s.slowSamples && v.write.fastSamples == s.fastSamples
      && v.write.slowAvg == TruncDiv(s.slowAvg * (s.slowSamples - 1) + Delta(s, total), s.slowSamples)
      && (s.fastSamples >= MIN_FAST_SAMPLE_COUNT ==>
            v.write.fastAvg == TruncDiv(s.fastAvg * (s.fastSamples - 1) + Delta(s, total), s.fastSamples))
  {
  }

  /** A warning needs an established baseline, a non-idle delta and a fast average above the slow one before the update. */
  lemma WarningNeedsPriorExcess(s: Stats, total: int)
    requires Evaluate(s, total).warning.Some?
    ensures s.slowSamples >= MIN_SLOW_SAMPLE_COUNT && Delta(s, total) > MAX_IDLE_BW
    ensures s.fastAvg > s.slowAvg
  {
  }

  /** Counts that start within their windows never leave them, however many cycles run. */
  lemma {:induction false} SamplesSaturate(s: Stats, totals: seq<int>)
    requires s.slowSamples <= MIN_SLOW_SAMPLE_COUNT && s.fastSamples <= MIN_FAST_SAMPLE_COUNT
    ensures Run(s, totals).slowSamples <= MIN_SLOW_SAMPLE_COUNT
    ensures Run(s, totals).fastSamples <= MIN_FAST_SAMPLE_COUNT
    decreases |totals|
  {
    if totals != [] {
      SamplesSaturate(Cycle(s, totals[0]), totals[1..]);
    }
  }

  /** The slow count never goes down and goes up by at most one per cycle. */
  lemma SlowCountStep(s: Stats, total: int)
    ensures s.slowSamples <= Cycle(s, total).slowSamples <= s.slowSamples + 1
  {
  }

  /** While the baseline is being built no warning is raised: a run short enough to stay in it is silent. */
  lemma {:induction false} NoWarningDuringBaseline(s: Stats, totals: seq<int>)
    requires s.slowSamples + |totals| <= MIN_SLOW_SAMPLE_COUNT
    ensures Warnings(s, totals) == []
    decreases |totals|
  {
    if totals != [] {
      var next := Cycle(s, totals[0]);
      SlowCountStep(s, totals[0]);
      NoWarningDuringBaseline(next, totals[1..]);
    }
  }

  /** Averages that start non-negative stay non-negative, counter resets included. */
  lemma {:induction false} AveragesStayNonNegative(s: Stats, totals: seq<int>)
    requires s.slowAvg >= 0 && s.fastAvg >= 0
    ensures Run(s, totals).slowAvg >= 0 && Run(s, totals).fastAvg >= 0
    decreases |totals|
  {
    if totals != [] {
      var delta := Delta(s, totals[0]);
      if delta > MAX_IDLE_BW {
        ComputeAvgBetween(s.slowAvg, s.slowSamples, MIN_SLOW_SAMPLE_COUNT, delta);
        ComputeAvgBetween(s.fastAvg, s.fastSamples, MIN_FAST_SAMPLE_COUNT, delta);
      }
      AveragesStayNonNegative(Cycle(s, totals[0]), totals[1..]);
    }
  }

  /** Two alerting cycles in a row: the first carries first-time iff the stored flag was off, the second is never first-time. */
  lemma FirstTimeThenRepeat(s: Stats, t1: int, t2: int)
    requires Evaluate(s, t1).warning.Some?
    requires Evaluate(Cycle(s, t1), t2).warning.Some?
    ensures Evaluate(s, t1).warning == Some(!s.active)
    ensures Evaluate(Cycle(s, t1), t2).warning == Some(false)
  {
  }

  /** The threshold at slow average 100: a fast average of 169 warns, one of 165 does not. */
  lemma ThresholdExamples(s: Stats, total: int)
    requires Delta(s, total) > MAX_IDLE_BW && s.slowSamples >= MIN_SLOW_SAMPLE_COUNT && s.slowAvg == 100
    ensures s.fastAvg == 169 ==> Evaluate(s, total).warning.Some?
    ensures s.fastAvg == 165 ==> Evaluate(s, total).warning.None?
  {
  }

  /**
   * A spike is reported one cycle late: from an established baseline of 10000 bytes per
   * cycle, three cycles of 100000 bytes give no warning, then a first-time warning, then a repeat.
   */
  lemma SpikeWarnsOneCycleLate()
    ensures var s0 := Stats(false, 1000000, 10000, 60, 10000, 5);
      var s1 := Cycle(s0, 1100000);
      var s2 := Cycle(s1, 1200000);
      && Evaluate(s0, 1100000).warning == None
      && Evaluate(s1, 1200000).warning == Some(true)
      && Evaluate(s2, 1300000).warning == Some(false)
  {
    var s0 := Stats(false, 1000000, 10000, 60, 10000, 5);
    var s1 := Cycle(s0, 1100000);
    assert s1 == Stats(false, 1100000, 11500, 60, 28000, 5);
    var s2 := Cycle(s1, 1200000);
    assert s2 == Stats(true, 1200000, 12975, 60, 42400, 5);
  }
}
