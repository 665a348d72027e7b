/**
 * Worked examples: concrete inputs pushed through the model, pinning the
 * interpolation arithmetic and the gate on small logs.
 */
module Scenarios {
  import opened Wrappers
  import opened Sorting
  import opened Percentiles
  import opened Stats
  import opened Breaches
  import opened Samples
  import opened Aggregation
  import opened Verdict

  /** Five evenly spaced values: the median is the middle one, p95 interpolates 80% of the way from 40 to 50. */
  lemma PercentileOfFive()
    ensures Percentile([10, 20, 30, 40, 50], 50.0) == Some(30.0)
    ensures Percentile([10, 20, 30, 40, 50], 95.0) == Some(48.0)
  {
    assert Rank(5, 50.0) == 2.0;
    assert Floor(2.0) == 2 && Ceil(2.0) == 2;
    assert Rank(5, 95.0) == 3.8;
    assert Floor(3.8) == 3 && Ceil(3.8) == 4;
  }

  /** Latencies 100, 200, 300 without failures: mean 200, p95 290, p99 298, no errors. */
  lemma ThreeLatencies()
    ensures ComputeStats([100, 200, 300], 3, 0) == Some(StatBundle(200.0, Some(290.0), Some(298.0), 0.0, 3, 0))
  {
    var v := [100, 200, 300];
    assert Sorted(v);
    SortAscOfSorted(v);
    assert Sum(v) == 600;
    assert Rank(3, 95.0) == 1.9;
    assert Floor(1.9) == 1 && Ceil(1.9) == 2;
    assert Percentile(v, 95.0) == Some(290.0);
    assert Rank(3, 99.0) == 1.98;
    assert Floor(1.98) == 1 && Ceil(1.98) == 2;
    assert Percentile(v, 99.0) == Some(298.0);
  }

  /** Against the script's rules that bundle breaches only the p95 rule. */
  lemma ThreeLatenciesBreachP95()
    ensures GetBreaches(StatBundle(200.0, Some(290.0), Some(298.0), 0.0, 3, 0), SourceConfig.overall)
      == [P95Over(290.0, 250)]
  {
  }

  /**
   * Three successful samples with latencies 100, 200, 300 give mean 200 and
   * p95 = 290 (rank 1.9, between 200 and 300), which breaches a 250 ms rule,
   * so the run fails with exit code 2. With unparseable time stamps there is no window.
   */
  lemma ThreeSamplesBreachP95(ss: seq<Sample>, cfg: Config)
    requires |ss| == 3
    requires ss[0].elapsed == 100 && ss[1].elapsed == 200 && ss[2].elapsed == 300
    requires forall i :: 0 <= i < 3 ==> ss[i].success && ss[i].ts.None? && ss[i].name != cfg.txnLabel
    requires cfg.overall == SourceConfig.overall
    ensures var o := Evaluate(ss, cfg);
      && o.Evaluated?
      && o.report.overall == StatBundle(200.0, Some(290.0), Some(298.0), 0.0, 3, 0)
      && o.report.overallBreaches == [P95Over(290.0, 250)]
      && o.report.tracked.None?
      && o.report.window.None?
      && ExitCode(o) == 2
  {
    ThreeSamplesColumns(ss, cfg.txnLabel);
    ThreeLatencies();
    ThreeLatenciesBreachP95();
    EvaluateOverall(ss, cfg);
    assert !Observed(ss, cfg.txnLabel);
    EvaluateTracked(ss, cfg);
    EvaluateWindow(ss, cfg);
  }

  /** The latency column and failure count of three successful samples. */
  lemma ThreeSamplesColumns(ss: seq<Sample>, txnLabel: string)
    requires |ss| == 3
    requires ss[0].elapsed == 100 && ss[1].elapsed == 200 && ss[2].elapsed == 300
    requires forall i :: 0 <= i < 3 ==> ss[i].success && ss[i].name != txnLabel
    ensures Elapsed(ss) == [100, 200, 300]
    ensures Failures(ss) == 0
    ensures !Observed(ss, txnLabel)
  {
    assert Failures(ss[..1]) == 0;
    assert ss[..2][..1] == ss[..1];
    assert Failures(ss[..2]) == 0;
  }

  /** Samples all stamped at the same instant span no window, so no throughput is reported. */
  lemma SameInstantNoWindow(ss: seq<Sample>, cfg: Config, t: int)
    requires |ss| > 0
    requires forall i :: 0 <= i < |ss| && ss[i].ts.Some? ==> ss[i].ts.value == t
    ensures Evaluate(ss, cfg).report.window.None?
  {
    EvaluateWindow(ss, cfg);
  }

  /** No samples: the run stops before any statistics with exit code 1. */
  lemma EmptyLogExitsOne()
    ensures Evaluate([], SourceConfig) == EmptyInput
    ensures ExitCode(Evaluate([], SourceConfig)) == 1
  {
    ExitCodeEmpty([], SourceConfig);
  }
}
