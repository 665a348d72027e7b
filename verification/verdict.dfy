/**
 * The verdict of one run (the end of `main`): the empty-input exit, the
 * overall and tracked-transaction bundles and breaches, the execution window
 * and throughput, the top slow labels, and the exit code of the quality gate.
 */
module Verdict {
  import opened Wrappers
  import opened Stats
  import opened Breaches
  import opened Samples
  import opened Aggregation
  import opened Ranking

  /** The SLA configuration: overall rules, the tracked label and its rules, and how many labels to list. */
  datatype Config = Config(overall: Limits, txnLabel: string, txn: Limits, topN: nat)

  /** The rules written into the script. */
  const SourceConfig := Config(
    Limits(250, 500, 1.0),
    "Transaction Controller_Home",
    Limits(250, 500, 1.0),
    5)

  /** The execution window in epoch milliseconds, its length in seconds and the request rate. */
  datatype Window = Window(startMs: int, endMs: int, durationS: real, rps: Option<real>)

  /**
   * A window exists only when both ends are known and the end is strictly
   * later than the start; its rate is requests per second over that span.
   */
  function Throughput(minTs: Option<int>, maxTs: Option<int>, total: nat): (w: Option<Window>)
    ensures w.Some? <==> minTs.Some? && maxTs.Some? && maxTs.value > minTs.value
    ensures w.Some? ==> w.value.startMs == minTs.value && w.value.endMs == maxTs.value
    ensures w.Some? ==> (w.value.durationS > 0.0 &&
              w.value.durationS * 1000.0 == (w.value.endMs - w.value.startMs) as real)
    ensures w.Some? ==> w.value.rps.Some? && w.value.rps.value * w.value.durationS == total as real
  {
    if minTs.Some? && maxTs.Some? && maxTs.value > minTs.value then
      var span := (maxTs.value - minTs.value) as real;
      var durationS := span / 1000.0;
      var rps := if durationS > 0.0 then Some(total as real / durationS) else None;
      Some(Window(minTs.value, maxTs.value, durationS, rps))
    else None
  }

  datatype Report = Report(
    overall: StatBundle,
    overallBreaches: seq<Breach>,
    tracked: Option<StatBundle>,   // None: the tracked label does not occur
    trackedBreaches: seq<Breach>,
    window: Option<Window>,
    topLabels: seq<LabelRow>)

  datatype Outcome = EmptyInput | Evaluated(report: Report)

  /** The diagnostics rows of all labels, in first-seen order. */
  function LabelRows(a: Acc): seq<LabelRow>
    requires forall l :: l in a.labels ==> l in a.byLabel
  {
    BuildRows(a.labels, a.byLabel)
  }

  /** Everything `main` derives from the samples, or EmptyInput when there are none. */
  function Evaluate(ss: seq<Sample>, cfg: Config): (o: Outcome)
    ensures o.EmptyInput? <==> |ss| == 0
  {
    var a := Aggregate(ss, cfg.txnLabel);
    AggregateCounts(ss, cfg.txnLabel);
    if a.overall.total == 0 then EmptyInput
    else Evaluated(Assemble(a, cfg))
  }

  /** The report of a non-empty run, from the accumulator the row loop left behind. */
  function Assemble(a: Acc, cfg: Config): Report
    requires a.overall.total > 0 && |a.overall.elapsed| > 0
    requires a.txn.total > 0 ==> |a.txn.elapsed| > 0
    requires forall l :: l in a.labels ==> l in a.byLabel
  {
    var overall := ComputeStats(a.overall.elapsed, a.overall.total, a.overall.errors).value;
    var overallBreaches := GetBreaches(overall, cfg.overall);
    var tracked := if a.txn.total > 0 then ComputeStats(a.txn.elapsed, a.txn.total, a.txn.errors) else None;
    var trackedBreaches := if tracked.Some? then GetBreaches(tracked.value, cfg.txn) else [];
    var window := Throughput(a.minTs, a.maxTs, a.overall.total);
    var top := TopLabels(LabelRows(a), cfg.topN);
    Report(overall, overallBreaches, tracked, trackedBreaches, window, top)
  }

  /** A non-empty run is assembled from the fold's accumulator. */
  lemma EvaluateAssembles(ss: seq<Sample>, cfg: Config)
    requires |ss| > 0
    ensures var a := Aggregate(ss, cfg.txnLabel);
      && a.overall.total > 0 && |a.overall.elapsed| > 0
      && (a.txn.total > 0 ==> |a.txn.elapsed| > 0)
      && (forall l :: l in a.labels ==> l in a.byLabel)
      && Evaluate(ss, cfg) == Evaluated(Assemble(a, cfg))
  {
    AggregateCounts(ss, cfg.txnLabel);
  }

  /** The quality gate: 1 for an empty log, 2 when any breach was found, 0 otherwise. */
  function ExitCode(o: Outcome): (code: int)
    ensures code == 1 <==> o.EmptyInput?
    ensures code == 2 <==> o.Evaluated? && (o.report.overallBreaches != [] || o.report.trackedBreaches != [])
    ensures code == 0 <==> o.Evaluated? && o.report.overallBreaches == [] && o.report.trackedBreaches == []
  {
    match o
    case EmptyInput => 1
    case Evaluated(r) => if r.overallBreaches != [] || r.trackedBreaches != [] then 2 else 0
  }

  /** The overall bundle covers every sample, and its breaches are judged against the overall rules. */
  lemma EvaluateOverall(ss: seq<Sample>, cfg: Config)
    requires |ss| > 0
    ensures var r := Evaluate(ss, cfg).report;
      && r.overall == ComputeStats(Elapsed(ss), |ss|, Failures(ss)).value
      && r.overall.total == |ss|
      && r.overallBreaches == GetBreaches(r.overall, cfg.overall)
  {
    AggregateInv(ss, cfg.txnLabel);
    AggregateCounts(ss, cfg.txnLabel);
  }

  /**
   * The tracked bundle exists exactly when the tracked label occurs; it then
   * covers exactly that label's samples, and otherwise no tracked breach is reported.
   */
  lemma EvaluateTracked(ss: seq<Sample>, cfg: Config)
    requires |ss| > 0
    ensures var r := Evaluate(ss, cfg).report;
      var own := WithLabel(ss, cfg.txnLabel);
      && (r.tracked.None? <==> !Observed(ss, cfg.txnLabel))
      && (r.tracked.None? ==> r.trackedBreaches == [])
      && (r.tracked.Some? ==> (r.tracked == ComputeStats(Elapsed(own), |own|, Failures(own)) &&
            r.trackedBreaches == GetBreaches(r.tracked.value, cfg.txn)))
  {
    AggregateInv(ss, cfg.txnLabel);
    AggregateCounts(ss, cfg.txnLabel);
    AggregateTracked(ss, cfg.txnLabel);
  }

  /**
   * A window (and throughput) is reported exactly when two parseable time
   * stamps differ; equal time stamps give neither.
   */
  lemma EvaluateWindow(ss: seq<Sample>, cfg: Config)
    requires |ss| > 0
    ensures Evaluate(ss, cfg).report.window.Some? <==>
      exists i, j :: 0 <= i < |ss| && 0 <= j < |ss| && ss[i].ts.Some? && ss[j].ts.Some? &&
        ss[i].ts.value < ss[j].ts.value
  {
    var a := Aggregate(ss, cfg.txnLabel);
    AggregateCounts(ss, cfg.txnLabel);
    AggregateWindow(ss, cfg.txnLabel);
    if a.minTs.Some? && a.maxTs.Some? && a.maxTs.value > a.minTs.value {
      var i :| 0 <= i < |ss| && ss[i].ts == a.minTs;
      var j :| 0 <= j < |ss| && ss[j].ts == a.maxTs;
      assert ss[i].ts.value < ss[j].ts.value;
    }
  }

  /**
   * The top labels: min(N, number of distinct labels) rows with distinct
   * labels, ordered by non-increasing p95.
   */
  lemma EvaluateRanking(ss: seq<Sample>, cfg: Config)
    requires |ss| > 0
    ensures var top := Evaluate(ss, cfg).report.topLabels;
      && |top| == Min(cfg.topN, |LabelSet(ss)|)
      && DistinctNames(top)
      && SortedDesc(top)
  {
    var a := Aggregate(ss, cfg.txnLabel);
    EvaluateAssembles(ss, cfg);
    RowsComplete(ss, cfg.txnLabel);
    LabelCount(ss, cfg.txnLabel);
  }

  /** Each listed row belongs to an observed label and is computed from that label's samples alone. */
  lemma EvaluateRankingRows(ss: seq<Sample>, cfg: Config)
    requires |ss| > 0
    ensures forall row :: row in Evaluate(ss, cfg).report.topLabels ==>
      && Observed(ss, row.name)
      && |GroupOf(WithLabel(ss, row.name)).elapsed| > 0
      && row == RowOf(row.name, GroupOf(WithLabel(ss, row.name)))
  {
    var a := Aggregate(ss, cfg.txnLabel);
    EvaluateAssembles(ss, cfg);
    TopRowFor(a, cfg.topN);
    forall row | row in TopLabels(LabelRows(a), cfg.topN)
      ensures Observed(ss, row.name)
      ensures |GroupOf(WithLabel(ss, row.name)).elapsed| > 0
      ensures row == RowOf(row.name, GroupOf(WithLabel(ss, row.name)))
    {
      AggregateGroups(ss, cfg.txnLabel, row.name);
      if !Observed(ss, row.name) {
        WithLabelUnobserved(ss, row.name);
      }
    }
  }

  /** Every listed row is the row of its own label's group. */
  lemma TopRowFor(a: Acc, n: nat)
    requires forall l :: l in a.labels ==> l in a.byLabel
    ensures forall row :: row in TopLabels(LabelRows(a), n) ==> RowFor(row, a.byLabel)
  {
    var rows := LabelRows(a);
    forall row | row in TopLabels(rows, n) ensures RowFor(row, a.byLabel) {
      assert row in rows;
      var j :| 0 <= j < |rows| && rows[j] == row;
      assert RowFor(rows[j], a.byLabel);
    }
  }

  /** With every group non-empty, there is one row per label, named in label order, with distinct names. */
  lemma RowsComplete(ss: seq<Sample>, txnLabel: string)
    ensures var a := Aggregate(ss, txnLabel);
      && (forall l :: l in a.labels ==> l in a.byLabel)
      && |LabelRows(a)| == |a.labels|
      && (forall i :: 0 <= i < |a.labels| ==> LabelRows(a)[i].name == a.labels[i])
      && DistinctNames(LabelRows(a))
  {
    var a := Aggregate(ss, txnLabel);
    AggregateCounts(ss, txnLabel);
    AggregateLabels(ss, txnLabel);
    forall i | 0 <= i < |a.labels| ensures |a.byLabel[a.labels[i]].elapsed| > 0 {
      AggregateGroups(ss, txnLabel, a.labels[i]);
    }
  }

  /**
   * An observed label that did not make the list is no slower (by p95)
   * than any label that did.
   */
  lemma EvaluateRankingSelection(ss: seq<Sample>, cfg: Config, l: string)
    requires |ss| > 0 && Observed(ss, l)
    requires forall i :: 0 <= i < |Evaluate(ss, cfg).report.topLabels| ==>
               Evaluate(ss, cfg).report.topLabels[i].name != l
    ensures var top := Evaluate(ss, cfg).report.topLabels;
      var g := GroupOf(WithLabel(ss, l));
      && |g.elapsed| > 0
      && forall i :: 0 <= i < |top| ==> RowOf(l, g).p95 <= top[i].p95
  {
    var a := Aggregate(ss, cfg.txnLabel);
    EvaluateAssembles(ss, cfg);
    AggregateLabels(ss, cfg.txnLabel);
    RowsComplete(ss, cfg.txnLabel);
    var rows := LabelRows(a);
    var top := TopLabels(rows, cfg.topN);
    assert l in a.labels;
    AggregateGroups(ss, cfg.txnLabel, l);
    var j :| 0 <= j < |a.labels| && a.labels[j] == l;
    assert rows[j].name == l;
    assert RowFor(rows[j], a.byLabel);
    assert rows[j] !in top;
  }

  /**
   * Ties keep first-seen order: the label rows are in first-seen label
   * order, and among rows sharing a p95 value the listed ones are the
   * first of them, in the same order.
   */
  lemma EvaluateRankingStable(ss: seq<Sample>, cfg: Config, k: real)
    requires |ss| > 0
    ensures var a := Aggregate(ss, cfg.txnLabel);
      && (forall l :: l in a.labels ==> l in a.byLabel)
      && FirstSeenOrder(a.labels, ss)
      && |LabelRows(a)| == |a.labels|
      && (forall i :: 0 <= i < |a.labels| ==> LabelRows(a)[i].name == a.labels[i])
      && WithKey(Evaluate(ss, cfg).report.topLabels, k) <= WithKey(LabelRows(a), k)
  {
    EvaluateAssembles(ss, cfg);
    AggregateLabelOrder(ss, cfg.txnLabel);
    RowsComplete(ss, cfg.txnLabel);
  }

  /**
   * The gate end to end: 1 exactly for an empty log; otherwise 2 exactly
   * when the whole traffic, or the tracked label's traffic if it occurs,
   * violates one of its rules, and 0 otherwise.
   */
  lemma ExitCodeDecision(ss: seq<Sample>, cfg: Config)
    requires |ss| > 0
    ensures var all := ComputeStats(Elapsed(ss), |ss|, Failures(ss)).value;
      var own := WithLabel(ss, cfg.txnLabel);
      ExitCode(Evaluate(ss, cfg)) == 2 <==>
        Violates(all, cfg.overall) ||
        (|own| > 0 && Violates(ComputeStats(Elapsed(own), |own|, Failures(own)).value, cfg.txn))
  {
    ExitCodeOverall(ss, cfg);
    ExitCodeTracked(ss, cfg);
  }

  /** The overall part of the gate: the exit code is 2 when the whole traffic violates a rule, and otherwise depends on the tracked breaches only. */
  lemma ExitCodeOverall(ss: seq<Sample>, cfg: Config)
    requires |ss| > 0
    ensures var all := ComputeStats(Elapsed(ss), |ss|, Failures(ss)).value;
      ExitCode(Evaluate(ss, cfg)) == 2 <==>
        Violates(all, cfg.overall) || Evaluate(ss, cfg).report.trackedBreaches != []
  {
    var o := Evaluate(ss, cfg);
    EvaluateOverall(ss, cfg);
    EvaluateTracked(ss, cfg);
    GateOf(o.report, cfg);
  }

  /** The tracked part of the gate: tracked breaches exist exactly when the tracked label has samples and its traffic violates a rule. */
  lemma ExitCodeTracked(ss: seq<Sample>, cfg: Config)
    requires |ss| > 0
    ensures var own := WithLabel(ss, cfg.txnLabel);
      Evaluate(ss, cfg).report.trackedBreaches != [] <==>
        |own| > 0 && Violates(ComputeStats(Elapsed(own), |own|, Failures(own)).value, cfg.txn)
  {
    var o := Evaluate(ss, cfg);
    EvaluateTracked(ss, cfg);
    if Observed(ss, cfg.txnLabel) {
      WithLabelObserved(ss, cfg.txnLabel);
    } else {
      WithLabelUnobserved(ss, cfg.txnLabel);
    }
    GateOf(o.report, cfg);
  }

  /** An empty log, and only an empty log, exits with 1. */
  lemma ExitCodeEmpty(ss: seq<Sample>, cfg: Config)
    ensures ExitCode(Evaluate(ss, cfg)) == 1 <==> |ss| == 0
  {
  }

  /** The gate of one report, in terms of the rules its bundles violate. */
  lemma GateOf(r: Report, cfg: Config)
    requires r.overallBreaches == GetBreaches(r.overall, cfg.overall)
    requires r.tracked.None? ==> r.trackedBreaches == []
    requires r.tracked.Some? ==> r.trackedBreaches == GetBreaches(r.tracked.value, cfg.txn)
    ensures ExitCode(Evaluated(r)) == 2 <==>
      Violates(r.overall, cfg.overall) || (r.tracked.Some? && Violates(r.tracked.value, cfg.txn))
  {
  }

  /** Some rule of `lim` is violated by `s`. */
  predicate Violates(s: StatBundle, lim: Limits) {
    P95Breached(s, lim) || P99Breached(s, lim) || ErrorRateBreached(s, lim)
  }
}
