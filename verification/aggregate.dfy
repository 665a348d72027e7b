/**
 * The single pass over the samples (the row loop of `main`): one
 * accumulator for all traffic, one per label (in first-seen order), one for
 * the tracked transaction label, and the smallest and largest time stamp.
 */
module Aggregation {
  import opened Wrappers
  import opened Samples

  /** What the loop keeps per group: the latencies in arrival order, the count and the failures. */
  datatype Group = Group(elapsed: seq<int>, total: nat, errors: nat)

  const EmptyGroup := Group([], 0, 0)

  datatype Acc = Acc(
    overall: Group,
    byLabel: map<string, Group>,
    labels: seq<string>,   // keys of byLabel in insertion order
    txn: Group,
    minTs: Option<int>,
    maxTs: Option<int>)

  const Start := Acc(EmptyGroup, map[], [], EmptyGroup, None, None)

  function AddSample(g: Group, s: Sample): Group {
    Group(g.elapsed + [s.elapsed], g.total + 1, if s.success then g.errors else g.errors + 1)
  }

  function NextMin(cur: Option<int>, ts: Option<int>): Option<int> {
    match ts
    case None => cur
    case Some(t) => if cur.None? || t < cur.value then Some(t) else cur
  }

  function NextMax(cur: Option<int>, ts: Option<int>): Option<int> {
    match ts
    case None => cur
    case Some(t) => if cur.None? || t > cur.value then Some(t) else cur
  }

  /** One iteration of the row loop. */
  function Step(acc: Acc, s: Sample, txnLabel: string): Acc {
    var g := if s.name in acc.byLabel then acc.byLabel[s.name] else EmptyGroup;
    Acc(
      AddSample(acc.overall, s),
      acc.byLabel[s.name := AddSample(g, s)],
      if s.name in acc.byLabel then acc.labels else acc.labels + [s.name],
      if s.name == txnLabel then AddSample(acc.txn, s) else acc.txn,
      NextMin(acc.minTs, s.ts),
      NextMax(acc.maxTs, s.ts))
  }

  /** The row loop as a left fold over the samples. */
  function Aggregate(ss: seq<Sample>, txnLabel: string): Acc {
    if |ss| == 0 then Start
    else Step(Aggregate(ss[..|ss| - 1], txnLabel), ss[|ss| - 1], txnLabel)
  }

  // ---------------------------------------------------------------------
  // Reference definitions, one group at a time

  function Elapsed(ss: seq<Sample>): (r: seq<int>)
    ensures |r| == |ss|
  {
    seq(|ss|, i requires 0 <= i < |ss| => ss[i].elapsed)
  }

  /** Number of failed samples. */
  function Failures(ss: seq<Sample>): (r: nat)
    ensures r <= |ss|
  {
    if |ss| == 0 then 0
    else Failures(ss[..|ss| - 1]) + (if ss[|ss| - 1].success then 0 else 1)
  }

  /** The samples carrying label `l`, in order. */
  function WithLabel(ss: seq<Sample>, l: string): (r: seq<Sample>)
    ensures |r| <= |ss|
    ensures forall i :: 0 <= i < |r| ==> r[i].name == l
  {
    if |ss| == 0 then []
    else
      var rest := WithLabel(ss[..|ss| - 1], l);
      if ss[|ss| - 1].name == l then rest + [ss[|ss| - 1]] else rest
  }

  /** The accumulator a group would have if its samples were processed on their own. */
  function GroupOf(ss: seq<Sample>): Group {
    Group(Elapsed(ss), |ss|, Failures(ss))
  }

  predicate Observed(ss: seq<Sample>, l: string) {
    exists i :: 0 <= i < |ss| && ss[i].name == l
  }

  predicate HasTimestamp(ss: seq<Sample>) {
    exists i :: 0 <= i < |ss| && ss[i].ts.Some?
  }

  ghost predicate NoDup(xs: seq<string>) {
    forall i, j :: 0 <= i < j < |xs| ==> xs[i] != xs[j]
  }

  /** Every label in `labels` was seen before the first sample of any later label. */
  ghost predicate FirstSeenOrder(labels: seq<string>, ss: seq<Sample>) {
    forall i, j, k :: 0 <= i < j < |labels| && 0 <= k < |ss| && ss[k].name == labels[j] ==>
      exists m :: 0 <= m < k && ss[m].name == labels[i]
  }

  function SumTotals(labels: seq<string>, m: map<string, Group>): int
    requires forall l :: l in labels ==> l in m
  {
    if |labels| == 0 then 0
    else SumTotals(labels[..|labels| - 1], m) + m[labels[|labels| - 1]].total
  }

  function SumErrors(labels: seq<string>, m: map<string, Group>): int
    requires forall l :: l in labels ==> l in m
  {
    if |labels| == 0 then 0
    else SumErrors(labels[..|labels| - 1], m) + m[labels[|labels| - 1]].errors
  }

  /** [minTs, maxTs] is exactly the range of the parsed time stamps, absent when there are none. */
  ghost predicate WindowOf(minTs: Option<int>, maxTs: Option<int>, ss: seq<Sample>) {
    && (minTs.Some? <==> HasTimestamp(ss))
    && (maxTs.Some? <==> HasTimestamp(ss))
    && (forall i :: 0 <= i < |ss| && ss[i].ts.Some? ==>
          minTs.value <= ss[i].ts.value <= maxTs.value)
    && (minTs.Some? ==> exists i :: 0 <= i < |ss| && ss[i].ts == minTs)
    && (maxTs.Some? ==> exists i :: 0 <= i < |ss| && ss[i].ts == maxTs)
  }

  /** The per-label map has exactly the observed labels, each with its own group. */
  ghost predicate GroupsInv(byLabel: map<string, Group>, ss: seq<Sample>) {
    && (forall l :: l in byLabel <==> Observed(ss, l))
    && (forall l :: l in byLabel ==> byLabel[l] == GroupOf(WithLabel(ss, l)))
  }

  /** `labels` lists the keys of `byLabel` once each, in first-seen order. */
  ghost predicate LabelsInv(labels: seq<string>, byLabel: map<string, Group>, ss: seq<Sample>) {
    && NoDup(labels)
    && (forall l :: l in labels <==> l in byLabel)
    && FirstSeenOrder(labels, ss)
  }

  /** Everything the row loop keeps true about its accumulator after reading `ss`. */
  ghost predicate Inv(acc: Acc, ss: seq<Sample>, txnLabel: string) {
    && acc.overall == GroupOf(ss)
    && acc.txn == GroupOf(WithLabel(ss, txnLabel))
    && GroupsInv(acc.byLabel, ss)
    && LabelsInv(acc.labels, acc.byLabel, ss)
    && SumTotals(acc.labels, acc.byLabel) == |ss|
    && SumErrors(acc.labels, acc.byLabel) == Failures(ss)
    && WindowOf(acc.minTs, acc.maxTs, ss)
  }

  // ---------------------------------------------------------------------
  // Facts about one more sample

  lemma GroupOfSnoc(ss: seq<Sample>, x: Sample)
    ensures GroupOf(ss + [x]) == AddSample(GroupOf(ss), x)
  {
    assert (ss + [x])[..|ss|] == ss;
    assert Elapsed(ss + [x]) == Elapsed(ss) + [x.elapsed];
  }

  lemma WithLabelSnoc(ss: seq<Sample>, x: Sample, l: string)
    ensures WithLabel(ss + [x], l) == if x.name == l then WithLabel(ss, l) + [x] else WithLabel(ss, l)
  {
    assert (ss + [x])[..|ss|] == ss;
  }

  lemma {:induction false} WithLabelUnobserved(ss: seq<Sample>, l: string)
    requires !Observed(ss, l)
    ensures WithLabel(ss, l) == []
  {
    if |ss| > 0 {
      var p := ss[..|ss| - 1];
      assert forall i :: 0 <= i < |p| ==> p[i] == ss[i];
      WithLabelUnobserved(p, l);
    }
  }

  lemma ObservedSnoc(ss: seq<Sample>, x: Sample, l: string)
    ensures Observed(ss + [x], l) <==> Observed(ss, l) || x.name == l
  {
    var ss' := ss + [x];
    assert ss'[|ss|] == x;
    if Observed(ss', l) && x.name != l {
      var i :| 0 <= i < |ss'| && ss'[i].name == l;
      assert ss[i].name == l;
    }
    if Observed(ss, l) {
      var i :| 0 <= i < |ss| && ss[i].name == l;
      assert ss'[i].name == l;
    }
  }

  lemma {:induction false} SumsAppend(labels: seq<string>, m: map<string, Group>, l: string)
    requires forall x :: x in labels ==> x in m
    requires l in m
    ensures SumTotals(labels + [l], m) == SumTotals(labels, m) + m[l].total
    ensures SumErrors(labels + [l], m) == SumErrors(labels, m) + m[l].errors
  {
    assert (labels + [l])[..|labels|] == labels;
  }

  /** Replacing the group of a listed label changes the sums by exactly its difference. */
  lemma {:induction false} SumsUpdate(labels: seq<string>, m: map<string, Group>, l: string, g: Group)
    requires forall x :: x in labels ==> x in m
    requires NoDup(labels) && l in labels
    ensures SumTotals(labels, m[l := g]) == SumTotals(labels, m) - m[l].total + g.total
    ensures SumErrors(labels, m[l := g]) == SumErrors(labels, m) - m[l].errors + g.errors
  {
    var p := labels[..|labels| - 1];
    var last := labels[|labels| - 1];
    assert labels == p + [last];
    assert forall x :: x in p ==> x in labels;
    if last == l {
      assert l !in p by {
        assert forall i :: 0 <= i < |p| ==> p[i] == labels[i] && labels[i] != labels[|labels| - 1];
      }
      SumsUnaffected(p, m, l, g);
    } else {
      assert NoDup(p);
      SumsUpdate(p, m, l, g);
    }
  }

  /** Sums over labels that do not include `l` ignore the group of `l`. */
  lemma {:induction false} SumsUnaffected(labels: seq<string>, m: map<string, Group>, l: string, g: Group)
    requires forall x :: x in labels ==> x in m
    requires l !in labels
    ensures SumTotals(labels, m[l := g]) == SumTotals(labels, m)
    ensures SumErrors(labels, m[l := g]) == SumErrors(labels, m)
  {
    if |labels| > 0 {
      var p := labels[..|labels| - 1];
      assert forall x :: x in p ==> x in labels;
      SumsUnaffected(p, m, l, g);
    }
  }

  lemma StepOverall(acc: Acc, ss: seq<Sample>, x: Sample, txnLabel: string)
    requires acc.overall == GroupOf(ss)
    requires acc.txn == GroupOf(WithLabel(ss, txnLabel))
    ensures Step(acc, x, txnLabel).overall == GroupOf(ss + [x])
    ensures Step(acc, x, txnLabel).txn == GroupOf(WithLabel(ss + [x], txnLabel))
  {
    GroupOfSnoc(ss, x);
    WithLabelSnoc(ss, x, txnLabel);
    GroupOfSnoc(WithLabel(ss, txnLabel), x);
  }

  lemma StepGroups(byLabel: map<string, Group>, ss: seq<Sample>, x: Sample)
    requires GroupsInv(byLabel, ss)
    ensures GroupsInv(byLabel[x.name := AddSample(
              if x.name in byLabel then byLabel[x.name] else EmptyGroup, x)], ss + [x])
  {
    var g := if x.name in byLabel then byLabel[x.name] else EmptyGroup;
    var m := byLabel[x.name := AddSample(g, x)];
    var ss' := ss + [x];
    forall l ensures l in m <==> Observed(ss', l) {
      ObservedSnoc(ss, x, l);
    }
    forall l | l in m ensures m[l] == GroupOf(WithLabel(ss', l)) {
      WithLabelSnoc(ss, x, l);
      if l == x.name {
        if x.name !in byLabel {
          WithLabelUnobserved(ss, l);
          assert [] + [x] == [x];
        }
        GroupOfSnoc(WithLabel(ss, l), x);
      }
    }
  }

  /** A label seen before keeps the list and its order. */
  lemma StepLabelsKnown(labels: seq<string>, byLabel: map<string, Group>, ss: seq<Sample>, x: Sample)
    requires GroupsInv(byLabel, ss) && LabelsInv(labels, byLabel, ss)
    requires x.name in byLabel
    ensures FirstSeenOrder(labels, ss + [x])
  {
    var ss' := ss + [x];
    var n := |ss|;
    forall i, j, k | 0 <= i < j < |labels| && 0 <= k < |ss'| && ss'[k].name == labels[j]
      ensures exists m :: 0 <= m < k && ss'[m].name == labels[i]
    {
      var k0 := k;
      if k == n {
        assert Observed(ss, labels[j]);
        k0 :| 0 <= k0 < n && ss[k0].name == labels[j];
      } else {
        assert ss[k] == ss'[k];
      }
      var m :| 0 <= m < k0 && ss[m].name == labels[i];
      assert ss'[m] == ss[m];
    }
  }

  /** A label seen for the first time goes to the end of the list. */
  lemma StepLabelsFresh(labels: seq<string>, byLabel: map<string, Group>, ss: seq<Sample>, x: Sample)
    requires GroupsInv(byLabel, ss) && LabelsInv(labels, byLabel, ss)
    requires x.name !in byLabel
    ensures NoDup(labels + [x.name])
    ensures FirstSeenOrder(labels + [x.name], ss + [x])
  {
    var ss' := ss + [x];
    var ls := labels + [x.name];
    var n := |ss|;
    forall i, j, k | 0 <= i < j < |ls| && 0 <= k < |ss'| && ss'[k].name == ls[j]
      ensures exists m :: 0 <= m < k && ss'[m].name == ls[i]
    {
      assert ls[i] == labels[i] && labels[i] in byLabel;
      if j < |labels| {
        assert ls[j] in byLabel;
        assert k < n;
        assert ss[k] == ss'[k];
        var m :| 0 <= m < k && ss[m].name == labels[i];
        assert ss'[m] == ss[m];
      } else {
        assert k == n;
        assert Observed(ss, labels[i]);
        var m :| 0 <= m < n && ss[m].name == labels[i];
        assert ss'[m] == ss[m];
      }
    }
  }

  lemma StepSums(labels: seq<string>, byLabel: map<string, Group>, ss: seq<Sample>, x: Sample)
    requires LabelsInv(labels, byLabel, ss)
    requires SumTotals(labels, byLabel) == |ss|
    requires SumErrors(labels, byLabel) == Failures(ss)
    ensures var g := if x.name in byLabel then byLabel[x.name] else EmptyGroup;
      var m := byLabel[x.name := AddSample(g, x)];
      var ls := if x.name in byLabel then labels else labels + [x.name];
      && (forall l :: l in ls ==> l in m)
      && SumTotals(ls, m) == |ss| + 1
      && SumErrors(ls, m) == Failures(ss + [x])
  {
    assert (ss + [x])[..|ss|] == ss;
    var l := x.name;
    if l in byLabel {
      SumsUpdate(labels, byLabel, l, AddSample(byLabel[l], x));
    } else {
      var m := byLabel[l := AddSample(EmptyGroup, x)];
      SumsAppend(labels, m, l);
      SumsUnaffected(labels, byLabel, l, AddSample(EmptyGroup, x));
    }
  }

  lemma StepWindow(minTs: Option<int>, maxTs: Option<int>, ss: seq<Sample>, x: Sample)
    requires WindowOf(minTs, maxTs, ss)
    ensures WindowOf(NextMin(minTs, x.ts), NextMax(maxTs, x.ts), ss + [x])
  {
    var ss' := ss + [x];
    var lo, hi := NextMin(minTs, x.ts), NextMax(maxTs, x.ts);
    assert ss'[|ss|] == x;
    assert forall i :: 0 <= i < |ss| ==> ss'[i] == ss[i];
    if HasTimestamp(ss) {
      var i :| 0 <= i < |ss| && ss[i].ts.Some?;
      assert ss'[i].ts.Some?;
    }
    if minTs.Some? && lo == minTs {
      var i :| 0 <= i < |ss| && ss[i].ts == minTs;
      assert ss'[i].ts == lo;
    }
    if maxTs.Some? && hi == maxTs {
      var i :| 0 <= i < |ss| && ss[i].ts == maxTs;
      assert ss'[i].ts == hi;
    }
  }

  lemma StepPreservesInv(acc: Acc, ss: seq<Sample>, x: Sample, next: Acc, ss': seq<Sample>, txnLabel: string)
    requires Inv(acc, ss, txnLabel)
    requires next == Step(acc, x, txnLabel) && ss' == ss + [x]
    ensures Inv(next, ss', txnLabel)
  {
    StepOverall(acc, ss, x, txnLabel);
    StepGroups(acc.byLabel, ss, x);
    if x.name in acc.byLabel {
      StepLabelsKnown(acc.labels, acc.byLabel, ss, x);
    } else {
      StepLabelsFresh(acc.labels, acc.byLabel, ss, x);
    }
    StepSums(acc.labels, acc.byLabel, ss, x);
    StepWindow(acc.minTs, acc.maxTs, ss, x);
  }

  lemma StartInv(acc: Acc, ss: seq<Sample>, txnLabel: string)
    requires acc == Start && |ss| == 0
    ensures Inv(acc, ss, txnLabel)
  {
    assert Elapsed(ss) == [];
    assert GroupOf(ss) == EmptyGroup;
    assert WithLabel(ss, txnLabel) == [];
  }

  /** The fold establishes the invariant for every input. */
  lemma {:induction false} AggregateInv(ss: seq<Sample>, txnLabel: string)
    ensures Inv(Aggregate(ss, txnLabel), ss, txnLabel)
  {
    if |ss| == 0 {
      StartInv(Aggregate(ss, txnLabel), ss, txnLabel);
    } else {
      var p, x := ss[..|ss| - 1], ss[|ss| - 1];
      assert p + [x] == ss;
      AggregateInv(p, txnLabel);
      StepPreservesInv(Aggregate(p, txnLabel), p, x, Aggregate(ss, txnLabel), ss, txnLabel);
    }
  }

  // ---------------------------------------------------------------------
  // What the fold guarantees

  lemma {:induction false} WithLabelObserved(ss: seq<Sample>, l: string)
    requires Observed(ss, l)
    ensures |WithLabel(ss, l)| > 0
  {
    var p := ss[..|ss| - 1];
    if ss[|ss| - 1].name != l {
      var i :| 0 <= i < |ss| && ss[i].name == l;
      assert p[i].name == l;
      WithLabelObserved(p, l);
    }
  }

  /**
   * Count conservation: the overall count is the number of samples, the
   * per-label counts and error counts add up to the overall ones, every
   * group holds one latency per sample and no more errors than samples,
   * and the tracked count is the number of samples with the tracked label.
   */
  lemma AggregateCounts(ss: seq<Sample>, txnLabel: string)
    ensures var a := Aggregate(ss, txnLabel);
      && a.overall.total == |ss|
      && |a.overall.elapsed| == a.overall.total
      && a.overall.errors <= a.overall.total
      && (forall l :: l in a.labels ==> l in a.byLabel)
      && SumTotals(a.labels, a.byLabel) == a.overall.total
      && SumErrors(a.labels, a.byLabel) == a.overall.errors
      && a.txn.total == |WithLabel(ss, txnLabel)|
      && |a.txn.elapsed| == a.txn.total
      && a.txn.errors <= a.txn.total
  {
    AggregateInv(ss, txnLabel);
  }

  /** Every per-label group is non-empty, consistent, and exactly that label's samples. */
  lemma AggregateGroups(ss: seq<Sample>, txnLabel: string, l: string)
    requires l in Aggregate(ss, txnLabel).byLabel
    ensures var g := Aggregate(ss, txnLabel).byLabel[l];
      && g == GroupOf(WithLabel(ss, l))
      && 0 < g.total == |g.elapsed|
      && g.errors <= g.total
  {
    AggregateInv(ss, txnLabel);
    WithLabelObserved(ss, l);
  }

  /** The tracked accumulator is the tracked label's own group, or empty when the label never occurs. */
  lemma AggregateTracked(ss: seq<Sample>, txnLabel: string)
    ensures var a := Aggregate(ss, txnLabel);
      && (a.txn.total > 0 <==> Observed(ss, txnLabel))
      && (txnLabel in a.byLabel ==> a.txn == a.byLabel[txnLabel])
      && (txnLabel !in a.byLabel ==> a.txn == EmptyGroup)
  {
    AggregateInv(ss, txnLabel);
    if Observed(ss, txnLabel) {
      WithLabelObserved(ss, txnLabel);
    } else {
      WithLabelUnobserved(ss, txnLabel);
    }
  }

  /** The label list holds each observed label exactly once. */
  lemma AggregateLabels(ss: seq<Sample>, txnLabel: string)
    ensures var a := Aggregate(ss, txnLabel);
      && NoDup(a.labels)
      && (forall l :: l in a.labels <==> Observed(ss, l))
  {
    AggregateInv(ss, txnLabel);
  }

  /** The label list is in first-seen order, like the insertion order of a Python dict. */
  lemma AggregateLabelOrder(ss: seq<Sample>, txnLabel: string)
    ensures FirstSeenOrder(Aggregate(ss, txnLabel).labels, ss)
  {
    AggregateInv(ss, txnLabel);
  }

  /**
   * The time window is the exact range of the parseable time stamps
   * (missing ones count as 0), absent when there are none, and its start
   * never exceeds its end.
   */
  lemma AggregateWindow(ss: seq<Sample>, txnLabel: string)
    ensures var a := Aggregate(ss, txnLabel);
      && WindowOf(a.minTs, a.maxTs, ss)
      && (a.minTs.Some? ==> a.minTs.value <= a.maxTs.value)
  {
    AggregateInv(ss, txnLabel);
    var a := Aggregate(ss, txnLabel);
    if a.minTs.Some? {
      var i :| 0 <= i < |ss| && ss[i].ts == a.minTs;
    }
  }

  /** The distinct labels of the samples. */
  function LabelSet(ss: seq<Sample>): set<string> {
    set i | 0 <= i < |ss| :: ss[i].name
  }

  lemma {:induction false} NoDupCard(xs: seq<string>)
    requires NoDup(xs)
    ensures |set i | 0 <= i < |xs| :: xs[i]| == |xs|
  {
    if |xs| > 0 {
      var p := xs[..|xs| - 1];
      assert NoDup(p);
      NoDupCard(p);
      var sp := set i | 0 <= i < |p| :: p[i];
      var sx := set i | 0 <= i < |xs| :: xs[i];
      assert sx == sp + {xs[|xs| - 1]};
      assert xs[|xs| - 1] !in sp;
    }
  }

  /** The label list is as long as the number of distinct labels. */
  lemma LabelCount(ss: seq<Sample>, txnLabel: string)
    ensures |Aggregate(ss, txnLabel).labels| == |LabelSet(ss)|
  {
    var a := Aggregate(ss, txnLabel);
    AggregateLabels(ss, txnLabel);
    NoDupCard(a.labels);
    var sl := set i | 0 <= i < |a.labels| :: a.labels[i];
    forall l | l in LabelSet(ss) ensures l in sl {
      var i :| 0 <= i < |ss| && ss[i].name == l;
      assert Observed(ss, l);
      var j :| 0 <= j < |a.labels| && a.labels[j] == l;
    }
    forall l | l in sl ensures l in LabelSet(ss) {
      var j :| 0 <= j < |a.labels| && a.labels[j] == l;
      assert l in a.labels;
      var i :| 0 <= i < |ss| && ss[i].name == l;
    }
    assert sl == LabelSet(ss);
  }
}
