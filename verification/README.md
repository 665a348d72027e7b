# SLA evaluation engine of `check_sla_from_jtl.py`, in Dafny

The script reads a JMeter results log (JTL, CSV) and folds it into latency lists and counters:

- for the whole run;
- for each label;
- for one tracked transaction label.

It then reports, for the whole traffic and for the tracked label:

- the mean, p95 and p99 latency (linearly interpolated percentiles);
- the error percentage;
- the SLA rules each of these breaches.

It also reports the execution window and throughput, and the five labels with the highest p95. It posts all of this to Slack. It exits with:

- 1 for an empty log;
- 2 if any rule is breached;
- 0 otherwise.

This project models that engine with exact arithmetic and proves what each step promises.

| file | module | what it holds |
|---|---|---|
| `wrappers.dfy` | `Wrappers` | `Option`, Python's `None` |
| `sorting.dfy` | `Sorting` | `sorted()` on integer lists, as an insertion sort, and `sum()` |
| `percentile.dfy` | `Percentiles` | `percentile`: rank, floor/ceil, interpolation |
| `stats.dfy` | `Stats` | `compute_stats` and the error percentage |
| `breaches.dfy` | `Breaches` | `get_breaches`, with one constructor per rule instead of a message string |
| `samples.dfy` | `Samples` | how one CSV row becomes a sample (elapsed and time stamp fall-backs) |
| `aggregate.dfy` | `Aggregation` | the row loop as a left fold, with its invariant and the independent definitions it is proved against |
| `ranking.dfy` | `Ranking` | the per-label diagnostics rows and the stable top-N ranking by descending p95 |
| `verdict.dfy` | `Verdict` | the rest of `main`: empty-log exit, tracked label, window and throughput, top labels, quality-gate exit code |
| `scenarios.dfy` | `Scenarios` | worked examples on small inputs |

Modelling choices:

- **Numbers.** Latencies and time stamps are `int`; the script truncates them with `int(float(...))`. Every derived quantity is an exact `real`: averages, percentiles, percentages, durations, rates.
- **Floor and ceiling.** `math.floor` and `math.ceil` are `Floor` and `Ceil` on reals.
- **Sample order.** The fold runs over the samples in log order.
- **Per-label state.** The two `defaultdict`s become one map `byLabel` from label to `Group(elapsed, total, errors)`.
- **Label order.** Python dicts iterate in insertion order, so the accumulator also keeps `labels`, the labels in first-seen order.
- **Configuration.** The SLA rules hard-coded in `main` are a `Config` value. `Verdict.SourceConfig` holds the script's own values: 250 ms, 500 ms, 1.0 %, `"Transaction Controller_Home"`, top 5.
- **Rows and samples.** `Samples.Ingest` turns a parsed row into a sample; `Verdict.Evaluate` takes the samples.

For latencies 100, 200, 300 the rank is 2 × 0.95 = 1.9, so p95 = 200 × 0.1 + 300 × 0.9 = **290**. `Scenarios.ThreeLatencies` and `Scenarios.ThreeSamplesBreachP95` prove 290 together with the resulting single p95 breach and exit code 2.

## Model

| member | source | states |
|---|---|---|
| Percentiles.Rank | scripts/check_sla_from_jtl.py:11 | the interpolation rank `(n-1)·p/100` lies in `[0, n-1]` for `0 <= p <= 100`, so both neighbouring indices exist |
| Percentiles.Percentile | scripts/check_sla_from_jtl.py:8-16 | None exactly for an empty list; at an integral rank it is the element at that rank; a one-element list gives that element for every p |
| Percentiles.PercentileBounds | scripts/check_sla_from_jtl.py:12-16 | on a sorted list the interpolated value lies between its floor and ceiling neighbours, hence between the minimum and maximum |
| Percentiles.PercentileMonotone | scripts/check_sla_from_jtl.py:8-16 | on a sorted list a higher percentile is never smaller (p95 <= p99) |
| Sorting.SortAsc | scripts/check_sla_from_jtl.py:33 | the result is sorted, a permutation of the input (same multiset), and has the same length and sum |
| Sorting.SortAscOfSorted | scripts/check_sla_from_jtl.py:33 | sorting an already sorted list leaves it unchanged |
| Sorting.SortedPermutationUnique | scripts/check_sla_from_jtl.py:33 | two ascending sequences holding the same multiset are equal, so the sorted list the percentiles read is fixed by the latencies alone |
| Stats.SortedArrangement | scripts/check_sla_from_jtl.py:33 | every ascending arrangement of the latencies is the insertion sort's result |
| Sorting.SumBounds | scripts/check_sla_from_jtl.py:34 | a sum of n values within `[lo, hi]` lies within `[n·lo, n·hi]` |
| Stats.ComputeStats | scripts/check_sla_from_jtl.py:30-38 | None exactly when total is 0; otherwise carries total and errors through, the mean of the latencies, p95 and p99 as `Percentile(v, 95)` and `Percentile(v, 99)` for any ascending arrangement `v` of the latencies (both present, p95 <= p99), and the error percentage |
| Stats.ErrorPercent | scripts/check_sla_from_jtl.py:37 | `pct · total = errors · 100`; it is 0 exactly without errors, 100 exactly when every sample failed, and at most 100 when errors <= total |
| Stats.MeanWithin | scripts/check_sla_from_jtl.py:34 | the mean of values within `[lo, hi]` lies within `[lo, hi]` |
| Stats.StatsWithinRange | scripts/check_sla_from_jtl.py:30-38 | if every latency lies in `[lo, hi]`, so do avg, p95 and p99 |
| Breaches.GetBreaches | scripts/check_sla_from_jtl.py:40-48 | each reported breach is justified by its rule (strictly over the limit, a missing percentile never breaches); each violated rule is reported; rules appear in p95, p99, error order, at most once each; empty exactly when no rule is violated |
| Breaches.RaiseP95Limit | scripts/check_sla_from_jtl.py:42-43 | raising the p95 limit to at least the p95 removes exactly the p95 breach and leaves the others as they were |
| Breaches.RaiseP99Limit | scripts/check_sla_from_jtl.py:44-45 | raising the p99 limit to at least the p99 removes exactly the p99 breach and leaves the others as they were |
| Breaches.RaiseErrorLimit | scripts/check_sla_from_jtl.py:46-47 | raising the error limit to at least the error percentage removes exactly the error breach and leaves the others as they were |
| Breaches.LooserLimitsFewerBreaches | scripts/check_sla_from_jtl.py:40-48 | with every limit at least as loose, there are no more breaches, and each breached rule is breached under the stricter limits too |
| Samples.Ingest | scripts/check_sla_from_jtl.py:96-111 | a missing or unparseable elapsed counts as 0; a missing time stamp counts as 0 and joins the window; only an unparseable time stamp is left out of it |
| Aggregation.AggregateInv | scripts/check_sla_from_jtl.py:95-127 | after the loop over any prefix of the log, the accumulator holds exactly the overall group, the per-label groups, the first-seen label list, the tracked group and the time-stamp extremes of that prefix |
| Aggregation.AggregateCounts | scripts/check_sla_from_jtl.py:113-127 | the overall total counts every sample and equals the length of its latency list; errors never exceed totals; the per-label totals and errors add up to the overall ones; the tracked total counts the tracked label's samples |
| Aggregation.AggregateGroups | scripts/check_sla_from_jtl.py:116-121 | each label's group is built from exactly that label's samples, in log order, is non-empty, and has errors <= total |
| Aggregation.AggregateTracked | scripts/check_sla_from_jtl.py:123-127 | the tracked group is non-empty exactly when the tracked label occurs, and then equals that label's own group; otherwise it is empty |
| Aggregation.AggregateLabels | scripts/check_sla_from_jtl.py:116-117 | the label list has no duplicates and holds exactly the labels that occur in the log |
| Aggregation.AggregateLabelOrder | scripts/check_sla_from_jtl.py:116-117 | the label list is in order of first occurrence, like the iteration order of the `defaultdict` |
| Aggregation.AggregateWindow | scripts/check_sla_from_jtl.py:104-111 | the running minimum and maximum time stamps are None exactly when no sample has a parseable time stamp, and otherwise are attained by a sample and bound every parseable time stamp |
| Aggregation.LabelCount | scripts/check_sla_from_jtl.py:164 | the label list has as many entries as there are distinct labels in the log |
| Aggregation.WithLabelObserved | scripts/check_sla_from_jtl.py:123-125 | a label that occurs has at least one sample |
| Ranking.RowOf | scripts/check_sla_from_jtl.py:167-173 | a label's row carries its name and sample count, the mean and p95 of its sorted latencies, and its error percentage |
| Ranking.BuildRows | scripts/check_sla_from_jtl.py:163-173 | every row is the row of its own label's group; with all groups non-empty there is one row per label, in label order |
| Ranking.SortDesc | scripts/check_sla_from_jtl.py:175 | the result is a permutation of the rows, and rows with equal p95 keep their relative order (stability) |
| Ranking.SortDescSorted | scripts/check_sla_from_jtl.py:175 | the result is ordered by non-increasing p95 |
| Ranking.SortDescDistinct | scripts/check_sla_from_jtl.py:175 | sorting keeps label names distinct |
| Ranking.TopLabels | scripts/check_sla_from_jtl.py:175-176 | returns min(N, number of rows) of the rows, ordered by non-increasing p95; no unlisted row has a higher p95 than a listed one; among rows with equal p95 the listed ones come first, in their original order; distinct names stay distinct |
| Verdict.Throughput | scripts/check_sla_from_jtl.py:150-156 | a window exists exactly when both extremes are known and the end is strictly later; its duration in seconds is the span divided by 1000; the rate times the duration is the sample count |
| Verdict.Evaluate | scripts/check_sla_from_jtl.py:129-131 | the run stops with no statistics exactly when the log has no samples |
| Verdict.EvaluateAssembles | scripts/check_sla_from_jtl.py:129-176 | a non-empty run's report is computed from the loop's accumulator, whose overall group is non-empty |
| Verdict.ExitCode | scripts/check_sla_from_jtl.py:178-205 | 1 exactly for an empty log, 2 exactly when the overall or tracked breach list is non-empty, 0 exactly otherwise |
| Verdict.EvaluateOverall | scripts/check_sla_from_jtl.py:133-134 | the overall bundle is computed from all samples' latencies and failures, with total = number of samples, and its breaches are judged against the overall rules |
| Verdict.EvaluateTracked | scripts/check_sla_from_jtl.py:136-140 | the tracked bundle exists exactly when the tracked label occurs and is then computed from exactly that label's samples; otherwise there are no tracked breaches |
| Verdict.EvaluateWindow | scripts/check_sla_from_jtl.py:150-156 | a window and throughput are reported exactly when two parseable time stamps differ |
| Verdict.EvaluateRanking | scripts/check_sla_from_jtl.py:163-176 | the top list has min(topN, number of distinct labels) rows (5 in `SourceConfig`) with distinct labels, ordered by non-increasing p95 |
| Verdict.EvaluateRankingRows | scripts/check_sla_from_jtl.py:164-173 | each listed row belongs to a label that occurs and is computed from that label's samples alone |
| Verdict.EvaluateRankingSelection | scripts/check_sla_from_jtl.py:175-176 | a label that occurs but is not listed has a p95 no higher than any listed label's |
| Verdict.EvaluateRankingStable | scripts/check_sla_from_jtl.py:175 | the label rows are in first-seen order, and among labels with equal p95 the listed ones are the first of them, in that order |
| Verdict.TopRowFor | scripts/check_sla_from_jtl.py:164-176 | every listed row is the row of its own label's group |
| Verdict.RowsComplete | scripts/check_sla_from_jtl.py:164-166 | no label's latency list is empty, so no label is skipped: one row per label, in label order, with distinct names |
| Verdict.ExitCodeDecision | scripts/check_sla_from_jtl.py:178-205 | for a non-empty log the exit code is 2 exactly when the whole traffic violates an overall rule, or the tracked label has samples that violate a tracked rule |
| Verdict.ExitCodeOverall | scripts/check_sla_from_jtl.py:133-178 | the exit code is 2 exactly when the whole traffic violates an overall rule or there is a tracked breach |
| Verdict.ExitCodeTracked | scripts/check_sla_from_jtl.py:136-140 | tracked breaches exist exactly when the tracked label has samples whose statistics violate a tracked rule |
| Verdict.ExitCodeEmpty | scripts/check_sla_from_jtl.py:129-131 | exit code 1 exactly for an empty log |
| Verdict.GateOf | scripts/check_sla_from_jtl.py:178 | for a report whose breach lists come from the rules, a breach is flagged exactly when a bundle violates one of its rules |
| Scenarios.PercentileOfFive | scripts/check_sla_from_jtl.py:8-16 | on 10, 20, 30, 40, 50 the median is 30 and p95 is 48 |
| Scenarios.ThreeLatencies | scripts/check_sla_from_jtl.py:30-38 | latencies 100, 200, 300 without failures give mean 200, p95 290, p99 298, 0 % errors |
| Scenarios.ThreeLatenciesBreachP95 | scripts/check_sla_from_jtl.py:40-48 | that bundle breaches only the 250 ms p95 rule |
| Scenarios.ThreeSamplesBreachP95 | scripts/check_sla_from_jtl.py:95-205 | three successful untracked samples of 100, 200, 300 ms with unparseable time stamps: that bundle, one p95 breach, no tracked bundle, no window, exit code 2 |
| Scenarios.ThreeSamplesColumns | scripts/check_sla_from_jtl.py:113-127 | for those samples the latency column is 100, 200, 300, there are no failures, and the tracked label does not occur |
| Scenarios.SameInstantNoWindow | scripts/check_sla_from_jtl.py:154 | samples whose time stamps are all the same give no window and no throughput |
| Scenarios.EmptyLogExitsOne | scripts/check_sla_from_jtl.py:129-131 | an empty log yields no report and exit code 1 |

## Left out

- **Slack.** Posting to Slack (`slack_post`, lines 18-28) and all message text, including breach strings, `fmt_ist` and number formatting, are I/O and presentation. Breaches are constructors carrying the value and the limit.
- **Command line.** Argument handling and the usage exit (lines 57-64) are not modelled.
- **Uncaught exceptions.** The top-level handler that turns any exception into exit code 2 (lines 207-212), for example a failed Slack post, is not modelled. The gate is modelled only for runs that complete.
- **CSV reading and text cleanup.** Opening and reading the CSV is left out, as is cleaning up cell text: stripping the label, lower-casing `success`, and parsing numbers with `float` and truncating them with `int`. A row arrives already parsed into `Samples.Row`, with a boolean `success` and each numeric cell `Absent`, `Num(n)` or `Garbled`.
- **Floating point.** IEEE floating point is not modelled. Ranks, interpolation, means and percentages are exact reals, so a rank such as `(n-1)·0.95` that is integral in exact arithmetic is treated as integral even where a binary float would land just beside it.
- **Percentile range.** `Percentiles.Percentile` requires `0 <= p <= 100`. The script only calls it with 95 and 99. For other p, Python's result depends on n: a one-element list returns its element; for longer lists an out-of-range rank either raises IndexError or, for some negative p, reads elements counted from the end. None of this is modelled.
- **Unreachable rate branch.** `Verdict.Throughput` keeps the `duration_s > 0` test on the rate. It cannot fail inside the window guard, and the contract says the rate is always present.
- **Zero-percentile fallback.** `percentile(...) or 0` for a label's p95 (line 168) is modelled as the percentile of a non-empty list. A list is never empty there, and a zero p95 stays zero.
- **Slack panel upload.** `upload_panels_to_slack.py` is a separate Slack uploader and is not part of this model.
