/**
 * The breach evaluator (`get_breaches`): compares a statistics bundle with a
 * p95 limit, a p99 limit and an error-percentage limit and lists every
 * violation, p95 first, then p99, then the error rate.
 */
module Breaches {
  import opened Wrappers
  import opened Stats

  /** One SLA rule set: latency limits in milliseconds and an error-rate limit in percent. */
  datatype Limits = Limits(p95Ms: int, p99Ms: int, errPct: real)

  /** A violated rule, carrying the offending statistic and the limit it exceeded. */
  datatype Breach =
    | P95Over(value: real, limit: int)
    | P99Over(value: real, limit: int)
    | ErrorRateOver(value: real, pctLimit: real)

  /** Position of a rule in the fixed reporting order. */
  function RuleIndex(b: Breach): nat {
    match b
    case P95Over(_, _) => 0
    case P99Over(_, _) => 1
    case ErrorRateOver(_, _) => 2
  }

  /** Strict comparisons: a statistic equal to its limit is compliant, an undefined percentile never breaches. */
  predicate P95Breached(s: StatBundle, lim: Limits) {
    s.p95.Some? && s.p95.value > lim.p95Ms as real
  }

  predicate P99Breached(s: StatBundle, lim: Limits) {
    s.p99.Some? && s.p99.value > lim.p99Ms as real
  }

  predicate ErrorRateBreached(s: StatBundle, lim: Limits) {
    s.errPct > lim.errPct
  }

  /** `b` reports a rule that `s` really violates under `lim`, with the actual values. */
  predicate Justified(b: Breach, s: StatBundle, lim: Limits) {
    match b
    case P95Over(v, l) => P95Breached(s, lim) && v == s.p95.value && l == lim.p95Ms
    case P99Over(v, l) => P99Breached(s, lim) && v == s.p99.value && l == lim.p99Ms
    case ErrorRateOver(v, l) => ErrorRateBreached(s, lim) && v == s.errPct && l == lim.errPct
  }

  /**
   * Every reported breach is a real violation, every violation is reported,
   * and the entries follow the fixed rule order with no rule twice.
   */
  function GetBreaches(s: StatBundle, lim: Limits): (r: seq<Breach>)
    ensures forall i :: 0 <= i < |r| ==> Justified(r[i], s, lim)
    ensures forall i, j :: 0 <= i < j < |r| ==> RuleIndex(r[i]) < RuleIndex(r[j])
    ensures P95Breached(s, lim) ==> P95Over(s.p95.value, lim.p95Ms) in r
    ensures P99Breached(s, lim) ==> P99Over(s.p99.value, lim.p99Ms) in r
    ensures ErrorRateBreached(s, lim) ==> ErrorRateOver(s.errPct, lim.errPct) in r
    ensures |r| <= 3
    ensures r == [] <==> !P95Breached(s, lim) && !P99Breached(s, lim) && !ErrorRateBreached(s, lim)
  {
    var b1 := if P95Breached(s, lim) then [P95Over(s.p95.value, lim.p95Ms)] else [];
    var b2 := if P99Breached(s, lim) then [P99Over(s.p99.value, lim.p99Ms)] else [];
    var b3 := if ErrorRateBreached(s, lim) then [ErrorRateOver(s.errPct, lim.errPct)] else [];
    b1 + b2 + b3
  }

  /** The list with every entry of rule `k` removed. */
  function WithoutRule(bs: seq<Breach>, k: nat): (r: seq<Breach>)
    ensures forall b :: b in r <==> b in bs && RuleIndex(b) != k
  {
    if |bs| == 0 then []
    else if RuleIndex(bs[0]) == k then WithoutRule(bs[1..], k)
    else [bs[0]] + WithoutRule(bs[1..], k)
  }

  lemma {:induction false} WithoutRuleAppend(a: seq<Breach>, b: seq<Breach>, k: nat)
    ensures WithoutRule(a + b, k) == WithoutRule(a, k) + WithoutRule(b, k)
  {
    if |a| == 0 {
      assert a + b == b;
    } else {
      assert (a + b)[0] == a[0];
      assert (a + b)[1..] == a[1..] + b;
      WithoutRuleAppend(a[1..], b, k);
      if RuleIndex(a[0]) != k {
        assert [a[0]] + (WithoutRule(a[1..], k) + WithoutRule(b, k))
            == ([a[0]] + WithoutRule(a[1..], k)) + WithoutRule(b, k);
      }
    }
  }

  /** `GetBreaches` is the concatenation of the three per-rule parts, in rule order. */
  lemma BreachParts(s: StatBundle, lim: Limits, k: nat)
    ensures WithoutRule(GetBreaches(s, lim), k) ==
      WithoutRule(if P95Breached(s, lim) then [P95Over(s.p95.value, lim.p95Ms)] else [], k) +
      WithoutRule(if P99Breached(s, lim) then [P99Over(s.p99.value, lim.p99Ms)] else [], k) +
      WithoutRule(if ErrorRateBreached(s, lim) then [ErrorRateOver(s.errPct, lim.errPct)] else [], k)
  {
    var b1 := if P95Breached(s, lim) then [P95Over(s.p95.value, lim.p95Ms)] else [];
    var b2 := if P99Breached(s, lim) then [P99Over(s.p99.value, lim.p99Ms)] else [];
    var b3 := if ErrorRateBreached(s, lim) then [ErrorRateOver(s.errPct, lim.errPct)] else [];
    WithoutRuleAppend(b1 + b2, b3, k);
    WithoutRuleAppend(b1, b2, k);
  }

  /** Raising the p95 limit to at least the p95 clears that breach and leaves the others as they were. */
  lemma RaiseP95Limit(s: StatBundle, lim: Limits, newLimit: int)
    requires s.p95.Some? ==> s.p95.value <= newLimit as real
    ensures GetBreaches(s, lim.(p95Ms := newLimit)) == WithoutRule(GetBreaches(s, lim), 0)
  {
    BreachParts(s, lim, 0);
  }

  /** Raising the p99 limit to at least the p99 clears that breach and leaves the others as they were. */
  lemma RaiseP99Limit(s: StatBundle, lim: Limits, newLimit: int)
    requires s.p99.Some? ==> s.p99.value <= newLimit as real
    ensures GetBreaches(s, lim.(p99Ms := newLimit)) == WithoutRule(GetBreaches(s, lim), 1)
  {
    BreachParts(s, lim, 1);
  }

  /** Raising the error-rate limit to at least the error rate clears that breach and leaves the others as they were. */
  lemma RaiseErrorLimit(s: StatBundle, lim: Limits, newLimit: real)
    requires s.errPct <= newLimit
    ensures GetBreaches(s, lim.(errPct := newLimit)) == WithoutRule(GetBreaches(s, lim), 2)
  {
    BreachParts(s, lim, 2);
  }

  /**
   * Loosening every limit never adds a breach: each rule violated under the
   * looser limits is violated under the stricter ones too.
   */
  lemma LooserLimitsFewerBreaches(s: StatBundle, strict: Limits, loose: Limits)
    requires strict.p95Ms <= loose.p95Ms && strict.p99Ms <= loose.p99Ms && strict.errPct <= loose.errPct
    ensures |GetBreaches(s, loose)| <= |GetBreaches(s, strict)|
    ensures forall b :: b in GetBreaches(s, loose) ==> RuleIndex(b) in RulesOf(GetBreaches(s, strict))
  {
  }

  function RulesOf(bs: seq<Breach>): (r: set<nat>)
    ensures forall k :: k in r <==> exists b :: b in bs && RuleIndex(b) == k
  {
    set b | b in bs :: RuleIndex(b)
  }
}
