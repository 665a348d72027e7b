/**
 * The statistics bundle of one group of samples (`compute_stats`): mean,
 * p95, p99, error percentage, sample count and error count.
 */
module Stats {
  import opened Wrappers
  import opened Sorting
  import opened Percentiles

  datatype StatBundle = StatBundle(
    avg: real,
    p95: Option<real>,
    p99: Option<real>,
    errPct: real,
    total: nat,
    errors: nat)

  /** Order-free arithmetic mean of a non-empty latency list. */
  function Mean(s: seq<int>): real
    requires |s| > 0
  {
    Sum(s) as real / |s| as real
  }

  /**
   * No bundle for an empty group; otherwise the mean of the latencies (in
   * whatever order they came), p95 and p99 as the interpolated percentiles
   * of the ascending arrangement of the latencies (so p95 <= p99), and the
   * error percentage errors*100/total.
   */
  function ComputeStats(elapsed: seq<int>, total: nat, errors: nat): (r: Option<StatBundle>)
    requires total > 0 ==> |elapsed| > 0
    ensures r.None? <==> total == 0
    ensures r.Some? ==> r.value.total == total && r.value.errors == errors
    ensures r.Some? ==> r.value.avg == Mean(elapsed)
    ensures r.Some? ==> forall v :: Sorted(v) && multiset(v) == multiset(elapsed) ==>
      r.value.p95 == Percentile(v, 95.0) && r.value.p99 == Percentile(v, 99.0)
    ensures r.Some? ==> r.value.p95.Some? && r.value.p99.Some?
    ensures r.Some? ==> r.value.p95.value <= r.value.p99.value
    ensures r.Some? ==> r.value.errPct == ErrorPercent(errors, total)
  {
    if total == 0 then None
    else
      var arr := SortAsc(elapsed);
      var avg := Sum(arr) as real / |arr| as real;
      var p95 := Percentile(arr, 95.0);
      var p99 := Percentile(arr, 99.0);
      PercentileMonotone(arr, 95.0, 99.0);
      SortedArrangement(elapsed);
      var errPct := (errors as real * 100.0) / total as real;
      Some(StatBundle(avg, p95, p99, errPct, total, errors))
  }

  /** Every ascending arrangement of the latencies is the one `SortAsc` produces. */
  lemma SortedArrangement(elapsed: seq<int>)
    ensures forall v :: Sorted(v) && multiset(v) == multiset(elapsed) ==> v == SortAsc(elapsed)
  {
    forall v | Sorted(v) && multiset(v) == multiset(elapsed) ensures v == SortAsc(elapsed) {
      SortedPermutationUnique(v, SortAsc(elapsed));
    }
  }

  /**
   * The error percentage `errors * 100 / total`: the unique q with
   * q * total == errors * 100, inside [0, 100] when errors <= total, zero
   * exactly when there are no errors and 100 exactly when every sample failed.
   */
  function ErrorPercent(errors: nat, total: nat): (q: real)
    requires total > 0
    ensures q * total as real == errors as real * 100.0
    ensures 0.0 <= q
    ensures errors <= total ==> q <= 100.0
    ensures q == 0.0 <==> errors == 0
    ensures q == 100.0 <==> errors == total
  {
    var t := total as real;
    var e := errors as real;
    var q := (e * 100.0) / t;
    DivProperties(e * 100.0, t, 100.0);
    q
  }

  /** `x / t` (t > 0) times t is x, and it is at most `c` exactly when x <= c * t. */
  lemma DivProperties(x: real, t: real, c: real)
    requires t > 0.0
    ensures x / t * t == x
    ensures x / t <= c <==> x <= c * t
    ensures x / t == c <==> x == c * t
    ensures 0.0 <= x ==> 0.0 <= x / t
  {
    var q := x / t;
    assert q * t == x;
    if q <= c {
      MulLe(q, c, t);
    } else {
      MulLe(c, q, t);
      assert c * t != q * t by {
        if c * t == q * t { MulCancel(c, q, t); }
      }
    }
    if q == c {
    } else if x == c * t {
      MulCancel(q, c, t);
    }
  }

  lemma MulLe(a: real, b: real, t: real)
    requires a <= b && t > 0.0
    ensures a * t <= b * t
  {
    assert b * t - a * t == (b - a) * t;
  }

  lemma MulCancel(a: real, b: real, t: real)
    requires t > 0.0 && a * t == b * t
    ensures a == b
  {
    assert (a - b) * t == 0.0;
  }

  /** The mean of values inside [lo, hi] lies inside [lo, hi]. */
  lemma MeanWithin(s: seq<int>, lo: int, hi: int)
    requires |s| > 0
    requires forall i :: 0 <= i < |s| ==> lo <= s[i] <= hi
    ensures lo as real <= Mean(s) <= hi as real
  {
    SumBounds(s, lo, hi);
    var m := |s|;
    var sum := Sum(s);
    var low, high := m * lo, m * hi;
    assert low <= sum <= high;
    IntProductAsReal(lo, m);
    IntProductAsReal(hi, m);
    var n, x := m as real, sum as real;
    assert low as real <= x <= high as real;
    DivProperties(x, n, hi as real);
    DivAtLeast(x, n, lo as real);
  }

  lemma DivAtLeast(x: real, t: real, c: real)
    requires t > 0.0 && c * t <= x
    ensures c <= x / t
  {
    var q := x / t;
    assert q * t == x;
    if q < c {
      MulLt(q, c, t);
      assert false;
    }
  }

  lemma MulLt(a: real, b: real, t: real)
    requires a < b && t > 0.0
    ensures a * t < b * t
  {
    assert b * t - a * t == (b - a) * t;
  }

  lemma IntProductAsReal(a: int, b: int)
    ensures (b * a) as real == a as real * b as real
  {
  }

  /**
   * Every latency statistic of a bundle (mean, p95, p99) lies within any
   * range that contains all of the group's samples.
   */
  lemma StatsWithinRange(elapsed: seq<int>, total: nat, errors: nat, lo: int, hi: int)
    requires total > 0 && |elapsed| > 0
    requires forall i :: 0 <= i < |elapsed| ==> lo <= elapsed[i] <= hi
    ensures lo as real <= ComputeStats(elapsed, total, errors).value.avg <= hi as real
    ensures lo as real <= ComputeStats(elapsed, total, errors).value.p95.value <= hi as real
    ensures lo as real <= ComputeStats(elapsed, total, errors).value.p99.value <= hi as real
  {
    MeanWithin(elapsed, lo, hi);
    var arr := SortAsc(elapsed);
    PercentileBounds(arr, 95.0);
    PercentileBounds(arr, 99.0);
    ElementOfPermutation(elapsed, arr, 0, lo, hi);
    ElementOfPermutation(elapsed, arr, |arr| - 1, lo, hi);
  }

  lemma ElementOfPermutation(s: seq<int>, t: seq<int>, j: int, lo: int, hi: int)
    requires multiset(s) == multiset(t) && 0 <= j < |t|
    requires forall i :: 0 <= i < |s| ==> lo <= s[i] <= hi
    ensures lo <= t[j] <= hi
  {
    assert t[j] in multiset(t);
    assert t[j] in multiset(s);
    var i :| 0 <= i < |s| && s[i] == t[j];
  }
}
