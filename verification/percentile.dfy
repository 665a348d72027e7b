/**
 * The percentile estimator of scripts/check_sla_from_jtl.py: linear
 * interpolation between the order statistics around rank k = (n-1)*p/100.
 * Arithmetic is exact (`real`); IEEE rounding is not modelled.
 */
module Percentiles {
  import opened Wrappers
  import opened Sorting

  /** Python's `math.floor` on a real. */
  function Floor(x: real): (f: int)
    ensures f as real <= x < f as real + 1.0
  {
    x.Floor
  }

  /** Python's `math.ceil` on a real. */
  function Ceil(x: real): (c: int)
    ensures x <= c as real < x + 1.0
  {
    if x == x.Floor as real then x.Floor else x.Floor + 1
  }

  /** The fractional rank `(n - 1) * (p / 100)` of percentile `p` among `n` values. */
  function Rank(n: nat, p: real): (k: real)
    requires n > 0 && 0.0 <= p <= 100.0
    ensures 0.0 <= k <= (n - 1) as real
  {
    (n - 1) as real * (p / 100.0)
  }

  /**
   * Percentile `p` of `v` (which callers pass sorted ascending): None for an
   * empty list, the order statistic itself when the rank is integral, else the
   * weighted mix of the two neighbouring order statistics.
   */
  function Percentile(v: seq<int>, p: real): (r: Option<real>)
    requires 0.0 <= p <= 100.0
    ensures r.None? <==> |v| == 0
    ensures |v| > 0 && Rank(|v|, p) == Floor(Rank(|v|, p)) as real ==>
              r == Some(v[Floor(Rank(|v|, p))] as real)
    ensures |v| == 1 ==> r == Some(v[0] as real)
  {
    if |v| == 0 then None
    else
      var k := Rank(|v|, p);
      var f := Floor(k);
      var c := Ceil(k);
      if f == c then Some(v[f] as real)
      else Some(Mix(v[f] as real, c as real - k, v[c] as real, k - f as real))
  }

  /** The weighted mix `a * wa + b * wb` of two order statistics. */
  function Mix(a: real, wa: real, b: real, wb: real): real {
    a * wa + b * wb
  }

  /**
   * On sorted input the result lies between the two order statistics
   * around the rank, and so between the smallest and the largest value.
   */
  lemma PercentileBounds(v: seq<int>, p: real)
    requires Sorted(v) && |v| > 0 && 0.0 <= p <= 100.0
    ensures 0 <= Floor(Rank(|v|, p)) <= Ceil(Rank(|v|, p)) < |v|
    ensures v[Floor(Rank(|v|, p))] as real <= Percentile(v, p).value <= v[Ceil(Rank(|v|, p))] as real
    ensures v[0] as real <= Percentile(v, p).value <= v[|v| - 1] as real
  {
    var k := Rank(|v|, p);
    var f := Floor(k);
    var c := Ceil(k);
    if f != c {
      var a, b := v[f] as real, v[c] as real;
      var wa, wb := c as real - k, k - f as real;
      assert Percentile(v, p) == Some(Mix(a, wa, b, wb));
      MixBetween(a, b, wa, wb);
    }
  }

  /** Non-negative weights summing to one keep a mix of `a <= b` inside [a, b]. */
  lemma MixBetween(a: real, b: real, wa: real, wb: real)
    requires a <= b && 0.0 <= wa && 0.0 <= wb && wa + wb == 1.0
    ensures a <= Mix(a, wa, b, wb) <= b
  {
    var d := b - a;
    assert Mix(a, wa, b, wb) == a + d * wb by {
      assert a * wa == a * (1.0 - wb) == a - a * wb;
    }
    MulNonNegative(d, wb);
    MulNonNegative(d, wa);
    assert d * wb + d * wa == d * (wa + wb) == d;
  }

  lemma MulNonNegative(x: real, y: real)
    requires 0.0 <= x && 0.0 <= y
    ensures 0.0 <= x * y
  {
  }

  /** Moving the rank right within one unit interval does not decrease the mix. */
  lemma MixMonotone(a: real, b: real, f: real, k1: real, k2: real)
    requires a <= b && f <= k1 <= k2 <= f + 1.0
    ensures Mix(a, f + 1.0 - k1, b, k1 - f) <= Mix(a, f + 1.0 - k2, b, k2 - f)
  {
    var lhs := Mix(a, f + 1.0 - k1, b, k1 - f);
    var rhs := Mix(a, f + 1.0 - k2, b, k2 - f);
    assert rhs - lhs == (b - a) * (k2 - k1);
    assert (b - a) * (k2 - k1) >= 0.0;
  }

  /** On sorted input the percentile is monotone in `p`; in particular p95 <= p99. */
  lemma PercentileMonotone(v: seq<int>, p: real, q: real)
    requires Sorted(v) && |v| > 0
    requires 0.0 <= p <= q <= 100.0
    ensures Percentile(v, p).value <= Percentile(v, q).value
  {
    var n := |v|;
    var k1, k2 := Rank(n, p), Rank(n, q);
    RankMonotone(n, p, q);
    var f1, c1 := Floor(k1), Ceil(k1);
    var f2, c2 := Floor(k2), Ceil(k2);
    PercentileBounds(v, p);
    PercentileBounds(v, q);
    if c1 <= f2 {
      assert v[c1] <= v[f2];
    } else {
      // Both ranks fall strictly inside the same unit interval [f1, f1 + 1].
      assert f1 == f2 && c1 == f1 + 1 && c2 == c1;
      var a, b := v[f1] as real, v[c1] as real;
      var fr := f1 as real;
      assert c1 as real == fr + 1.0;
      assert Percentile(v, p) == Some(Mix(a, fr + 1.0 - k1, b, k1 - fr));
      assert Percentile(v, q) == Some(Mix(a, fr + 1.0 - k2, b, k2 - fr));
      MixMonotone(a, b, fr, k1, k2);
    }
  }

  lemma RankMonotone(n: nat, p: real, q: real)
    requires n > 0 && 0.0 <= p <= q <= 100.0
    ensures Rank(n, p) <= Rank(n, q)
  {
    var d := (n - 1) as real;
    assert d >= 0.0;
    var a, b := p / 100.0, q / 100.0;
    assert a <= b;
    MulMonotone(d, a, b);
    assert Rank(n, p) == d * a;
    assert Rank(n, q) == d * b;
  }

  lemma MulMonotone(d: real, a: real, b: real)
    requires 0.0 <= d && a <= b
    ensures d * a <= d * b
  {
    assert d * b - d * a == d * (b - a);
    MulNonNegative(d, b - a);
  }
}
