/**
 * The "top slow labels" diagnostics: one row per label with samples, sorted
 * by p95 from slowest to fastest (ties keep first-seen order, as Python's
 * stable `sort(reverse=True)` does), cut to the first N rows.
 */
module Ranking {
  import opened Wrappers
  import opened Sorting
  import opened Percentiles
  import opened Stats
  import opened Aggregation

  /** One diagnostics row: p95, mean, error percentage, sample count and label. */
  datatype LabelRow = LabelRow(p95: real, avg: real, errPct: real, total: nat, name: string)

  /**
   * The row of one non-empty label group: its p95 (0 if undefined), its mean
   * latency and its error percentage (0 for a zero count).
   */
  function RowOf(name: string, g: Group): (r: LabelRow)
    requires |g.elapsed| > 0
    ensures r.name == name && r.total == g.total
    ensures r.avg == Mean(g.elapsed)
    ensures r.p95 == Percentile(SortAsc(g.elapsed), 95.0).value
    ensures g.total > 0 ==> r.errPct == ErrorPercent(g.errors, g.total)
    ensures g.total == 0 ==> r.errPct == 0.0
  {
    var arr := SortAsc(g.elapsed);
    var lp95 := Percentile(arr, 95.0).GetOr(0.0);
    var lavg := Sum(arr) as real / |arr| as real;
    var le := if g.total > 0 then (g.errors as real * 100.0) / g.total as real else 0.0;
    LabelRow(lp95, lavg, le, g.total, name)
  }

  /** Rows for the labels in dictionary order, skipping labels without latencies. */
  function BuildRows(labels: seq<string>, byLabel: map<string, Group>): (r: seq<LabelRow>)
    requires forall i :: 0 <= i < |labels| ==> labels[i] in byLabel
    ensures forall i :: 0 <= i < |r| ==> RowFor(r[i], byLabel)
    ensures (forall i :: 0 <= i < |labels| ==> |byLabel[labels[i]].elapsed| > 0) ==>
              |r| == |labels| && (forall i :: 0 <= i < |r| ==> r[i].name == labels[i])
  {
    if |labels| == 0 then []
    else
      var rest := BuildRows(labels[1..], byLabel);
      var g := byLabel[labels[0]];
      if |g.elapsed| == 0 then rest
      else
        var row := RowOf(labels[0], g);
        assert RowFor(row, byLabel);
        assert forall i :: 0 < i < |rest| + 1 ==> ([row] + rest)[i] == rest[i - 1];
        [row] + rest
  }

  /** `row` is the row computed from the non-empty group of its own label. */
  ghost predicate RowFor(row: LabelRow, byLabel: map<string, Group>) {
    row.name in byLabel && |byLabel[row.name].elapsed| > 0 && row == RowOf(row.name, byLabel[row.name])
  }

  ghost predicate SortedDesc(s: seq<LabelRow>) {
    forall i, j :: 0 <= i < j < |s| ==> s[i].p95 >= s[j].p95
  }

  ghost predicate DistinctNames(s: seq<LabelRow>) {
    forall i, j :: 0 <= i < j < |s| ==> s[i].name != s[j].name
  }

  /** The rows whose p95 equals `k`, in order. */
  function WithKey(s: seq<LabelRow>, k: real): seq<LabelRow> {
    if |s| == 0 then []
    else (if s[0].p95 == k then [s[0]] else []) + WithKey(s[1..], k)
  }

  /** Inserts `x` in front of the first row whose p95 is not larger than its own. */
  function InsertDesc(x: LabelRow, t: seq<LabelRow>): (r: seq<LabelRow>)
    ensures multiset(r) == multiset{x} + multiset(t)
    ensures |r| == |t| + 1
    ensures forall k :: WithKey(r, k) == WithKey([x] + t, k)
  {
    if |t| == 0 || x.p95 >= t[0].p95 then [x] + t
    else
      var rest := InsertDesc(x, t[1..]);
      assert t == [t[0]] + t[1..];
      assert forall k :: WithKey([t[0]] + rest, k) == WithKey([x] + t, k) by {
        forall k ensures WithKey([t[0]] + rest, k) == WithKey([x] + t, k) {
          assert ([t[0]] + rest)[1..] == rest;
          assert ([x] + t[1..])[1..] == t[1..];
          assert ([x] + t)[1..] == t;
        }
      }
      [t[0]] + rest
  }

  lemma {:induction false} InsertDescSorted(x: LabelRow, t: seq<LabelRow>)
    requires SortedDesc(t)
    ensures SortedDesc(InsertDesc(x, t))
  {
    if |t| > 0 && x.p95 < t[0].p95 {
      var rest := InsertDesc(x, t[1..]);
      InsertDescSorted(x, t[1..]);
      forall j | 0 <= j < |rest| ensures t[0].p95 >= rest[j].p95 {
        assert rest[j] in multiset(rest);
        if rest[j] != x {
          assert rest[j] in multiset(t[1..]);
          var m :| 0 <= m < |t[1..]| && t[1..][m] == rest[j];
          assert t[m + 1] == rest[j];
        }
      }
    }
  }

  lemma {:induction false} InsertDescDistinct(x: LabelRow, t: seq<LabelRow>)
    requires DistinctNames(t)
    requires forall i :: 0 <= i < |t| ==> t[i].name != x.name
    ensures DistinctNames(InsertDesc(x, t))
  {
    if |t| > 0 && x.p95 < t[0].p95 {
      var rest := InsertDesc(x, t[1..]);
      InsertDescDistinct(x, t[1..]);
      forall j | 0 <= j < |rest| ensures t[0].name != rest[j].name {
        assert rest[j] in multiset(rest);
        if rest[j] != x {
          assert rest[j] in multiset(t[1..]);
          var m :| 0 <= m < |t[1..]| && t[1..][m] == rest[j];
          assert t[m + 1] == rest[j];
        }
      }
    }
  }

  /**
   * Stable sort by p95, largest first: a permutation, non-increasing in p95,
   * and the rows sharing any one p95 value keep their original order.
   */
  function SortDesc(s: seq<LabelRow>): (r: seq<LabelRow>)
    ensures multiset(r) == multiset(s)
    ensures |r| == |s|
    ensures forall k :: WithKey(r, k) == WithKey(s, k)
  {
    if |s| == 0 then []
    else
      var t := SortDesc(s[1..]);
      assert s == [s[0]] + s[1..];
      assert forall k :: WithKey([s[0]] + t, k) == WithKey(s, k) by {
        forall k ensures WithKey([s[0]] + t, k) == WithKey(s, k) {
          assert ([s[0]] + t)[1..] == t;
        }
      }
      InsertDesc(s[0], t)
  }

  lemma {:induction false} SortDescSorted(s: seq<LabelRow>)
    ensures SortedDesc(SortDesc(s))
  {
    if |s| > 0 {
      SortDescSorted(s[1..]);
      InsertDescSorted(s[0], SortDesc(s[1..]));
    }
  }

  lemma {:induction false} SortDescDistinct(s: seq<LabelRow>)
    ensures DistinctNames(s) ==> DistinctNames(SortDesc(s))
  {
    if |s| > 0 && DistinctNames(s) {
      var t := SortDesc(s[1..]);
      assert DistinctNames(s[1..]);
      SortDescDistinct(s[1..]);
      forall i | 0 <= i < |t| ensures t[i].name != s[0].name {
        assert t[i] in multiset(s[1..]);
        var m :| 0 <= m < |s[1..]| && s[1..][m] == t[i];
        assert s[m + 1] == t[i];
      }
      InsertDescDistinct(s[0], t);
    }
  }

  /** Keeping a prefix keeps a prefix of every key's rows. */
  lemma {:induction false} WithKeyPrefix(s: seq<LabelRow>, n: nat, k: real)
    requires n <= |s|
    ensures WithKey(s[..n], k) <= WithKey(s, k)
  {
    if n > 0 {
      assert s[..n][1..] == s[1..][..n - 1];
      WithKeyPrefix(s[1..], n - 1, k);
    }
  }

  function Min(a: nat, b: nat): nat {
    if a <= b then a else b
  }

  /**
   * The first `n` rows by descending p95: min(n, |rows|) of them, each one of
   * `rows`, non-increasing in p95, no row left out slower than a row kept,
   * and within one p95 value the rows kept are the earliest ones, in order.
   */
  function TopLabels(rows: seq<LabelRow>, n: nat): (r: seq<LabelRow>)
    ensures |r| == Min(n, |rows|)
    ensures forall i :: 0 <= i < |r| ==> r[i] in rows
    ensures SortedDesc(r)
    ensures forall i, j :: 0 <= i < |r| && 0 <= j < |rows| && rows[j] !in r ==> rows[j].p95 <= r[i].p95
    ensures forall k :: WithKey(r, k) <= WithKey(rows, k)
    ensures DistinctNames(rows) ==> DistinctNames(r)
  {
    var sorted := SortDesc(rows);
    var m := Min(n, |rows|);
    SortDescSorted(rows);
    SortDescDistinct(rows);
    TopMembers(rows, sorted, m);
    TopSelection(rows, sorted, m);
    TopStable(rows, sorted, m);
    sorted[..m]
  }

  lemma TopMembers(rows: seq<LabelRow>, sorted: seq<LabelRow>, m: nat)
    requires multiset(sorted) == multiset(rows) && m <= |sorted|
    ensures forall i :: 0 <= i < m ==> sorted[..m][i] in rows
  {
    forall i | 0 <= i < m ensures sorted[..m][i] in rows {
      assert sorted[i] in multiset(sorted);
    }
  }

  lemma TopSelection(rows: seq<LabelRow>, sorted: seq<LabelRow>, m: nat)
    requires multiset(sorted) == multiset(rows) && m <= |sorted| && SortedDesc(sorted)
    ensures forall i, j :: 0 <= i < m && 0 <= j < |rows| && rows[j] !in sorted[..m] ==>
              rows[j].p95 <= sorted[..m][i].p95
  {
    var r := sorted[..m];
    forall i, j | 0 <= i < m && 0 <= j < |rows| && rows[j] !in r ensures rows[j].p95 <= r[i].p95 {
      assert rows[j] in multiset(sorted);
      var t :| 0 <= t < |sorted| && sorted[t] == rows[j];
      assert t >= m;
    }
  }

  lemma TopStable(rows: seq<LabelRow>, sorted: seq<LabelRow>, m: nat)
    requires forall k :: WithKey(sorted, k) == WithKey(rows, k)
    requires m <= |sorted|
    ensures forall k :: WithKey(sorted[..m], k) <= WithKey(rows, k)
  {
    forall k ensures WithKey(sorted[..m], k) <= WithKey(rows, k) {
      WithKeyPrefix(sorted, m, k);
    }
  }
}
