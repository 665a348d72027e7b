/**
 * Ascending sort of latency lists (Python's `sorted(...)` on a list of ints)
 * and the integer sum used by the averages.
 */
module Sorting {

  ghost predicate Sorted(s: seq<int>) {
    forall i, j :: 0 <= i < j < |s| ==> s[i] <= s[j]
  }

  function Sum(s: seq<int>): int {
    if |s| == 0 then 0 else s[0] + Sum(s[1..])
  }

  /** Inserts `x` into the ascending sequence `s`, before the first larger element. */
  function Insert(x: int, s: seq<int>): (r: seq<int>)
    requires Sorted(s)
    ensures Sorted(r)
    ensures multiset(r) == multiset{x} + multiset(s)
  {
    if |s| == 0 then [x]
    else if x <= s[0] then [x] + s
    else
      var t := Insert(x, s[1..]);
      assert s == [s[0]] + s[1..];
      HeadBelowPermutation(s[0], x, s[1..], t);
      [s[0]] + t
  }

  /** A lower bound of `x` and of every element of `s` bounds every element of a permutation of `x` and `s`. */
  lemma HeadBelowPermutation(h: int, x: int, s: seq<int>, t: seq<int>)
    requires h <= x
    requires forall k :: 0 <= k < |s| ==> h <= s[k]
    requires multiset(t) == multiset{x} + multiset(s)
    ensures forall k :: 0 <= k < |t| ==> h <= t[k]
  {
    forall k | 0 <= k < |t| ensures h <= t[k] {
      assert t[k] in multiset(t);
      if t[k] != x {
        assert t[k] in multiset(s);
        var j :| 0 <= j < |s| && s[j] == t[k];
      }
    }
  }

  lemma {:induction false} SumInsert(x: int, s: seq<int>)
    requires Sorted(s)
    ensures Sum(Insert(x, s)) == x + Sum(s)
  {
    if |s| > 0 && x > s[0] {
      SumInsert(x, s[1..]);
    }
  }

  /** Insertion sort: the result is ascending, a permutation of `s`, with the same sum. */
  function SortAsc(s: seq<int>): (r: seq<int>)
    ensures Sorted(r)
    ensures multiset(r) == multiset(s)
    ensures |r| == |s|
    ensures Sum(r) == Sum(s)
  {
    if |s| == 0 then []
    else
      assert s == [s[0]] + s[1..];
      var t := SortAsc(s[1..]);
      SumInsert(s[0], t);
      Insert(s[0], t)
  }

  /** Sorting leaves an already ascending sequence unchanged. */
  lemma {:induction false} SortAscOfSorted(s: seq<int>)
    requires Sorted(s)
    ensures SortAsc(s) == s
  {
    if |s| > 0 {
      SortAscOfSorted(s[1..]);
      assert s == [s[0]] + s[1..];
    }
  }

  /** An ascending arrangement of a multiset is unique: two sorted permutations of each other are equal. */
  lemma {:induction false} SortedPermutationUnique(v: seq<int>, w: seq<int>)
    requires Sorted(v) && Sorted(w)
    requires multiset(v) == multiset(w)
    ensures v == w
  {
    if |v| == 0 {
      assert |w| == |multiset(w)| == 0;
    } else {
      assert |w| == |multiset(w)| == |multiset(v)| == |v|;
      HeadIsLeast(v, w[0]);
      HeadIsLeast(w, v[0]);
      TailPermutation(v, w);
      SortedPermutationUnique(v[1..], w[1..]);
      assert v == [v[0]] + v[1..];
      assert w == [w[0]] + w[1..];
    }
  }

  /** The head of a non-empty ascending sequence is at most any of its elements. */
  lemma HeadIsLeast(v: seq<int>, x: int)
    requires Sorted(v) && x in multiset(v)
    ensures |v| > 0 && v[0] <= x
  {
    var i :| 0 <= i < |v| && v[i] == x;
  }

  /** Two permutations of each other with the same head have permuted tails. */
  lemma TailPermutation(v: seq<int>, w: seq<int>)
    requires |v| > 0 && |w| > 0 && v[0] == w[0]
    requires multiset(v) == multiset(w)
    ensures multiset(v[1..]) == multiset(w[1..])
  {
    assert v == [v[0]] + v[1..];
    assert w == [w[0]] + w[1..];
    calc {
      multiset(v[1..]);
      multiset(v) - multiset{v[0]};
      multiset(w) - multiset{w[0]};
      multiset(w[1..]);
    }
  }

  /** The sum of values that all lie in [lo, hi] lies in [|s|*lo, |s|*hi]. */
  lemma {:induction false} SumBounds(s: seq<int>, lo: int, hi: int)
    requires forall i :: 0 <= i < |s| ==> lo <= s[i] <= hi
    ensures |s| * lo <= Sum(s) <= |s| * hi
  {
    if |s| > 0 {
      SumBounds(s[1..], lo, hi);
    }
  }
}
