/**
  The nearest-rank percentile of a non-empty list of durations: sort the
  list ascending and take the element at rank ceil(p / 100 * n), counting
  ranks from 1. The ceiling is computed on integers, (p * n + 99) / 100.
*/
module Percentiles {
  import opened Sorting

  /** The 1-based rank that the nearest-rank method picks: the ceiling of p * n / 100. */
  function NearestRank(p: int, n: nat): (k: nat)
    requires 1 <= p <= 100 && n > 0
    ensures 1 <= k <= n
    ensures (k - 1) * 100 < p * n <= k * 100
  {
    var m := p * n;
    assert 1 <= m <= 100 * n;
    (m + 99) / 100
  }

  /** The value at rank `NearestRank(p, |values|)` of the ascending-sorted list. */
  function NearestRankValue(values: seq<int>, p: int): (r: int)
    requires |values| > 0 && 1 <= p <= 100
    ensures r in values
  {
    var sorted := SortAsc(values);
    var r := sorted[NearestRank(p, |values|) - 1];
    assert r in multiset(sorted);
    r
  }

  /** How many elements of `s` are at most `v`. */
  function CountAtMost(s: seq<int>, v: int): (c: nat)
    ensures c <= |s|
  {
    if s == [] then 0 else (if s[0] <= v then 1 else 0) + CountAtMost(s[1..], v)
  }

  /**
    The nearest-rank definition: the smallest value of the list such that
    at least p% of the list is at most it. So `r` is a value of the list,
    at least p% of the list is at most `r`, and no smaller value of the list
    has that property.
  */
  ghost predicate IsNearestRankPercentile(values: seq<int>, p: int, r: int) {
    && r in values
    && 100 * CountAtMost(values, r) >= p * |values|
    && forall v :: v in values && v < r ==> 100 * CountAtMost(values, v) < p * |values|
  }

  lemma {:induction false} CountAtMostInsert(x: int, s: seq<int>, v: int)
    requires Sorted(s)
    ensures CountAtMost(Insert(x, s), v) == CountAtMost(s, v) + (if x <= v then 1 else 0)
  {
    if s == [] || x <= s[0] {
      assert ([x] + s)[1..] == s;
    } else {
      SortedTail(s);
      CountAtMostInsert(x, s[1..], v);
      assert ([s[0]] + Insert(x, s[1..]))[1..] == Insert(x, s[1..]);
    }
  }

  /** Sorting does not change how many elements are at most `v`. */
  lemma {:induction false} CountAtMostSortAsc(s: seq<int>, v: int)
    ensures CountAtMost(SortAsc(s), v) == CountAtMost(s, v)
  {
    if s != [] {
      CountAtMostSortAsc(s[1..], v);
      CountAtMostInsert(s[0], SortAsc(s[1..]), v);
    }
  }

  /** When the first `m` elements are at most `v`, at least `m` elements are. */
  lemma {:induction false} CountAtLeastPrefix(t: seq<int>, m: nat, v: int)
    requires m <= |t|
    requires forall i :: 0 <= i < m ==> t[i] <= v
    ensures CountAtMost(t, v) >= m
  {
    if m > 0 {
      CountAtLeastPrefix(t[1..], m - 1, v);
    }
  }

  /** When every element from position `m` on exceeds `v`, at most `m` elements are at most `v`. */
  lemma {:induction false} CountAtMostPrefix(t: seq<int>, m: nat, v: int)
    requires m <= |t|
    requires forall i :: m <= i < |t| ==> t[i] > v
    ensures CountAtMost(t, v) <= m
  {
    if t != [] {
      if m == 0 {
        CountAtMostPrefix(t[1..], 0, v);
        assert t[0] > v;
      } else {
        CountAtMostPrefix(t[1..], m - 1, v);
      }
    }
  }

  /** `NearestRankValue` meets the nearest-rank definition `IsNearestRankPercentile`. */
  lemma PercentileMeetsRank(values: seq<int>, p: int)
    requires |values| > 0 && 1 <= p <= 100
    ensures IsNearestRankPercentile(values, p, NearestRankValue(values, p))
  {
    var sorted := SortAsc(values);
    var n := |values|;
    var k := NearestRank(p, n);
    var best := sorted[k - 1];
    RankedValueCounts(sorted, k, best);
    CountAtMostSortAsc(values, best);
    forall v | v in values && v < best
      ensures 100 * CountAtMost(values, v) < p * n
    {
      RankedValueCounts(sorted, k, v);
      CountAtMostSortAsc(values, v);
    }
  }

  /**
    In a sorted list, the value at 1-based rank `k` has at least `k` elements
    at most it, and any smaller value has fewer than `k`.
  */
  lemma RankedValueCounts(sorted: seq<int>, k: nat, v: int)
    requires Sorted(sorted) && 1 <= k <= |sorted|
    ensures v == sorted[k - 1] ==> CountAtMost(sorted, v) >= k
    ensures v < sorted[k - 1] ==> CountAtMost(sorted, v) <= k - 1
  {
    if v == sorted[k - 1] {
      CountAtLeastPrefix(sorted, k, v);
    }
    if v < sorted[k - 1] {
      CountAtMostPrefix(sorted, k - 1, v);
    }
  }

  /** At most one value meets that definition. */
  lemma NearestRankPercentileUnique(values: seq<int>, p: int, r: int, r': int)
    requires IsNearestRankPercentile(values, p, r)
    requires IsNearestRankPercentile(values, p, r')
    ensures r == r'
  {
  }

  /** `NearestRankValue` is exactly the nearest-rank percentile of `IsNearestRankPercentile`, and the only one. */
  lemma PercentileIsNearestRank(values: seq<int>, p: int, r: int)
    requires |values| > 0 && 1 <= p <= 100
    ensures IsNearestRankPercentile(values, p, r) <==> r == NearestRankValue(values, p)
  {
    PercentileMeetsRank(values, p);
    if IsNearestRankPercentile(values, p, r) {
      NearestRankPercentileUnique(values, p, r, NearestRankValue(values, p));
    }
  }

  /** A higher percentage never selects a smaller value: p50 <= p75 <= ... <= p100. */
  lemma PercentileMonotone(values: seq<int>, p: int, q: int)
    requires |values| > 0 && 1 <= p <= q <= 100
    ensures NearestRankValue(values, p) <= NearestRankValue(values, q)
  {
    var n := |values|;
    ScaleMonotone(p, q, n);
    var kp, kq := NearestRank(p, n), NearestRank(q, n);
    assert kp <= kq;
    var sorted := SortAsc(values);
    assert sorted[kp - 1] <= sorted[kq - 1];
  }

  lemma ScaleMonotone(p: int, q: int, n: nat)
    requires p <= q
    ensures p * n <= q * n
  {
  }

  /** The 100th percentile is the largest value of the list. */
  lemma PercentileAt100IsMax(values: seq<int>)
    requires |values| > 0
    ensures forall i :: 0 <= i < |values| ==> values[i] <= NearestRankValue(values, 100)
  {
    var sorted := SortAsc(values);
    var n := |values|;
    assert NearestRank(100, n) == n;
    forall i | 0 <= i < n ensures values[i] <= sorted[n - 1] {
      assert values[i] in multiset(sorted);
      var j :| 0 <= j < n && sorted[j] == values[i];
    }
  }

  /** The percentile does not depend on the order of the list. */
  lemma PercentileOfPermutation(values: seq<int>, others: seq<int>, p: int)
    requires |values| > 0 && 1 <= p <= 100
    requires multiset(values) == multiset(others)
    ensures |others| == |values|
    ensures NearestRankValue(values, p) == NearestRankValue(others, p)
  {
    assert |values| == |multiset(values)| == |multiset(others)| == |others|;
    SortAscOfPermutation(values, others);
    var k := NearestRank(p, |values|);
    assert NearestRankValue(values, p) == SortAsc(values)[k - 1];
    assert NearestRankValue(others, p) == SortAsc(others)[k - 1];
  }

  /** The ranks the report's percentiles pick among four values. */
  lemma RanksOfFourLow()
    ensures NearestRank(100, 4) == 4 && NearestRank(50, 4) == 2 && NearestRank(75, 4) == 3
  {
  }

  lemma RanksOfFourHigh()
    ensures NearestRank(90, 4) == 4 && NearestRank(95, 4) == 4 && NearestRank(99, 4) == 4
  {
  }

  /** The ranks the report's percentiles pick among three values. */
  lemma RanksOfThreeLow()
    ensures NearestRank(100, 3) == 3 && NearestRank(50, 3) == 2 && NearestRank(75, 3) == 3
  {
  }

  lemma RanksOfThreeHigh()
    ensures NearestRank(90, 3) == 3 && NearestRank(95, 3) == 3 && NearestRank(99, 3) == 3
  {
  }
}
