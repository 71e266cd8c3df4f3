/**
  What the report of the recorder promises: the empty report, the overall
  statistics, the per-status blocks (a partition of the responses, in
  ascending status order, with shares adding up to 100%), and independence
  from the order in which the responses were recorded.
*/
module ReportProperties {
  import opened Sorting
  import opened Percentiles
  import opened HttpRecorder

  /** A recorder with nothing in it reports zero for every statistic and no status block. */
  lemma EmptyReport()
    ensures BuildReport([]) == Some(Report(Summary(0, 0.0, 0, 0, 0, 0, 0, 0), []))
  {
    assert GroupByStatus([]) == [] && Keys([]) == [];
    assert SortedStatuses([]) == [];
    assert StatusBlocks([], []).Some?;
    assert |StatusBlocks([], []).value| == 0;
    assert Times([]) == [];
    assert Summarise([], []) == Summary(0, 0.0, 0, 0, 0, 0, 0, 0);
  }

  /**
    The statistics of a non-empty population: the count is its size, every
    percentile is one of its durations, the percentiles are ordered, the
    maximum is at least every duration, and the mean lies between the
    smallest duration and the maximum.
  */
  lemma SummaryOfPopulation(recorded: seq<Response>, rs: seq<Response>)
    requires |recorded| > 0 && |rs| > 0
    ensures var s := Summarise(recorded, rs);
      && s.count == |rs|
      && s.median in Times(rs) && s.p75 in Times(rs) && s.p90 in Times(rs)
      && s.p95 in Times(rs) && s.p99 in Times(rs) && s.max in Times(rs)
      && s.median <= s.p75 <= s.p90 <= s.p95 <= s.p99 <= s.max
      && (forall i :: 0 <= i < |rs| ==> rs[i].time <= s.max)
      && s.mean <= s.max as real
      && (exists i :: 0 <= i < |rs| && rs[i].time as real <= s.mean)
  {
    var times := Times(rs);
    PercentileMonotone(times, 50, 75);
    PercentileMonotone(times, 75, 90);
    PercentileMonotone(times, 90, 95);
    PercentileMonotone(times, 95, 99);
    PercentileMonotone(times, 99, 100);
    PercentileAt100IsMax(times);
    var sorted := SortAsc(times);
    var lo := sorted[0];
    forall i | 0 <= i < |times| ensures lo <= times[i] {
      assert times[i] in multiset(sorted);
    }
    assert lo in multiset(times);
    var j :| 0 <= j < |times| && times[j] == lo;
    MeanWithinBounds(times, lo, NearestRankValue(times, 100));
    assert rs[j].time as real <= Summarise(recorded, rs).mean;
  }

  /** The overall count is the number of responses recorded; for a non-empty recorder the
      overall statistics are those of every recorded duration. */
  lemma OverallStatistics(recorded: seq<Response>)
    ensures BuildReport(recorded).Some?
    ensures BuildReport(recorded).value.overall == Summarise(recorded, recorded)
    ensures BuildReport(recorded).value.overall.count == |recorded|
  {
    ReportNeverFails(recorded);
  }

  /** The statuses of a report's blocks, in order. */
  function SectionStatuses(sections: seq<StatusSection>): (ss: seq<int>)
    ensures |ss| == |sections|
    ensures forall k :: 0 <= k < |sections| ==> ss[k] == sections[k].status
  {
    if sections == [] then [] else [sections[0].status] + SectionStatuses(sections[1..])
  }

  /** Block k of the report is the block of the k-th smallest status. */
  lemma SectionAt(recorded: seq<Response>, k: nat)
    requires k < |SortedStatuses(recorded)|
    ensures BuildReport(recorded).Some?
    ensures k < |BuildReport(recorded).value.byStatus|
    ensures var s := SortedStatuses(recorded)[k];
      && WithStatus(recorded, s) != []
      && BuildReport(recorded).value.byStatus[k]
         == StatusSection(s, Proportion(|WithStatus(recorded, s)|, |recorded|), Summarise(recorded, WithStatus(recorded, s)))
  {
    ReportNeverFails(recorded);
    var statuses := SortedStatuses(recorded);
    assert statuses[k] in multiset(Keys(GroupByStatus(recorded)));
    StatusBlockOfKey(recorded, statuses[k]);
  }

  /** The blocks of the sorted statuses: block k is for status k, with that status's group. */
  lemma SectionsOfSortedStatuses(recorded: seq<Response>)
    ensures BuildReport(recorded).Some?
    ensures var sections := BuildReport(recorded).value.byStatus;
      && SectionStatuses(sections) == SortedStatuses(recorded)
      && forall k :: 0 <= k < |sections| ==>
           && WithStatus(recorded, sections[k].status) != []
           && sections[k].stats == Summarise(recorded, WithStatus(recorded, sections[k].status))
           && sections[k].proportion == Proportion(|WithStatus(recorded, sections[k].status)|, |recorded|)
  {
    ReportNeverFails(recorded);
    var statuses := SortedStatuses(recorded);
    var sections := BuildReport(recorded).value.byStatus;
    forall k | 0 <= k < |sections|
      ensures sections[k].status == statuses[k]
      ensures WithStatus(recorded, sections[k].status) != []
      ensures sections[k].stats == Summarise(recorded, WithStatus(recorded, sections[k].status))
      ensures sections[k].proportion == Proportion(|WithStatus(recorded, sections[k].status)|, |recorded|)
    {
      SectionAt(recorded, k);
    }
  }

  /**
    The blocks come in strictly ascending status order, and a status has a
    block exactly when some recorded response has that status; so each
    status present is reported exactly once.
  */
  lemma SectionsAscendingAndComplete(recorded: seq<Response>, s: int)
    ensures BuildReport(recorded).Some?
    ensures StrictlyAscending(SectionStatuses(BuildReport(recorded).value.byStatus))
    ensures s in SectionStatuses(BuildReport(recorded).value.byStatus)
        <==> exists i :: 0 <= i < |recorded| && recorded[i].status == s
  {
    SectionsOfSortedStatuses(recorded);
    var keys := Keys(GroupByStatus(recorded));
    GroupKeysDistinct(recorded);
    SortAscOfDistinct(keys);
    GroupKeysAreStatuses(recorded, s);
    assert s in SortAsc(keys) <==> s in keys by {
      assert s in SortAsc(keys) <==> s in multiset(SortAsc(keys));
    }
  }

  /** Sum of the sizes of the groups of `statuses`. */
  function GroupSizes(rs: seq<Response>, statuses: seq<int>): nat {
    if statuses == [] then 0 else |WithStatus(rs, statuses[0])| + GroupSizes(rs, statuses[1..])
  }

  lemma {:induction false} WithStatusSnoc(init: seq<Response>, last: Response, s: int)
    ensures WithStatus(init + [last], s) == WithStatus(init, s) + (if last.status == s then [last] else [])
  {
    assert (init + [last])[..|init|] == init;
  }

  lemma {:induction false} GroupSizesSnoc(init: seq<Response>, last: Response, statuses: seq<int>)
    ensures GroupSizes(init + [last], statuses) == GroupSizes(init, statuses) + multiset(statuses)[last.status]
  {
    if statuses != [] {
      GroupSizesSnoc(init, last, statuses[1..]);
      WithStatusSnoc(init, last, statuses[0]);
      assert statuses == [statuses[0]] + statuses[1..];
      assert multiset(statuses) == multiset{statuses[0]} + multiset(statuses[1..]);
    }
  }

  /** Over a list of distinct statuses that covers every response, the group sizes add up to the number of responses. */
  lemma {:induction false} GroupSizesCover(rs: seq<Response>, statuses: seq<int>)
    requires Distinct(statuses)
    requires forall i :: 0 <= i < |rs| ==> rs[i].status in statuses
    ensures GroupSizes(rs, statuses) == |rs|
  {
    if rs == [] {
      GroupSizesEmpty(statuses);
    } else {
      var init, last := rs[..|rs| - 1], rs[|rs| - 1];
      assert rs == init + [last];
      GroupSizesCover(init, statuses);
      GroupSizesSnoc(init, last, statuses);
      DistinctCount(statuses, last.status);
    }
  }

  lemma {:induction false} GroupSizesEmpty(statuses: seq<int>)
    ensures GroupSizes([], statuses) == 0
  {
    if statuses != [] {
      GroupSizesEmpty(statuses[1..]);
    }
  }

  /** Sum of the counts of report blocks. */
  function SectionCounts(sections: seq<StatusSection>): nat {
    if sections == [] then 0 else sections[0].stats.count + SectionCounts(sections[1..])
  }

  /** Sum of the proportions of report blocks. */
  function ProportionSum(sections: seq<StatusSection>): real {
    if sections == [] then 0.0 else sections[0].proportion + ProportionSum(sections[1..])
  }

  lemma {:induction false} SectionCountsAreGroupSizes(rs: seq<Response>, sections: seq<StatusSection>)
    requires forall k :: 0 <= k < |sections| ==> sections[k].stats.count == |WithStatus(rs, sections[k].status)|
    ensures SectionCounts(sections) == GroupSizes(rs, SectionStatuses(sections))
  {
    if sections != [] {
      SectionCountsAreGroupSizes(rs, sections[1..]);
      assert SectionStatuses(sections)[1..] == SectionStatuses(sections[1..]);
    }
  }

  lemma ProportionAdd(a: nat, b: nat, n: nat)
    requires n > 0
    ensures Proportion(a, n) + Proportion(b, n) == Proportion(a + b, n)
  {
    var d := n as real;
    assert (a as real / d) + (b as real / d) == (a + b) as real / d;
  }

  lemma {:induction false} ProportionSumOfCounts(sections: seq<StatusSection>, n: nat)
    requires n > 0
    requires forall k :: 0 <= k < |sections| ==> sections[k].proportion == Proportion(sections[k].stats.count, n)
    ensures ProportionSum(sections) == Proportion(SectionCounts(sections), n)
  {
    if sections != [] {
      ProportionSumOfCounts(sections[1..], n);
      ProportionAdd(sections[0].stats.count, SectionCounts(sections[1..]), n);
    }
  }

  /** Every block is non-empty, and the block counts add up to the overall count. */
  lemma SectionCountsTotal(recorded: seq<Response>)
    ensures BuildReport(recorded).Some?
    ensures forall k :: 0 <= k < |BuildReport(recorded).value.byStatus| ==>
              BuildReport(recorded).value.byStatus[k].stats.count > 0
    ensures SectionCounts(BuildReport(recorded).value.byStatus) == |recorded|
  {
    SectionsOfSortedStatuses(recorded);
    var sections := BuildReport(recorded).value.byStatus;
    var statuses := SectionStatuses(sections);
    SectionCountsAreGroupSizes(recorded, sections);
    GroupKeysDistinct(recorded);
    SortAscOfDistinct(Keys(GroupByStatus(recorded)));
    assert Distinct(statuses);
    forall i | 0 <= i < |recorded| ensures recorded[i].status in statuses {
      SectionsAscendingAndComplete(recorded, recorded[i].status);
    }
    GroupSizesCover(recorded, statuses);
  }

  lemma ProportionOfWhole(n: nat)
    requires n > 0
    ensures Proportion(n, n) == 100.0
  {
  }

  lemma SectionProportions(recorded: seq<Response>)
    requires recorded != []
    ensures BuildReport(recorded).Some?
    ensures forall k :: 0 <= k < |BuildReport(recorded).value.byStatus| ==>
              BuildReport(recorded).value.byStatus[k].proportion
              == Proportion(BuildReport(recorded).value.byStatus[k].stats.count, |recorded|)
  {
    SectionsOfSortedStatuses(recorded);
    var sections := BuildReport(recorded).value.byStatus;
    forall k | 0 <= k < |sections|
      ensures sections[k].proportion == Proportion(sections[k].stats.count, |recorded|)
    {
      assert sections[k].stats.count == |WithStatus(recorded, sections[k].status)|;
    }
  }

  /** With at least one response, the proportions of the blocks add up to exactly 100%. */
  lemma ProportionsTotal(recorded: seq<Response>)
    requires recorded != []
    ensures BuildReport(recorded).Some?
    ensures ProportionSum(BuildReport(recorded).value.byStatus) == 100.0
  {
    SectionProportions(recorded);
    SectionCountsTotal(recorded);
    ProportionSumOfCounts(BuildReport(recorded).value.byStatus, |recorded|);
    ProportionOfWhole(|recorded|);
  }

  /*
   * Independence from the recording order
   */

  lemma {:induction false} TimesAppend(a: seq<Response>, b: seq<Response>)
    ensures Times(a + b) == Times(a) + Times(b)
  {
  }

  lemma ResponsesSplitAt(b: seq<Response>, i: nat)
    requires i < |b|
    ensures multiset(b) == multiset(b[..i] + b[i + 1..]) + multiset{b[i]}
  {
    SplitAround(b, i);
  }

  lemma TimesSplitAt(b: seq<Response>, i: nat)
    requires i < |b|
    ensures multiset(Times(b)) == multiset(Times(b[..i] + b[i + 1..])) + multiset{b[i].time}
  {
    var front, back, x := b[..i], b[i + 1..], b[i];
    SplitAround(b, i);
    TimesAround(front, x, back);
    TimesAppend(front, back);
    MultisetSplit(Times(front), x.time, Times(back));
  }

  lemma SplitAround(b: seq<Response>, i: nat)
    requires i < |b|
    ensures b == b[..i] + [b[i]] + b[i + 1..]
  {
  }

  lemma TimesAround(front: seq<Response>, x: Response, back: seq<Response>)
    ensures Times(front + [x] + back) == Times(front) + [x.time] + Times(back)
  {
    TimesAppend(front + [x], back);
    TimesAppend(front, [x]);
    assert Times([x]) == [x.time];
  }

  lemma MultisetSplit(tf: seq<int>, t: int, tb: seq<int>)
    ensures multiset(tf + [t] + tb) == multiset(tf + tb) + multiset{t}
  {
  }

  /** Reordering the responses reorders their durations. */
  lemma {:induction false} TimesOfPermutation(a: seq<Response>, b: seq<Response>)
    requires multiset(a) == multiset(b)
    ensures multiset(Times(a)) == multiset(Times(b))
    decreases |a|
  {
    assert |a| == |multiset(a)| == |multiset(b)| == |b|;
    if a != [] {
      var n := |a| - 1;
      var x := a[n];
      assert x in multiset(b);
      var i :| 0 <= i < |b| && b[i] == x;
      var rest := b[..i] + b[i + 1..];
      ResponsesSplitAt(a, n);
      ResponsesSplitAt(b, i);
      assert a[..n] + a[n + 1..] == a[..n];
      assert multiset(a[..n]) == multiset(a) - multiset{x};
      assert multiset(rest) == multiset(b) - multiset{x};
      TimesOfPermutation(a[..n], rest);
      TimesSplitAt(a, n);
      TimesSplitAt(b, i);
    }
  }

  lemma {:induction false} SumInsert(x: int, s: seq<int>)
    requires Sorted(s)
    ensures Sum(Insert(x, s)) == x + Sum(s)
  {
    if s != [] && x > s[0] {
      SortedTail(s);
      SumInsert(x, s[1..]);
      assert Insert(x, s)[1..] == Insert(x, s[1..]);
    }
  }

  lemma {:induction false} SumSortAsc(s: seq<int>)
    ensures Sum(SortAsc(s)) == Sum(s)
  {
    if s != [] {
      SumSortAsc(s[1..]);
      SumInsert(s[0], SortAsc(s[1..]));
    }
  }

  /** The sum, hence the mean, does not depend on the order of the list. */
  lemma MeanOfPermutation(xs: seq<int>, ys: seq<int>)
    requires multiset(xs) == multiset(ys)
    ensures AverageOrZero(xs) == AverageOrZero(ys)
  {
    assert |xs| == |multiset(xs)| == |multiset(ys)| == |ys|;
    SumSortAsc(xs);
    SumSortAsc(ys);
    SortAscOfPermutation(xs, ys);
  }

  /** The statistics of a population depend only on which responses it holds, not their order. */
  lemma SummariseOfPermutation(recorded: seq<Response>, recorded': seq<Response>, rs: seq<Response>, rs': seq<Response>)
    requires |recorded| > 0 <==> |recorded'| > 0
    requires |recorded| > 0 ==> |rs| > 0
    requires multiset(rs) == multiset(rs')
    ensures |recorded'| > 0 ==> |rs'| > 0
    ensures Summarise(recorded, rs) == Summarise(recorded', rs')
  {
    assert |rs| == |multiset(rs)| == |multiset(rs')| == |rs'|;
    var times, times' := Times(rs), Times(rs');
    TimesOfPermutation(rs, rs');
    MeanOfPermutation(times, times');
    if |recorded| > 0 {
      PercentileOfPermutation(times, times', 100);
      PercentileOfPermutation(times, times', 50);
      PercentileOfPermutation(times, times', 75);
      PercentileOfPermutation(times, times', 90);
      PercentileOfPermutation(times, times', 95);
      PercentileOfPermutation(times, times', 99);
    }
  }

  lemma {:induction false} WithStatusCount(rs: seq<Response>, s: int, r: Response)
    ensures multiset(WithStatus(rs, s))[r] == if r.status == s then multiset(rs)[r] else 0
  {
    if rs != [] {
      var init, last := rs[..|rs| - 1], rs[|rs| - 1];
      assert rs == init + [last];
      WithStatusCount(init, s, r);
      WithStatusSnoc(init, last, s);
    }
  }

  lemma WithStatusOfPermutation(rs: seq<Response>, rs': seq<Response>, s: int)
    requires multiset(rs) == multiset(rs')
    ensures multiset(WithStatus(rs, s)) == multiset(WithStatus(rs', s))
  {
    forall r ensures multiset(WithStatus(rs, s))[r] == multiset(WithStatus(rs', s))[r] {
      WithStatusCount(rs, s, r);
      WithStatusCount(rs', s, r);
    }
  }

  lemma SortedStatusesOfPermutation(rs: seq<Response>, rs': seq<Response>)
    requires multiset(rs) == multiset(rs')
    ensures SortedStatuses(rs) == SortedStatuses(rs')
  {
    var keys, keys' := Keys(GroupByStatus(rs)), Keys(GroupByStatus(rs'));
    GroupKeysDistinct(rs);
    GroupKeysDistinct(rs');
    forall s ensures s in keys <==> s in keys' {
      GroupKeysAreStatuses(rs, s);
      GroupKeysAreStatuses(rs', s);
      if exists i :: 0 <= i < |rs| && rs[i].status == s {
        var i :| 0 <= i < |rs| && rs[i].status == s;
        assert rs[i] in multiset(rs');
        var j :| 0 <= j < |rs'| && rs'[j] == rs[i];
      }
      if exists j :: 0 <= j < |rs'| && rs'[j].status == s {
        var j :| 0 <= j < |rs'| && rs'[j].status == s;
        assert rs'[j] in multiset(rs);
        var i :| 0 <= i < |rs| && rs[i] == rs'[j];
      }
    }
    SortAscOfSameValues(keys, keys');
  }

  /**
    The report depends only on which responses were recorded, not on the
    order in which `addResponse` received them.
  */
  lemma ReportOrderIndependent(rs: seq<Response>, rs': seq<Response>)
    requires multiset(rs) == multiset(rs')
    ensures BuildReport(rs) == BuildReport(rs')
  {
    assert |rs| == |multiset(rs)| == |multiset(rs')| == |rs'|;
    SectionsOfSortedStatuses(rs);
    SectionsOfSortedStatuses(rs');
    SortedStatusesOfPermutation(rs, rs');
    SummariseOfPermutation(rs, rs', rs, rs');
    var sections, sections' := BuildReport(rs).value.byStatus, BuildReport(rs').value.byStatus;
    assert |sections| == |sections'|;
    forall k | 0 <= k < |sections| ensures sections[k] == sections'[k] {
      var s := sections[k].status;
      assert SectionStatuses(sections)[k] == SectionStatuses(sections')[k];
      WithStatusOfPermutation(rs, rs', s);
      SummariseOfPermutation(rs, rs', WithStatus(rs, s), WithStatus(rs', s));
      assert |WithStatus(rs, s)| == |multiset(WithStatus(rs, s))| == |WithStatus(rs', s)|;
    }
    assert sections == sections';
  }

  /*
   * A single response
   */

  /** With one duration, every statistic of the summary is that duration. */
  lemma SummaryOfOne(recorded: seq<Response>, r: Response)
    requires |recorded| > 0
    ensures var t := r.time;
      Summarise(recorded, [r]) == Summary(1, t as real, t, t, t, t, t, t)
  {
    assert Times([r]) == [r.time];
    assert Sum([r.time]) == r.time;
  }

  lemma SingleStatus(r: Response)
    ensures SortedStatuses([r]) == [r.status]
    ensures WithStatus([r], r.status) == [r]
  {
    assert [r][..0] == [];
    assert GroupByStatus([r]) == [Group(r.status, [r])];
    assert Keys([Group(r.status, [r])]) == [r.status];
  }

  lemma SingleOverall(r: Response)
    ensures BuildReport([r]).Some?
    ensures BuildReport([r]).value.overall == Summary(1, r.time as real, r.time, r.time, r.time, r.time, r.time, r.time)
  {
    SummaryOfOne([r], r);
    OverallStatistics([r]);
  }

  lemma SingleSection(r: Response)
    ensures BuildReport([r]).Some?
    ensures BuildReport([r]).value.byStatus == [StatusSection(r.status, Proportion(1, 1), Summarise([r], [r]))]
  {
    SingleStatus(r);
    SectionAt([r], 0);
    ReportNeverFails([r]);
    SingletonOf(BuildReport([r]).value.byStatus,
                StatusSection(r.status, Proportion(1, 1), Summarise([r], [r])));
  }

  /** A recorder holding one response reports it as the only status, with 100% of the responses. */
  lemma SingleResponse(r: Response)
    ensures var t := r.time;
      BuildReport([r])
      == Some(Report(Summary(1, t as real, t, t, t, t, t, t),
                     [StatusSection(r.status, 100.0, Summary(1, t as real, t, t, t, t, t, t))]))
  {
    SingleOverall(r);
    SingleSection(r);
    SummaryOfOne([r], r);
    ProportionOfWhole(1);
  }

  /*
   * A worked example
   */

  /** Three responses with status 200 taking 100, 200 and 300 ms, then one with status 500 taking 50 ms. */
  function FourRecorded(): seq<Response> {
    [Response(200, 100), Response(200, 200), Response(200, 300), Response(500, 50)]
  }

  lemma FourRecordedGroups()
    ensures GroupByStatus(FourRecorded())
         == [Group(200, FourRecorded()[..3]), Group(500, [FourRecorded()[3]])]
  {
    var r1, r2, r3, r4 := Response(200, 100), Response(200, 200), Response(200, 300), Response(500, 50);
    var rs := FourRecorded();
    assert [r1][..0] == [];
    assert GroupByStatus([r1]) == [Group(200, [r1])];
    assert [r1, r2][..1] == [r1];
    assert [Group(200, [r1])][1..] == [] && [r1] + [r2] == [r1, r2];
    assert GroupByStatus([r1, r2]) == AddToGroup([Group(200, [r1])], r2) == [Group(200, [r1, r2])];
    assert [r1, r2, r3][..2] == [r1, r2];
    assert [Group(200, [r1, r2])][1..] == [] && [r1, r2] + [r3] == [r1, r2, r3];
    assert GroupByStatus([r1, r2, r3]) == AddToGroup([Group(200, [r1, r2])], r3) == [Group(200, [r1, r2, r3])];
    assert rs[..3] == [r1, r2, r3];
    assert AddToGroup([Group(200, [r1, r2, r3])][1..], r4) == [Group(500, [r4])];
  }

  /** Sorting a list whose values are those of a known sorted list gives that list. */
  lemma SortsTo(s: seq<int>, sorted: seq<int>)
    requires Sorted(sorted) && multiset(s) == multiset(sorted)
    ensures SortAsc(s) == sorted
  {
    SortedUnique(SortAsc(s), sorted);
  }

  lemma FourRecordedTimes()
    ensures Times(FourRecorded()) == [100, 200, 300, 50]
  {
    assert FourRecorded()[1..][1..][1..][1..] == [];
  }

  lemma FirstThreeTimes()
    ensures Times(FourRecorded()[..3]) == [100, 200, 300]
  {
    assert FourRecorded()[..3][1..][1..][1..] == [];
  }

  lemma FourRecordedSorted()
    ensures SortAsc([100, 200, 300, 50]) == [50, 100, 200, 300]
  {
    assert multiset([100, 200, 300, 50]) == multiset([50, 100, 200, 300]);
    SortsTo([100, 200, 300, 50], [50, 100, 200, 300]);
  }

  lemma FirstThreeSorted()
    ensures SortAsc([100, 200, 300]) == [100, 200, 300]
  {
    SortsTo([100, 200, 300], [100, 200, 300]);
  }

  lemma FourRecordedOverallLow()
    ensures var s := Summarise(FourRecorded(), FourRecorded());
      s.max == 300 && s.median == 100 && s.p75 == 200
  {
    FourRecordedTimes();
    FourRecordedSorted();
    RanksOfFourLow();
  }

  lemma FourRecordedOverallHigh()
    ensures var s := Summarise(FourRecorded(), FourRecorded());
      s.p90 == 300 && s.p95 == 300 && s.p99 == 300
  {
    FourRecordedTimes();
    FourRecordedSorted();
    RanksOfFourHigh();
  }

  lemma FourRecordedOverall()
    ensures Summarise(FourRecorded(), FourRecorded()) == Summary(4, 162.5, 300, 100, 200, 300, 300, 300)
  {
    FourRecordedMean();
    FourRecordedOverallLow();
    FourRecordedOverallHigh();
    SummaryByFields(Summarise(FourRecorded(), FourRecorded()), Summary(4, 162.5, 300, 100, 200, 300, 300, 300));
  }

  lemma FourRecordedMean()
    ensures Summarise(FourRecorded(), FourRecorded()).mean == 162.5
  {
    FourRecordedTimes();
    assert Sum([100, 200, 300, 50]) == 650;
    assert AverageOrZero([100, 200, 300, 50]) * 4.0 == 650.0;
  }

  lemma FourRecordedStatus200Low()
    ensures var s := Summarise(FourRecorded(), FourRecorded()[..3]);
      s.max == 300 && s.median == 200 && s.p75 == 300
  {
    FirstThreeTimes();
    FirstThreeSorted();
    RanksOfThreeLow();
  }

  lemma FourRecordedStatus200High()
    ensures var s := Summarise(FourRecorded(), FourRecorded()[..3]);
      s.p90 == 300 && s.p95 == 300 && s.p99 == 300
  {
    FirstThreeTimes();
    FirstThreeSorted();
    RanksOfThreeHigh();
  }

  lemma FirstThreeMean()
    ensures Summarise(FourRecorded(), FourRecorded()[..3]).mean == 200.0
  {
    FirstThreeTimes();
    assert Sum([100, 200, 300]) == 600;
    assert AverageOrZero([100, 200, 300]) * 3.0 == 600.0;
  }

  lemma FourRecordedStatus200()
    ensures Summarise(FourRecorded(), FourRecorded()[..3]) == Summary(3, 200.0, 300, 200, 300, 300, 300, 300)
  {
    FirstThreeMean();
    FourRecordedStatus200Low();
    FourRecordedStatus200High();
    SummaryByFields(Summarise(FourRecorded(), FourRecorded()[..3]), Summary(3, 200.0, 300, 200, 300, 300, 300, 300));
  }

  /** Two summaries that agree field by field are equal. */
  lemma SummaryByFields(s: Summary, t: Summary)
    requires s.count == t.count && s.mean == t.mean && s.max == t.max && s.median == t.median
    requires s.p75 == t.p75 && s.p90 == t.p90 && s.p95 == t.p95 && s.p99 == t.p99
    ensures s == t
  {
  }

  lemma FourRecordedStatus500()
    ensures Summarise(FourRecorded(), [FourRecorded()[3]]) == Summary(1, 50.0, 50, 50, 50, 50, 50, 50)
  {
    SummaryOfOne(FourRecorded(), FourRecorded()[3]);
  }

  lemma FourRecordedStatuses()
    ensures SortedStatuses(FourRecorded()) == [200, 500]
    ensures WithStatus(FourRecorded(), 200) == FourRecorded()[..3]
    ensures WithStatus(FourRecorded(), 500) == [FourRecorded()[3]]
  {
    var rs := FourRecorded();
    FourRecordedGroups();
    assert Keys(GroupByStatus(rs)) == [200, 500];
    SortsTo([200, 500], [200, 500]);
    GroupByStatusIsFilter(rs, 200);
    GroupByStatusIsFilter(rs, 500);
  }

  lemma Quarters()
    ensures Proportion(3, 4) == 75.0 && Proportion(1, 4) == 25.0
  {
  }

  /*
   * Reports with exactly two statuses
   */

  lemma TwoSectionCount(rs: seq<Response>)
    requires |SortedStatuses(rs)| == 2
    ensures BuildReport(rs).Some? && |BuildReport(rs).value.byStatus| == 2
  {
    ReportNeverFails(rs);
  }

  lemma SingletonOf(b: seq<StatusSection>, x: StatusSection)
    requires |b| == 1 && b[0] == x
    ensures b == [x]
  {
  }

  lemma PairOf(b: seq<StatusSection>, x: StatusSection, y: StatusSection)
    requires |b| == 2 && b[0] == x && b[1] == y
    ensures b == [x, y]
  {
  }

  /** The two blocks of a recorder holding exactly two statuses, the lower one first. */
  lemma TwoSections(rs: seq<Response>, lo: int, hi: int)
    requires |SortedStatuses(rs)| == 2 && SortedStatuses(rs)[0] == lo && SortedStatuses(rs)[1] == hi
    ensures WithStatus(rs, lo) != [] && WithStatus(rs, hi) != []
    ensures BuildReport(rs).Some?
    ensures BuildReport(rs).value.byStatus
         == [ StatusSection(lo, Proportion(|WithStatus(rs, lo)|, |rs|), Summarise(rs, WithStatus(rs, lo))),
              StatusSection(hi, Proportion(|WithStatus(rs, hi)|, |rs|), Summarise(rs, WithStatus(rs, hi))) ]
  {
    TwoSectionCount(rs);
    SectionAt(rs, 0);
    SectionAt(rs, 1);
    PairOf(BuildReport(rs).value.byStatus,
           StatusSection(lo, Proportion(|WithStatus(rs, lo)|, |rs|), Summarise(rs, WithStatus(rs, lo))),
           StatusSection(hi, Proportion(|WithStatus(rs, hi)|, |rs|), Summarise(rs, WithStatus(rs, hi))));
  }

  lemma ReportFromSections(rs: seq<Response>, sections: seq<StatusSection>)
    requires BuildReport(rs).Some? && BuildReport(rs).value.byStatus == sections
    ensures BuildReport(rs) == Some(Report(Summarise(rs, rs), sections))
  {
    OverallStatistics(rs);
  }

  /**
    Three 200 responses of 100, 200 and 300 ms and one 500 response of 50 ms:
    mean 162.5, median 100 (the 2nd of the sorted durations 50, 100, 200,
    300), maximum 300; status 200 is 75% of the responses, status 500 25%.
  */
  lemma FourResponses()
    ensures BuildReport(FourRecorded())
         == Some(Report(
              Summary(4, 162.5, 300, 100, 200, 300, 300, 300),
              [ StatusSection(200, 75.0, Summary(3, 200.0, 300, 200, 300, 300, 300, 300)),
                StatusSection(500, 25.0, Summary(1, 50.0, 50, 50, 50, 50, 50, 50)) ]))
  {
    var rs := FourRecorded();
    FourRecordedStatuses();
    TwoSections(rs, 200, 500);
    ReportFromSections(rs, BuildReport(rs).value.byStatus);
    FourRecordedOverall();
    FourRecordedStatus200();
    FourRecordedStatus500();
    Quarters();
  }
}
