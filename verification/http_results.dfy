/**
  The results recorder of an HTTP load test (`HttpResults`): it collects one
  (status code, duration) pair per completed request and derives a report
  from them, overall and per status code: number of responses, mean
  duration, and the nearest-rank percentiles 50, 75, 90, 95, 99 and 100.
  The report is a record here; its text layout is not modelled.
*/
module HttpRecorder {
  import opened Sorting
  import opened Percentiles

  datatype Option<T> = None | Some(value: T)

  /** One completed request: its HTTP status code and how long it took. */
  datatype Response = Response(status: int, time: int)

  /*
   * Statistics over a list of durations
   */

  /** The durations of `rs`, in the same order (`toTimes`). */
  function Times(rs: seq<Response>): (ts: seq<int>)
    ensures |ts| == |rs|
    ensures forall i :: 0 <= i < |rs| ==> ts[i] == rs[i].time
  {
    if rs == [] then [] else [rs[0].time] + Times(rs[1..])
  }

  function Sum(xs: seq<int>): int {
    if xs == [] then 0 else xs[0] + Sum(xs[1..])
  }

  /** The exact arithmetic mean of `xs`, or 0 when `xs` is empty (`averageOrZero`). */
  function AverageOrZero(xs: seq<int>): (mean: real)
    ensures xs == [] ==> mean == 0.0
    ensures xs != [] ==> mean * (|xs| as real) == Sum(xs) as real
  {
    if xs == [] then 0.0 else (Sum(xs) as real) / (|xs| as real)
  }

  lemma {:induction false} SumBounds(xs: seq<int>, lo: int, hi: int)
    requires forall i :: 0 <= i < |xs| ==> lo <= xs[i] <= hi
    ensures lo * |xs| <= Sum(xs) <= hi * |xs|
  {
    if xs != [] {
      SumBounds(xs[1..], lo, hi);
    }
  }

  /** The mean of a non-empty list lies between any lower and upper bound of its elements. */
  lemma MeanWithinBounds(xs: seq<int>, lo: int, hi: int)
    requires xs != []
    requires forall i :: 0 <= i < |xs| ==> lo <= xs[i] <= hi
    ensures lo as real <= AverageOrZero(xs) <= hi as real
  {
    SumBounds(xs, lo, hi);
    var n := |xs| as real;
    QuotientBounds(Sum(xs) as real, n, lo as real, hi as real);
  }

  lemma QuotientBounds(a: real, n: real, lo: real, hi: real)
    requires n > 0.0 && lo * n <= a <= hi * n
    ensures lo <= a / n <= hi
  {
    var q := a / n;
    assert (q - lo) * n == a - lo * n;
    assert (hi - q) * n == hi * n - a;
  }

  /**
    `percentile`: the nearest-rank percentile `p` of `values`, or 0 when
    nothing at all has been recorded. The guard tests `recorded`, every
    response of the recorder, and not `values`; every caller passes either
    all recorded durations or those of a non-empty status group.
  */
  function Percentile(recorded: seq<Response>, values: seq<int>, p: int): (r: int)
    requires |recorded| > 0 ==> |values| > 0 && 1 <= p <= 100
    ensures |recorded| == 0 ==> r == 0
    ensures |recorded| > 0 ==> r in values
  {
    if |recorded| > 0 then NearestRankValue(values, p) else 0
  }

  /*
   * Grouping by status (`groupBy { it.status }`)
   */

  /** One entry of the map `groupBy` builds: a status and its responses in recorded order. */
  datatype Group = Group(status: int, members: seq<Response>)

  /** The statuses of `groups`, in map order (`keys`). */
  function Keys(groups: seq<Group>): (ks: seq<int>)
    ensures |ks| == |groups|
    ensures forall i :: 0 <= i < |groups| ==> ks[i] == groups[i].status
  {
    if groups == [] then [] else [groups[0].status] + Keys(groups[1..])
  }

  /** `responsesByStatus[status]`: the responses stored under `status`, if there is such a key. */
  function Lookup(groups: seq<Group>, status: int): Option<seq<Response>> {
    if groups == [] then None
    else if groups[0].status == status then Some(groups[0].members)
    else Lookup(groups[1..], status)
  }

  /** The list stored under `status`, or a new empty one (`getOrPut(key) { ArrayList() }`). */
  function MembersOf(groups: seq<Group>, status: int): seq<Response> {
    match Lookup(groups, status)
    case None => []
    case Some(members) => members
  }

  /**
    One step of `groupBy`: `r` goes at the end of the group of its status;
    a status seen for the first time opens a new group at the end of the map.
  */
  function AddToGroup(groups: seq<Group>, r: Response): seq<Group> {
    if groups == [] then [Group(r.status, [r])]
    else if groups[0].status == r.status then [Group(r.status, groups[0].members + [r])] + groups[1..]
    else [groups[0]] + AddToGroup(groups[1..], r)
  }

  /** `responsesByStatus`: the responses grouped by status, groups in order of first appearance. */
  function GroupByStatus(rs: seq<Response>): seq<Group> {
    if rs == [] then [] else AddToGroup(GroupByStatus(rs[..|rs| - 1]), rs[|rs| - 1])
  }

  /** The responses of `rs` whose status is `status`, in recorded order. */
  function WithStatus(rs: seq<Response>, status: int): (f: seq<Response>)
    ensures |f| <= |rs|
    ensures forall r :: r in f <==> r in rs && r.status == status
  {
    if rs == [] then []
    else
      var init, last := rs[..|rs| - 1], rs[|rs| - 1];
      assert rs == init + [last];
      WithStatus(init, status) + (if last.status == status then [last] else [])
  }

  function SumOfSizes(groups: seq<Group>): nat {
    if groups == [] then 0 else |groups[0].members| + SumOfSizes(groups[1..])
  }

  lemma {:induction false} LookupAddToGroup(groups: seq<Group>, r: Response, s: int)
    ensures Lookup(AddToGroup(groups, r), s)
         == if s == r.status then Some(MembersOf(groups, s) + [r]) else Lookup(groups, s)
  {
    if groups == [] {
      assert AddToGroup(groups, r)[1..] == [];
      assert MembersOf(groups, s) + [r] == [r];
    } else if groups[0].status == r.status {
      assert AddToGroup(groups, r)[1..] == groups[1..];
    } else {
      LookupAddToGroup(groups[1..], r, s);
      assert AddToGroup(groups, r)[1..] == AddToGroup(groups[1..], r);
    }
  }

  /** The group `groupBy` builds for a status holds exactly the responses with that status, in order. */
  lemma {:induction false} GroupByStatusIsFilter(rs: seq<Response>, s: int)
    ensures Lookup(GroupByStatus(rs), s)
         == if WithStatus(rs, s) == [] then None else Some(WithStatus(rs, s))
  {
    if rs != [] {
      var init, last := rs[..|rs| - 1], rs[|rs| - 1];
      GroupByStatusIsFilter(init, s);
      LookupAddToGroup(GroupByStatus(init), last, s);
      assert GroupByStatus(rs) == AddToGroup(GroupByStatus(init), last);
      assert MembersOf(GroupByStatus(init), s) == WithStatus(init, s);
      if last.status == s {
        assert WithStatus(rs, s) == WithStatus(init, s) + [last];
      } else {
        assert WithStatus(rs, s) == WithStatus(init, s);
      }
    }
  }

  lemma {:induction false} LookupNoneIffAbsent(groups: seq<Group>, s: int)
    ensures Lookup(groups, s).None? <==> s !in Keys(groups)
  {
    if groups != [] {
      LookupNoneIffAbsent(groups[1..], s);
      assert Keys(groups) == [groups[0].status] + Keys(groups[1..]);
    }
  }

  lemma {:induction false} KeysAddToGroup(groups: seq<Group>, r: Response)
    ensures Keys(AddToGroup(groups, r))
         == if r.status in Keys(groups) then Keys(groups) else Keys(groups) + [r.status]
  {
    if groups != [] {
      assert Keys(groups) == [groups[0].status] + Keys(groups[1..]);
      if groups[0].status != r.status {
        KeysAddToGroup(groups[1..], r);
        var rest := AddToGroup(groups[1..], r);
        assert Keys([groups[0]] + rest) == [groups[0].status] + Keys(rest);
      }
    }
  }

  /** `groupBy` never files two groups under the same status. */
  lemma {:induction false} GroupKeysDistinct(rs: seq<Response>)
    ensures Distinct(Keys(GroupByStatus(rs)))
  {
    if rs != [] {
      var init, last := rs[..|rs| - 1], rs[|rs| - 1];
      GroupKeysDistinct(init);
      KeysAddToGroup(GroupByStatus(init), last);
    }
  }

  /** A status is a key of the grouping exactly when some response has it. */
  lemma GroupKeysAreStatuses(rs: seq<Response>, s: int)
    ensures s in Keys(GroupByStatus(rs)) <==> exists i :: 0 <= i < |rs| && rs[i].status == s
  {
    GroupByStatusIsFilter(rs, s);
    LookupNoneIffAbsent(GroupByStatus(rs), s);
    var f := WithStatus(rs, s);
    if f != [] {
      assert f[0] in rs;
      var i :| 0 <= i < |rs| && rs[i] == f[0];
      assert rs[i].status == s;
    }
    if exists i :: 0 <= i < |rs| && rs[i].status == s {
      var i :| 0 <= i < |rs| && rs[i].status == s;
      assert rs[i] in f;
    }
  }

  lemma {:induction false} LookupOfDistinct(groups: seq<Group>, i: nat)
    requires Distinct(Keys(groups)) && i < |groups|
    ensures Lookup(groups, groups[i].status) == Some(groups[i].members)
  {
    if i > 0 {
      assert Keys(groups)[0] != Keys(groups)[i];
      var tail := groups[1..];
      assert Distinct(Keys(tail)) by {
        forall a, b | 0 <= a < b < |tail| ensures Keys(tail)[a] != Keys(tail)[b] {
          assert Keys(groups)[a + 1] != Keys(groups)[b + 1];
        }
      }
      LookupOfDistinct(tail, i - 1);
    }
  }

  lemma {:induction false} SumOfSizesAddToGroup(groups: seq<Group>, r: Response)
    ensures SumOfSizes(AddToGroup(groups, r)) == SumOfSizes(groups) + 1
  {
    if groups != [] {
      if groups[0].status == r.status {
        assert ([Group(r.status, groups[0].members + [r])] + groups[1..])[1..] == groups[1..];
      } else {
        SumOfSizesAddToGroup(groups[1..], r);
        assert ([groups[0]] + AddToGroup(groups[1..], r))[1..] == AddToGroup(groups[1..], r);
      }
    }
  }

  lemma {:induction false} GroupSizesSum(rs: seq<Response>)
    ensures SumOfSizes(GroupByStatus(rs)) == |rs|
  {
    if rs != [] {
      GroupSizesSum(rs[..|rs| - 1]);
      SumOfSizesAddToGroup(GroupByStatus(rs[..|rs| - 1]), rs[|rs| - 1]);
    }
  }

  /**
    `groupBy` partitions the responses: no group is empty, every member of a
    group has the group's status, every response is in the group of its own
    status, and the group sizes add up to the number of responses.
  */
  lemma GroupByStatusPartitions(rs: seq<Response>)
    ensures forall i :: 0 <= i < |GroupByStatus(rs)| ==> GroupByStatus(rs)[i].members != []
    ensures forall i, r :: 0 <= i < |GroupByStatus(rs)| && r in GroupByStatus(rs)[i].members
              ==> r.status == GroupByStatus(rs)[i].status
    ensures forall j :: 0 <= j < |rs| ==> rs[j] in MembersOf(GroupByStatus(rs), rs[j].status)
    ensures SumOfSizes(GroupByStatus(rs)) == |rs|
  {
    var groups := GroupByStatus(rs);
    GroupKeysDistinct(rs);
    forall i | 0 <= i < |groups|
      ensures groups[i].members == WithStatus(rs, groups[i].status) != []
    {
      LookupOfDistinct(groups, i);
      GroupByStatusIsFilter(rs, groups[i].status);
    }
    forall j | 0 <= j < |rs| ensures rs[j] in MembersOf(groups, rs[j].status) {
      GroupByStatusIsFilter(rs, rs[j].status);
      assert rs[j] in WithStatus(rs, rs[j].status);
    }
    GroupSizesSum(rs);
  }

  /*
   * The report
   */

  /** The statistics printed for one population of responses. */
  datatype Summary = Summary(
    count: nat,
    mean: real,
    max: int,
    median: int,
    p75: int,
    p90: int,
    p95: int,
    p99: int)

  /** The block printed for one status code. */
  datatype StatusSection = StatusSection(status: int, proportion: real, stats: Summary)

  /** What `toString` prints: the overall statistics, then one block per status. */
  datatype Report = Report(overall: Summary, byStatus: seq<StatusSection>)

  /**
    The statistics of the population `rs` (`size`, `meanResponseTime` and
    `percentileTime`), where the percentile guard looks at `recorded`.
  */
  function Summarise(recorded: seq<Response>, rs: seq<Response>): (s: Summary)
    requires |recorded| > 0 ==> |rs| > 0
    ensures s.count == |rs|
  {
    var times := Times(rs);
    Summary(
      |rs|,
      AverageOrZero(times),
      Percentile(recorded, times, 100),
      Percentile(recorded, times, 50),
      Percentile(recorded, times, 75),
      Percentile(recorded, times, 90),
      Percentile(recorded, times, 95),
      Percentile(recorded, times, 99))
  }

  /** The share of `part` in `total`, in percent, exactly (`asPercentage` without its rounding). */
  function Proportion(part: nat, total: nat): (pct: real)
    requires total > 0
    ensures pct * (total as real) == (part as real) * 100.0
    ensures part <= total ==> 0.0 <= pct <= 100.0
    ensures part == total ==> pct == 100.0
  {
    var q := part as real / total as real;
    assert q * (total as real) == part as real;
    q * 100.0
  }

  /**
    The block for one status (the lambda in `printResultsByStatus`, which
    looks the status up in `responsesByStatus`); `None` stands for the
    `error(...)` raised when the status has no group.
  */
  function StatusBlock(recorded: seq<Response>, status: int): Option<StatusSection> {
    match Lookup(GroupByStatus(recorded), status)
    case None => None
    case Some(members) =>
      GroupByStatusIsFilter(recorded, status);
      Some(StatusSection(status, Proportion(|members|, |recorded|), Summarise(recorded, members)))
  }

  /**
    The blocks for `statuses`, in that order (`joinToString`); `None` if the
    block of any status fails.
  */
  function StatusBlocks(recorded: seq<Response>, statuses: seq<int>): Option<seq<StatusSection>> {
    var blocks := seq(|statuses|, k requires 0 <= k < |statuses| => StatusBlock(recorded, statuses[k]));
    if forall k :: 0 <= k < |blocks| ==> blocks[k].Some? then
      Some(seq(|blocks|, k requires 0 <= k < |blocks| && blocks[k].Some? => blocks[k].value))
    else
      None
  }

  /** The statuses of the grouping in ascending order (`keys.sorted()`). */
  function SortedStatuses(recorded: seq<Response>): seq<int> {
    SortAsc(Keys(GroupByStatus(recorded)))
  }

  /** `printResultsByStatus`: one block per status present, in ascending status order. */
  function ResultsByStatus(recorded: seq<Response>): Option<seq<StatusSection>> {
    StatusBlocks(recorded, SortedStatuses(recorded))
  }

  /** `toString`, as a record: `None` would be the `error(...)` of `printResultsByStatus`. */
  function BuildReport(recorded: seq<Response>): Option<Report> {
    match ResultsByStatus(recorded)
    case None => None
    case Some(sections) => Some(Report(Summarise(recorded, recorded), sections))
  }

  /** The block of a status that occurs: its share of all responses and the statistics of its group. */
  lemma StatusBlockOfKey(recorded: seq<Response>, s: int)
    requires s in Keys(GroupByStatus(recorded))
    ensures WithStatus(recorded, s) != []
    ensures StatusBlock(recorded, s)
         == Some(StatusSection(s, Proportion(|WithStatus(recorded, s)|, |recorded|),
                               Summarise(recorded, WithStatus(recorded, s))))
  {
    GroupByStatusIsFilter(recorded, s);
    LookupNoneIffAbsent(GroupByStatus(recorded), s);
    var members := WithStatus(recorded, s);
    assert Lookup(GroupByStatus(recorded), s) == Some(members);
    assert |recorded| >= |members| > 0;
  }

  /** Every status of the sorted key list has a block. */
  lemma SortedStatusBlocksExist(recorded: seq<Response>)
    ensures forall k :: 0 <= k < |SortedStatuses(recorded)| ==> StatusBlock(recorded, SortedStatuses(recorded)[k]).Some?
  {
    var statuses := SortedStatuses(recorded);
    forall k | 0 <= k < |statuses|
      ensures StatusBlock(recorded, statuses[k]).Some?
    {
      assert statuses[k] in multiset(Keys(GroupByStatus(recorded)));
      StatusBlockOfKey(recorded, statuses[k]);
    }
  }

  /** When every block exists, `StatusBlocks` lists them in the order of `statuses`. */
  lemma StatusBlocksAllPresent(recorded: seq<Response>, statuses: seq<int>)
    requires forall k :: 0 <= k < |statuses| ==> StatusBlock(recorded, statuses[k]).Some?
    ensures StatusBlocks(recorded, statuses).Some?
    ensures |StatusBlocks(recorded, statuses).value| == |statuses|
    ensures forall k :: 0 <= k < |statuses| ==>
              StatusBlocks(recorded, statuses).value[k] == StatusBlock(recorded, statuses[k]).value
  {
  }

  /**
    The `error(...)` branch of `printResultsByStatus` is never taken: the
    report exists, with one block per status, in ascending status order.
  */
  lemma ReportNeverFails(recorded: seq<Response>)
    ensures BuildReport(recorded).Some?
    ensures |BuildReport(recorded).value.byStatus| == |SortedStatuses(recorded)|
    ensures forall k :: 0 <= k < |SortedStatuses(recorded)| ==>
              StatusBlock(recorded, SortedStatuses(recorded)[k]).Some? &&
              BuildReport(recorded).value.byStatus[k] == StatusBlock(recorded, SortedStatuses(recorded)[k]).value
  {
    SortedStatusBlocksExist(recorded);
    StatusBlocksAllPresent(recorded, SortedStatuses(recorded));
  }

  /*
   * The recorder
   */

  /** The recorder object: an append-only list of responses. */
  class HttpResults {
    /** Every response recorded so far, oldest first (`responses`). */
    var responses: seq<Response>
    /** How many times `AddResponse` has been called on this object. */
    ghost var added: nat

    ghost predicate Valid()
      reads this
    {
      |responses| == added
    }

    constructor ()
      ensures Valid()
      ensures responses == [] && added == 0
    {
      responses := [];
      added := 0;
    }

    /** `addResponse`: record one response at the end; nothing recorded earlier changes. */
    method AddResponse(statusCode: int, time: int)
      requires Valid()
      modifies this
      ensures Valid()
      ensures responses == old(responses) + [Response(statusCode, time)]
      ensures added == old(added) + 1
    {
      responses := responses + [Response(statusCode, time)];
      added := added + 1;
    }

    /**
      `toString`, as a record. It never fails, and the number of responses it
      reports is the number of `AddResponse` calls made.
    */
    function Render(): (r: Report)
      requires Valid()
      reads this
      ensures BuildReport(responses) == Some(r)
      ensures r.overall.count == added
    {
      ReportNeverFails(responses);
      BuildReport(responses).value
    }
  }
}
