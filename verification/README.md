# HttpResults, modelled in Dafny

`HttpResults` is the results recorder of the kapacity load-testing tool. Each
completed HTTP request hands it a `(status code, duration)` pair through
`addResponse`; `toString` then reports, for all responses together and for
each status code separately, the number of responses, the mean duration and
the nearest-rank percentiles 50, 75, 90, 95, 99 and 100 (the maximum), plus
each status code's share of all responses.

The model has four modules:

- `Sorting` (`sorting.dfy`): ascending sort of integers, standing for Kotlin's
  `sorted()` and `sortedBy { it }`. It is an insertion sort specified as
  "sorted and a permutation". `SortedUnique` shows that this contract
  fixes the result, so any correct sort gives the same list.
- `Percentiles` (`percentile.dfy`): the nearest-rank percentile. The rank
  `ceil(p / 100 * n)` is computed on integers as `(p * n + 99) / 100`. The
  module proves that this value is exactly the nearest-rank definition: the
  smallest value of the list such that at least p% of the list is at most it.
- `HttpRecorder` (`http_results.dfy`): the recorder class and the report.
  - `Response` and `Times` (`toTimes`).
  - `AverageOrZero`, an exact rational mean.
  - `Percentile`, with its emptiness guard on the whole recorder.
  - `groupBy`, modelled as an ordered association list (Kotlin's
    `LinkedHashMap`: groups in order of first appearance, members in
    recorded order).
  - The report as a record: `Report(overall, byStatus)`.
  - The class `HttpResults`, whose `responses` field `AddResponse` extends.
- `ReportProperties` (`report_properties.dfy`): what the report promises.
  - The empty report.
  - Ordered percentiles.
  - Per-status blocks that partition the responses, in strictly ascending
    status order, with proportions adding up to 100%.
  - Independence from the order in which the responses were recorded.
  - The single-response report and a four-response worked example.

A status code's lookup in the grouping (`responsesByStatus[status] ?:
error(...)`) is modelled as an `Option`: `None` stands for the `error(...)`
branch. `ReportNeverFails` proves that branch is never taken.

Two details of the code that the model keeps:

- The guard of `percentile` (line 83) tests the field `responses`, every
  response of the recorder, and not the value list it is given, so
  `Percentile` takes both lists.
- For the four responses (200,100), (200,200), (200,300), (500,50) the
  overall median is 100, which `FourResponses` proves.

## Model

All source paths are `src/main/kotlin/com/stuforbes/kapacity/recorder/http/HttpResults.kt`.

| member | source | states |
|---|---|---|
| HttpRecorder.HttpResults.constructor | src/main/kotlin/com/stuforbes/kapacity/recorder/http/HttpResults.kt:28 | a new recorder holds no responses |
| HttpRecorder.HttpResults.AddResponse | src/main/kotlin/com/stuforbes/kapacity/recorder/http/HttpResults.kt:33-35 | exactly one `Response(statusCode, time)` is appended at the end, and every earlier response is unchanged; the recorded count grows by one |
| HttpRecorder.HttpResults.Render | src/main/kotlin/com/stuforbes/kapacity/recorder/http/HttpResults.kt:37-53 | the report always exists (no `error(...)`), and its number of responses equals the number of `AddResponse` calls made |
| HttpRecorder.Times | src/main/kotlin/com/stuforbes/kapacity/recorder/http/HttpResults.kt:94 | the durations list has one entry per response, and entry i is response i's duration |
| HttpRecorder.AverageOrZero | src/main/kotlin/com/stuforbes/kapacity/recorder/http/HttpResults.kt:96-99 | 0 for an empty list; otherwise mean × count = sum |
| HttpRecorder.Sum | src/main/kotlin/com/stuforbes/kapacity/recorder/http/HttpResults.kt:98 | the total that `average()` divides by the count; no contract of its own: `SumBounds` bounds it by count × any lower and upper bound of the elements, and `SumSortAsc` shows it does not change under sorting |
| HttpRecorder.MeanWithinBounds | src/main/kotlin/com/stuforbes/kapacity/recorder/http/HttpResults.kt:96-99 | the mean of a non-empty list lies between any lower and any upper bound of its elements |
| HttpRecorder.Percentile | src/main/kotlin/com/stuforbes/kapacity/recorder/http/HttpResults.kt:82-91 | 0 when the recorder holds no responses; otherwise one of the values of the list |
| Percentiles.NearestRank | src/main/kotlin/com/stuforbes/kapacity/recorder/http/HttpResults.kt:87 | for 1 ≤ p ≤ 100 and n > 0 the rank k lies in [1, n] (so `sorted[index - 1]` is in bounds) and is the ceiling of p·n/100: (k-1)·100 < p·n ≤ k·100 |
| Percentiles.NearestRankValue | src/main/kotlin/com/stuforbes/kapacity/recorder/http/HttpResults.kt:84-89 | the selected value is an element of the input list |
| Percentiles.PercentileIsNearestRank | src/main/kotlin/com/stuforbes/kapacity/recorder/http/HttpResults.kt:84-89 | a value is the selected one if and only if it is the nearest-rank percentile: a list value with at least p% of the list at most it, and no smaller list value with that property |
| Percentiles.PercentileMonotone | src/main/kotlin/com/stuforbes/kapacity/recorder/http/HttpResults.kt:84-89 | p ≤ q implies percentile(p) ≤ percentile(q) |
| Percentiles.PercentileAt100IsMax | src/main/kotlin/com/stuforbes/kapacity/recorder/http/HttpResults.kt:42 | percentile 100 is at least every value of the list; together with membership, it is the maximum |
| Percentiles.PercentileOfPermutation | src/main/kotlin/com/stuforbes/kapacity/recorder/http/HttpResults.kt:84-85 | the percentile depends only on the multiset of values, not their order |
| Sorting.SortAsc | src/main/kotlin/com/stuforbes/kapacity/recorder/http/HttpResults.kt:85 | the result is sorted ascending and is a permutation of the input |
| Sorting.SortedUnique | src/main/kotlin/com/stuforbes/kapacity/recorder/http/HttpResults.kt:85 | two sorted permutations of the same values are equal, so the sort's result is determined by its contract |
| Sorting.SortAscOfDistinct | src/main/kotlin/com/stuforbes/kapacity/recorder/http/HttpResults.kt:57 | sorting map keys, which never repeat, yields a strictly ascending list |
| HttpRecorder.Keys | src/main/kotlin/com/stuforbes/kapacity/recorder/http/HttpResults.kt:57 | the map's `keys`: one status per group, key i being group i's status |
| HttpRecorder.Lookup | src/main/kotlin/com/stuforbes/kapacity/recorder/http/HttpResults.kt:58 | `responsesByStatus[status]`; no contract of its own: `LookupNoneIffAbsent` shows it misses exactly when the status is not a key, `LookupOfDistinct` that with distinct keys it returns the status's own group, and `GroupByStatusIsFilter` what that group is |
| HttpRecorder.AddToGroup | src/main/kotlin/com/stuforbes/kapacity/recorder/http/HttpResults.kt:79-80 | one step of `groupBy`; no contract of its own: `LookupAddToGroup` (the response joins its status's group at the end, other groups unchanged), `KeysAddToGroup` (a new status is appended to the keys) and `SumOfSizesAddToGroup` (the total size grows by one) characterise it |
| HttpRecorder.GroupByStatus | src/main/kotlin/com/stuforbes/kapacity/recorder/http/HttpResults.kt:79-80 | `responsesByStatus()`; no contract of its own: `GroupByStatusIsFilter` and `GroupByStatusPartitions` show each group is the in-order filter of its status, no group is empty, and the groups partition the responses; `GroupKeysDistinct` and `GroupKeysAreStatuses` describe its keys |
| HttpRecorder.WithStatus | src/main/kotlin/com/stuforbes/kapacity/recorder/http/HttpResults.kt:79-80 | a response is in the filtered list exactly when it was recorded and has the given status |
| HttpRecorder.LookupAddToGroup | src/main/kotlin/com/stuforbes/kapacity/recorder/http/HttpResults.kt:79-80 | one `groupBy` step appends the response to its own status's group and leaves every other group unchanged |
| HttpRecorder.GroupByStatusIsFilter | src/main/kotlin/com/stuforbes/kapacity/recorder/http/HttpResults.kt:79-80 | the group of a status is exactly the responses with that status, in recorded order; the lookup misses exactly when there are none |
| HttpRecorder.GroupKeysDistinct | src/main/kotlin/com/stuforbes/kapacity/recorder/http/HttpResults.kt:79-80 | no status is a key twice |
| HttpRecorder.GroupKeysAreStatuses | src/main/kotlin/com/stuforbes/kapacity/recorder/http/HttpResults.kt:79-80 | a status is a key exactly when some recorded response has it |
| HttpRecorder.GroupByStatusPartitions | src/main/kotlin/com/stuforbes/kapacity/recorder/http/HttpResults.kt:79-80 | no group is empty, every member has its group's status, every response is in its own status's group, and the group sizes add up to the number of responses |
| HttpRecorder.StatusBlockOfKey | src/main/kotlin/com/stuforbes/kapacity/recorder/http/HttpResults.kt:56-71 | for a status that is a key, the lookup succeeds and the block holds the status, its share of all responses and the statistics of its non-empty group |
| HttpRecorder.ReportNeverFails | src/main/kotlin/com/stuforbes/kapacity/recorder/http/HttpResults.kt:55-58 | the `error(...)` branch is never taken; the report has one block per sorted status, in that order |
| HttpRecorder.Summarise | src/main/kotlin/com/stuforbes/kapacity/recorder/http/HttpResults.kt:76-77 | the statistics of one population: the count is its size; `SummaryOfPopulation` proves every percentile is one of its durations, the percentiles ordered up to the max and the mean between the smallest duration and the max; `SummariseOfPermutation` shows it ignores order |
| HttpRecorder.Proportion | src/main/kotlin/com/stuforbes/kapacity/recorder/http/HttpResults.kt:64 | the share in percent: share × total = part × 100 exactly; it lies in [0, 100] when part ≤ total, and is 100 when part is the whole; `ProportionsTotal` shows the report's shares add up to 100 |
| HttpRecorder.StatusBlock | src/main/kotlin/com/stuforbes/kapacity/recorder/http/HttpResults.kt:58-71 | the block of one status, `None` for the `error(...)`; no contract of its own: `StatusBlockOfKey` proves that for every key it is `Some` with the status, its share and the statistics of its non-empty group |
| HttpRecorder.StatusBlocks | src/main/kotlin/com/stuforbes/kapacity/recorder/http/HttpResults.kt:57-73 | `joinToString` over the statuses; no contract of its own: `StatusBlocksAllPresent` shows that when every block exists it lists them, one per status, in the given order |
| HttpRecorder.SortedStatuses | src/main/kotlin/com/stuforbes/kapacity/recorder/http/HttpResults.kt:57 | `keys.sorted()`; no contract of its own: `SectionsAscendingAndComplete` proves it strictly ascending and holding exactly the recorded statuses, and `SortedStatusesOfPermutation` that it ignores recording order |
| HttpRecorder.ResultsByStatus | src/main/kotlin/com/stuforbes/kapacity/recorder/http/HttpResults.kt:55-74 | `printResultsByStatus`; no contract of its own: `ReportNeverFails` and `SectionsOfSortedStatuses` show it yields one block per sorted status, each the share and statistics of that status's responses |
| HttpRecorder.BuildReport | src/main/kotlin/com/stuforbes/kapacity/recorder/http/HttpResults.kt:37-53 | `toString` as a record; no contract of its own: `ReportNeverFails` (it always exists), `OverallStatistics` (the overall block), `SectionsAscendingAndComplete`, `SectionCountsTotal`, `ProportionsTotal` and `ReportOrderIndependent` characterise it |
| ReportProperties.EmptyReport | src/main/kotlin/com/stuforbes/kapacity/recorder/http/HttpResults.kt:37-99 | with nothing recorded: count 0, mean 0, every percentile 0, no status blocks |
| ReportProperties.SummaryOfPopulation | src/main/kotlin/com/stuforbes/kapacity/recorder/http/HttpResults.kt:40-47 | for a non-empty population: count is its size, every percentile is one of its durations, median ≤ p75 ≤ p90 ≤ p95 ≤ p99 ≤ max, max is at least every duration, and the mean lies between the smallest duration and the max |
| ReportProperties.OverallStatistics | src/main/kotlin/com/stuforbes/kapacity/recorder/http/HttpResults.kt:40-47 | the overall block is the statistics of every recorded response, and its count is the number recorded |
| ReportProperties.SectionAt | src/main/kotlin/com/stuforbes/kapacity/recorder/http/HttpResults.kt:57-71 | block k belongs to the k-th smallest status, with that status's share and the statistics of its responses |
| ReportProperties.SectionsOfSortedStatuses | src/main/kotlin/com/stuforbes/kapacity/recorder/http/HttpResults.kt:55-73 | the blocks' statuses are the sorted statuses; each block's statistics and share are those of its status's responses |
| ReportProperties.SectionsAscendingAndComplete | src/main/kotlin/com/stuforbes/kapacity/recorder/http/HttpResults.kt:57 | blocks come in strictly ascending status order; a status has a block exactly when some recorded response has it |
| ReportProperties.SectionCountsTotal | src/main/kotlin/com/stuforbes/kapacity/recorder/http/HttpResults.kt:63 | every block's count is positive, and the counts add up to the overall count |
| ReportProperties.ProportionsTotal | src/main/kotlin/com/stuforbes/kapacity/recorder/http/HttpResults.kt:64 | with at least one response, the blocks' proportions add up to exactly 100% |
| ReportProperties.TimesOfPermutation | src/main/kotlin/com/stuforbes/kapacity/recorder/http/HttpResults.kt:94 | reordering responses reorders their durations |
| ReportProperties.MeanOfPermutation | src/main/kotlin/com/stuforbes/kapacity/recorder/http/HttpResults.kt:96-99 | the mean does not depend on the order of the list |
| ReportProperties.SummariseOfPermutation | src/main/kotlin/com/stuforbes/kapacity/recorder/http/HttpResults.kt:76-77 | a population's statistics depend only on which responses it holds |
| ReportProperties.WithStatusOfPermutation | src/main/kotlin/com/stuforbes/kapacity/recorder/http/HttpResults.kt:79-80 | reordering the responses reorders each status's group and changes nothing else about it |
| ReportProperties.SortedStatusesOfPermutation | src/main/kotlin/com/stuforbes/kapacity/recorder/http/HttpResults.kt:57 | the sorted status list does not depend on the recording order |
| ReportProperties.ReportOrderIndependent | src/main/kotlin/com/stuforbes/kapacity/recorder/http/HttpResults.kt:37-91 | two recorders holding the same responses in any order produce the same report |
| ReportProperties.SingleResponse | src/main/kotlin/com/stuforbes/kapacity/recorder/http/HttpResults.kt:37-72 | one recorded response: every statistic is its duration, and its status is the only block, with 100% |
| ReportProperties.TwoSections | src/main/kotlin/com/stuforbes/kapacity/recorder/http/HttpResults.kt:55-73 | with exactly two statuses, the report's blocks are the lower status's block, then the higher one's |
| ReportProperties.FourResponses | src/main/kotlin/com/stuforbes/kapacity/recorder/http/HttpResults.kt:37-72 | (200,100), (200,200), (200,300), (500,50) give: count 4, mean 162.5, max 300, median 100, p75 200, p90–p99 300; status 200 at 75% (mean 200, median 200, max 300); status 500 at 25% (every statistic 50) |

## Left out

- The text layout of `toString` and of each status block (`trimMargin`, the string templates; lines 37-53 and 60-72). The report is a record holding the same numbers.
- `to2DP` (lines 101-103) and `asPercentage` (line 105): the mean and the proportion are exact rationals (`real`), not rounded to two decimals with HALF_EVEN.
- `average()` as floating point (line 98): the mean is the exact quotient sum / count.
- The floating-point rank `ceil((p.toDouble() / 100) * size)` (line 87): it is replaced by the integer ceiling `(p * n + 99) / 100`. In IEEE double arithmetic the two agree for every p the report uses (50, 75, 90, 95, 99, 100) and every n up to 2,000,000; they first differ at percentages no call site passes, such as p = 7 with n = 100, p = 14 with n = 50 and p = 28 with n = 25. So at the call sites (lines 42-47 and 66-71) the model's rank is the code's rank for any realistic number of responses; beyond 2,000,000 responses the agreement is not established.
- Integer widths: `status` is a Kotlin `Int` and `time` a `Long`, but the code does no arithmetic on them apart from the floating-point mean, so both are unbounded `int`s here.
- Concurrency: `responses` is a plain `mutableListOf` without locking (line 28). Concurrent `addResponse` calls are not modelled; the class is used sequentially.
- HttpRecorder.Percentile: requires a non-empty value list and 1 ≤ p ≤ 100 when the recorder is non-empty. The source would throw for an empty list or an out-of-range p; no call site (lines 42-47, 66-71) can do either, so the exception paths are not modelled.
- The `Long` results of `percentile` and the `Double` results of `meanResponseTime` are not distinguished from plain numbers; the report stores them as `int` and `real`.
