# Adaptive merge sorts, modelled and verified in Dafny

This project models the sorting engine of the adaptive-sorting repository and proves its properties. The engine sorts an integer array in place by detecting natural runs and merging them. The model covers:

- **Run scanning.** A scan finds the maximal non-decreasing or non-increasing run that starts at an index, and reverses a descending run in place. There are two scan rules. `commons.py` ascends first and re-scans as descending when the ascent was flat. `timsort.py` skips the prefix of elements equal to the first one first. Both rules are proved against one specification, `Scan.NaturalRunEnd` and `Scan.Normalized`, so they find the same run.
- **Minimum-run extension.** A natural run shorter than the minimum run length is extended by binary insertion sort. The insertion sort is built on a lower-bound binary search.
- **Two-way merge.** The merge copies two adjacent sorted slices out and writes them back merged, taking the left element on ties. It is proved equal to the stable merge `Order.StableMerge` of the copies.
- **Three run schedulers:**
  - the Timsort stack with its four size rules;
  - the Powersort scheduler, with the run stack `X`, the power stack `P` and `node_power`;
  - the natural merge sort, which makes repeated left-to-right pairwise passes over half-open runs.
- **Top-down merge sort.** This baseline builds new lists.

Every file under `benchmark_versions/` repeats one of these algorithms and also returns the number of element comparisons it made. Its Dafny twin does to the array exactly what the plain member does. Its contract bounds the count by terms of the input. A scan costs at least one comparison per element of its run, or one fewer with the benchmark scans. It costs at most the cost factor times the run's length plus two, where the cost factor is the minimum run length when the run may be extended and 1 otherwise. A merge of two non-empty runs costs between 1 and n - 1.

## Modules

- `Order`: sortedness, the frame predicate `SameOutside` (nothing outside [lo, hi) changes), range reversal, and the stable merge with its comparison count.
- `Runs`: the inclusive `Run(start, end)` record of the source, shared by `Run(start, end)` in `commons.py` and `Run(low, high)` in `timsort.py`. It also defines the tiling predicate on run sequences, which the scheduler stacks keep.
- `Scan`: what a natural run is, independently of how a scan loop is written.
- `Arith`: powers of two, and integer division truncating toward zero as Python's `int()` does. It also holds the counting budgets `Counted` and `Budget`, and `Halvings` (the ceiling of log2).
- `Commons` and `CountingCommons`: `algorithms/commons.py` and `benchmark_versions/commons.py`. These members also serve the textually identical copies of the scan, insertion sort, search and merge in `timsort.py`, `benchmark_timsort.py`, `benchmark_powersort.py` and `benchmark_natural_merge_sort.py`. The table below names which member models which copy.
- `Timsort`, `CountingTimsort` and `BenchmarkTimsort`.
- `Powersort`, `CountingPowersort` and `BenchmarkPowersort`.
- `NaturalMergeSort`, `CountingNaturalMergeSort` and `BenchmarkNaturalMergeSort`.
- `MergeSort`: `benchmark_versions/merge_sort.py` and `benchmark_versions/benchmark_merge_sort.py`, whose code is the same.

## How the model relates to the source

- **Elements.** Elements are unbounded integers. A sort's contract is always that the array ends sorted and is a permutation of the input (`multiset(a[..]) == multiset(old(a[..]))`).
- **Slice assignments.** Python's slice assignments become `forall` statements over the array: the reversal `arr[start:i+1] = reversed(...)` and the shift `arr[j+1:i+1] = arr[j:i]`.
- **Closures.** The closures `merge12` and `merge23` of the Timsort scheduler become methods that return the new stack.
- **Stacks.** Python lists that are pushed and popped (`S`, `X`, `P`, `runs`, `new_runs`) become `seq` values that the loops reassign.
- **Comparison counts.** The counted operations return their count as an out-parameter. The Timsort and Powersort schedulers also return two ghost out-parameters. `runs` is the run decomposition of the input, `Commons.RunsFrom(old(a[..]), 0, minRun)`. `scanned` is what the run scans cost, bounded by n and the number of runs r. The merges cost the total minus `scanned`, which lies between r - 1 and (r - 1) * (n - 1).

### Edge cases of the code

In the first case the model departs from the code; in the other two it does what the code does:

- **Galloping flags.** `algorithms/powersort.py:37,43` calls `merge` with six arguments, two of them galloping flags. The `merge` it imports takes four parameters (`algorithms/commons.py:137`), and no galloping code exists, so on any input with two or more runs the code raises `TypeError` at its first merge. The model departs from the code here: it calls the four-parameter linear merge and sorts, and `Powersort.Powersort` takes no flags.
- **Rounding in `node_power`.** The code converts the scaled midpoints with `int()`, which truncates toward zero rather than rounding down. The two differ when a midpoint is negative, as it is for a first run of one element at index 0. The model truncates toward zero (`Arith.TruncDiv`).
- **Empty input to Powersort.** `powersort` in `algorithms/` and in `benchmark_versions/powersort.py` scans the first run before testing the length, and the scan reads `arr[start]` of the empty array (`algorithms/commons.py:88`). Those two models therefore require a non-empty array. `benchmark_powersort.py` never reads the array at `start == len`. Its model accepts the empty array and returns a count of 0.

## Model

| member | source | states |
|---|---|---|
| Order.StableMergeMultiset | algorithms/commons.py:149-170 | the merged sequence has length len(left) + len(right) and is a permutation of left ++ right |
| Order.StableMergeSorted | algorithms/commons.py:154-169 | merging two sorted sequences gives a sorted sequence |
| Order.StableMergeHead | algorithms/commons.py:155-160 | one-step unfolding of StableMerge for two non-empty parts: the first element written is the smaller head, and the left head on a tie |
| Order.StableMergeStep | algorithms/commons.py:154-161 | one-step unfolding of StableMerge and MergeComparisons on the unconsumed suffixes, which is one iteration of the main merge loop: the remaining merge is the left head followed by the rest when left[i] <= right[j] or the right part is exhausted, and otherwise the right head; the remaining count drops by one while both parts last |
| Order.MergeExhausted | algorithms/commons.py:162-169 | once one part is exhausted, copying the rest of both parts completes the stable merge |
| Order.MergeComparisonsBounds | benchmark_versions/commons.py:100-108 | the merge makes no comparisons when either part is empty, and otherwise between min(n1, n2) and n1 + n2 - 1 |
| Order.ReverseRangeProperties | algorithms/commons.py:92 | reversing [lo, hi) keeps the length and the multiset, changes nothing outside [lo, hi), and turns a non-increasing range into a sorted one |
| Order.MoveDownSorted | algorithms/commons.py:110-113 | inserting arr[i] at its lower bound j (shifting [j, i) one place right) makes [left, i] sorted, keeps the multiset, and changes nothing outside [j, i] |
| Scan.NaturalRunSpec | algorithms/commons.py:84-93 | the natural run from start ends within the array; after normalising it is sorted, the array is a permutation of the input, and nothing outside the run changes; it is a maximal non-decreasing run that ends above its first element, or a maximal non-increasing run |
| Scan.AscendingCase | algorithms/commons.py:85-87 | a run that rises above its first element is left in place and is maximal: it ends at the last index or before a descent |
| Scan.DescendingCase | algorithms/commons.py:88-92 | a flat or falling run is maximal non-increasing, and reversing it sorts it without changing the multiset or anything outside it |
| Scan.AscEndMaximal | algorithms/commons.py:85-87 | the ascending loop stops at the end of a maximal non-decreasing stretch |
| Scan.DescEndMaximal | algorithms/commons.py:89-91 | the descending loop stops at the end of a maximal non-increasing stretch |
| Scan.EqEndMaximal | algorithms/timsort.py:96-98 | the equal-prefix loop stops at the end of the maximal stretch of elements equal to arr[start] |
| Scan.EqualPrefixRule | algorithms/timsort.py:96-106 | ascending or descending from the end of the equal prefix ends where ascending or descending from start ends, and the ascent after the equal prefix makes no progress exactly when the run is flat or descending; so both scan rules find the same run |
| Runs.MergeTopSorted | algorithms/timsort.py:39-43 | replacing the top two runs by Run(r2.low, r1.high) keeps the stack tiling its range, and once that range is sorted every stack run is sorted |
| Runs.MergeSecondSorted | algorithms/timsort.py:45-50 | replacing r3 and r2 by Run(r3.low, r2.high) under an unchanged r1 keeps the tiling, and every run is sorted once the merged range is |
| Runs.SingleRunSorted | algorithms/timsort.py:63-67 | one sorted run that tiles the array is Run(0, n - 1), and the array is sorted |
| Runs.AllSortedPush | algorithms/commons.py:45-48 | pushing a run that starts where the tiling ends, and sorting only its range, extends the tiling and keeps every run sorted |
| Arith.TruncDiv | algorithms/powersort.py:62 | int() of x / d truncates toward zero: for x >= 0 the remainder x - q*d lies in [0, d), and for x < 0 the quotient is <= 0 and q*d - x lies in [0, d) |
| Arith.HalvingsIsCeilLog2 | algorithms/natural_merge_sort.py:20-31 | the number of halvings (rounding up) that take k >= 1 runs to one is the least h with k <= 2^h |
| Commons.ReverseInPlace | algorithms/commons.py:92 | the array becomes its old contents with [lo, hi) reversed |
| Commons.FindNextNaturalRun | algorithms/commons.py:73-93 | returns the end of the natural run from start and leaves the array normalised: start <= end < n, [start, end] sorted, a permutation, nothing outside [start, end] changed |
| Commons.Ascend | algorithms/commons.py:84-87 | the ascending loop returns the end of the maximal non-decreasing stretch from start |
| Commons.Descend | algorithms/commons.py:88-91 | the descending loop, resuming where a flat ascent stopped, returns the end of the maximal non-increasing stretch from start |
| Commons.BinarySearch | algorithms/commons.py:116-134 | returns k with start <= k <= end; on a sorted range every element of [start, k) is < val and every element of [k, end) is >= val; it also models the identical copy in `algorithms/timsort.py` |
| Commons.BinaryInsertionSort | algorithms/commons.py:96-113 | with [left, m] sorted, makes [left, right] sorted and a permutation and changes nothing outside it; when m >= right nothing changes; it also models the identical copy in `algorithms/timsort.py` |
| Commons.InsertNext | algorithms/commons.py:109-113 | one insertion: with [left, i) sorted, makes [left, i] sorted and a permutation, changing nothing outside it |
| Commons.FindNextRun | algorithms/commons.py:52-70 | the run starts at start; it ends at min(start + min_run_length - 1, n - 1) when min_run_length is set, non-zero and longer than the natural run, and at the natural run's end otherwise; it is sorted, a permutation, nothing outside it changes, and with min_run_length its length reaches min_run_length unless it ends the array |
| Commons.FindRuns | algorithms/commons.py:31-49 | the runs are the input's run decomposition RunsFrom: each starts where the previous one ended and ends where RunEnd of the input says; they tile [0, n) left to right and are sorted; with min_run_length every run but the last has at least that length |
| Commons.PushNextRun | algorithms/commons.py:45-48 | one iteration of find_runs appends the run the input has at start (RunEnd), keeping the tiling, the sortedness and the minimum lengths of the runs found so far |
| Commons.ScanningPush | algorithms/commons.py:45-48 | pushing the run that ends where RunEnd of the current array says, once it is sorted and nothing else changed, keeps the runs found so far equal to the input's decomposition up to its end |
| Commons.DetectedPush | algorithms/commons.py:45-48 | the run RunEnd gives in the current array is the input's next run too, as long as the array from its start on is still the input |
| Commons.RunEndLong | algorithms/commons.py:64-70 | with a minimum run length the run found is at least that long unless it ends the array |
| Commons.RunEndFrame | algorithms/commons.py:52-70 | the run found at start depends only on the elements from start on, so sorting earlier runs does not change it |
| Commons.FoundAllRuns | algorithms/commons.py:43-49 | runs that tile [lo, n) and each end where RunEnd says are exactly the decomposition find_runs makes from lo, so the decomposition is unique |
| Commons.SortedSingleRun | algorithms/commons.py:43-49 | a sorted non-empty array decomposes into the single run Run(0, n - 1), whatever the minimum run length |
| Commons.Merge | algorithms/commons.py:137-170 | returns Run(l, r); [l, r] becomes the stable merge of the old [l, m] and [m+1, r]; it is a permutation, nothing outside [l, r] changes, and it is sorted when both halves were; it also models the identical copy in `algorithms/timsort.py` |
| Commons.MergeHeads | algorithms/commons.py:154-161 | the main loop writes a prefix of the stable merge into [l, k) and stops with one part exhausted; nothing outside [l, k) changes |
| Commons.CopyTails | algorithms/commons.py:162-169 | the two tail loops complete the stable merge in [l, r] and change nothing outside it |
| Commons.CopyRest | algorithms/commons.py:162-165 | a tail loop copies the rest of a part into the array from k on and changes nothing else |
| CountingCommons.ScanComparisonsBounds | benchmark_versions/commons.py:49-66 | the counted scan makes at least end - start + 1 and at most end - start + 3 comparisons |
| CountingCommons.FindNextNaturalRun | benchmark_versions/commons.py:48-66 | the array effect and run end of Commons.FindNextNaturalRun, with the count equal to the loop tests of the ascent, plus the flat test, plus the loop tests of the descent |
| CountingCommons.Ascend | benchmark_versions/commons.py:50-56 | returns the end of the ascent and one comparison per loop test |
| CountingCommons.Descend | benchmark_versions/commons.py:58-64 | returns the end of the descent and one comparison per loop test |
| CountingCommons.BinarySearch | benchmark_versions/commons.py:81-90 | the same lower bound as Commons.BinarySearch; count 0 exactly when the range is empty, at most end - start, and 2^(count-1) <= end - start; it also models the identical copy in `benchmark_versions/benchmark_timsort.py` and `benchmark_versions/benchmark_powersort.py` |
| CountingCommons.BinaryInsertionSort | benchmark_versions/commons.py:69-78 | the effect of Commons.BinaryInsertionSort; count 0 when m >= right, and otherwise at most (right - m) * (right - left); it also models the identical copy in `benchmark_versions/benchmark_timsort.py` and `benchmark_versions/benchmark_powersort.py` |
| CountingCommons.InsertNext | benchmark_versions/commons.py:72-77 | one counted insertion: the effect of Commons.InsertNext with at most i - left comparisons |
| CountingCommons.FindNextRun | benchmark_versions/commons.py:38-45 | the run and array effect of Commons.FindNextRun, ending where RunEnd of the input says; without extension the count is the scan's, with extension at least that; in all it lies between the run's length and the cost factor times the run's length plus 2 |
| CountingCommons.FindRuns | benchmark_versions/commons.py:26-35 | the runs of Commons.FindRuns, the input's decomposition RunsFrom; the count lies between n and the cost factor times n plus 2 per run, at least one per run, and without min_run_length between n and n + 2 * runs |
| CountingCommons.PushNextRun | benchmark_versions/commons.py:30-34 | one counted iteration appends the input's next run and keeps the runs found so far valid; the count stays between one per element scanned and the cost factor per element plus 2 per run |
| CountingCommons.ScanNext | benchmark_versions/commons.py:31-32 | the counted next run ends where RunEnd of the input says, is sorted in place, changes nothing outside it, and costs between its length and the cost factor times its length plus 2 |
| CountingCommons.NaturalRunCost | benchmark_versions/commons.py:39-40 | an unextended run's scan count, between its length (one fewer for the benchmark scans) and its length + 2, lies within the cost factor times its length plus 2 |
| CountingCommons.ExtendedRunCost | benchmark_versions/commons.py:41-44 | a scan that stops at e plus an insertion sort of [left, right] costs between the extended length (one fewer for the benchmark scans) and the cost factor times the extended length plus 2, when the extended length is at most the cost factor |
| CountingCommons.CountedDetectedDone | benchmark_versions/powersort.py:32-44 | once the scan reaches the end of a non-empty array, the runs found are the input's decomposition, 1 <= runs <= n, and the scan total lies between n (n - runs for the benchmark scans) and the cost factor times n plus 2 per run |
| CountingCommons.Merge | benchmark_versions/commons.py:93-117 | the effect of Commons.Merge; the count is exactly one per element placed while both parts last, 0 when a part is empty, and between 1 and r - l otherwise; it also models the identical copy in `benchmark_versions/benchmark_timsort.py` |
| CountingCommons.MergeHeads | benchmark_versions/commons.py:100-108 | the counted main merge loop: the write of Commons.MergeHeads, and the count of the whole merge |
| CountingCommons.MergeAdjacent | benchmark_versions/benchmark_powersort.py:110-133 | merging two adjacent non-empty runs returns their union's bounds, costs between 1 and the union's length - 1, and sorts the union when both runs were sorted |
| Timsort.FindNextNaturalRun | algorithms/timsort.py:91-108 | the equal-prefix-first scan returns the same run end and array as the ascend-first one (NaturalRunEnd, Normalized); at start == n it changes nothing |
| Timsort.ScanFrom | algorithms/timsort.py:96-107 | for start < n the scan's end is the natural run's end, and the array is normalised, sorted on the run, a permutation, and unchanged outside it |
| Timsort.EqualPrefix | algorithms/timsort.py:96-98 | the equal-prefix loop returns the end of the stretch of elements equal to arr[start] |
| Timsort.EqualPrefixDone | algorithms/timsort.py:99-108 | the two branches after the equal prefix (ascent, or descent and reversal) give the natural run and the normalised array |
| Timsort.NextRun | algorithms/timsort.py:79-85 | the run ends where RunEnd of the input with minimum 32 says: the natural run, extended to min(i + 31, n - 1) by insertion sort when shorter than 32; it is sorted, a permutation, nothing outside it changes, and it has 32 elements unless it ends the array |
| Timsort.FindRuns | algorithms/timsort.py:70-88 | the runs are the input's decomposition RunsFrom with minimum 32; they tile [0, n), are sorted, and all but the last have at least 32 elements |
| Timsort.PushNextRun | algorithms/timsort.py:78-87 | one iteration of find_runs appends the run the input has at i and keeps the runs found so far tiling, sorted and at least 32 long |
| Timsort.Merge12 | algorithms/timsort.py:39-43 | the stack becomes the one with its top two runs replaced by their union; it still tiles and is sorted, and nothing outside the stacked range changes |
| Timsort.Merge23 | algorithms/timsort.py:45-50 | the stack becomes the one with r3 and r2 replaced by their union under r1; it still tiles and is sorted |
| Timsort.CollapseStep | algorithms/timsort.py:52-62 | one pass of the four size rules merges exactly when the stack is not balanced, and the new stack is then CollapseOnce of the old (merge23 when len(r1) >= len(r3), merge12 otherwise), one run shorter and non-empty; otherwise it breaks with the stack and the array unchanged |
| Timsort.Collapse | algorithms/timsort.py:32-62 | the inner loop ends with exactly Collapsed of the stack it started with: non-empty, tiling, sorted, and balanced: len(r1) < len(r2) and len(r1) < len(r3), len(r1) + len(r2) < len(r3), and len(r2) + len(r3) < len(r4), each where those entries exist |
| Timsort.CollapseOnce | algorithms/timsort.py:52-60 | the four size rules in priority order on a stack where one applies: the stack has at least two runs and the chosen merge shortens it by one |
| Timsort.Collapsed | algorithms/timsort.py:32-62 | repeating the size rules until none applies ends in a balanced stack no longer than the start, non-empty when the start was |
| Timsort.MergeAll | algorithms/timsort.py:63-66 | draining leaves at most one run, which is Run(0, n - 1) for non-empty input, and the array is sorted |
| Timsort.PushRun | algorithms/timsort.py:30-31 | pushing the next run keeps the stack tiling [0, run.high + 1) and sorted |
| Timsort.Timsort | algorithms/timsort.py:23-67 | the array ends sorted and is a permutation of the input |
| CountingTimsort.Merge12 | benchmark_versions/timsort.py:29-34 | the stack effect of Timsort.Merge12, costing at least 1 and fewer comparisons than the union's length |
| CountingTimsort.Merge23 | benchmark_versions/timsort.py:36-42 | the stack effect of Timsort.Merge23, costing at least 1 and fewer comparisons than the union's length |
| CountingTimsort.CollapseStep | benchmark_versions/timsort.py:44-54 | the counted size-rule step: it merges exactly when the stack is not balanced, giving Timsort.CollapseOnce of the stack at a cost between 1 and n - 1; otherwise nothing changes |
| CountingTimsort.Collapse | benchmark_versions/timsort.py:22-54 | the stack of Timsort.Collapse, exactly Timsort.Collapsed of the start, with a count between the number of merges and (n - 1) per merge |
| CountingTimsort.MergeAll | benchmark_versions/timsort.py:55-59 | the drained stack of Timsort.MergeAll, with a count between the number of merges and (n - 1) per merge |
| CountingTimsort.PushAll | benchmark_versions/timsort.py:20-54 | pushing every run gives a balanced tiling stack; merges plus stack height equal the number of runs, and the count is within the merge budget |
| CountingTimsort.MergeRuns | benchmark_versions/timsort.py:19-59 | scheduling k runs sorts the array with k - 1 merges, costing between k - 1 and (k - 1) * (n - 1) comparisons |
| CountingTimsort.Timsort | benchmark_versions/timsort.py:16-60 | sorted and a permutation; the runs are the input's decomposition with minimum 32, all but the last at least 32 long; for k runs their scans cost between n and 32 * n + 2k, and the merges between k - 1 and (k - 1) * (n - 1) |
| BenchmarkTimsort.EqualPrefixComparisonsBounds | benchmark_versions/benchmark_timsort.py:84-106 | the counted equal-prefix scan makes between end - start and end - start + 3 comparisons |
| BenchmarkTimsort.FindNextNaturalRun | benchmark_versions/benchmark_timsort.py:83-106 | the run end and array effect of Timsort.FindNextNaturalRun, with one comparison per loop test; nothing counted at start == n; it also models the identical copy in `benchmark_versions/benchmark_powersort.py` |
| BenchmarkTimsort.EqualPrefix | benchmark_versions/benchmark_timsort.py:85-90 | the counted equal-prefix loop ends at the end of the equal stretch, counting its loop tests |
| BenchmarkTimsort.NextRun | benchmark_versions/benchmark_timsort.py:69-77 | the run of Timsort.NextRun, ending where RunEnd of the input with minimum 32 says; an unextended run costs exactly the scan's count; any run costs between its length - 1 and 32 * its length + 2 |
| BenchmarkTimsort.ScanNext | benchmark_versions/benchmark_timsort.py:69-78 | the counted next run ends where RunEnd of the input says, is sorted in place, changes nothing outside it, and costs between its length - 1 and 32 * its length + 2 |
| BenchmarkTimsort.PushNextRun | benchmark_versions/benchmark_timsort.py:68-79 | one iteration of find_runs appends the input's next run, keeps the runs found so far tiling, sorted and at least 32 long, and keeps the count between one per element less one per run and 32 per element plus 2 per run |
| BenchmarkTimsort.FindRuns | benchmark_versions/benchmark_timsort.py:63-80 | the runs are the input's decomposition with minimum 32; they tile [0, n), are sorted, and all but the last have at least 32 elements; the count lies between n - runs and 32 * n + 2 * runs |
| BenchmarkTimsort.Timsort | benchmark_versions/benchmark_timsort.py:19-60 | sorted and a permutation; the runs are the input's decomposition with minimum 32; for k runs the scans cost between n - k and 32 * n + 2k, and the merges between k - 1 and (k - 1) * (n - 1) |
| Powersort.NodePower | algorithms/powersort.py:47-64 | the loop terminates and returns the least l >= 0 at which trunc(a * 2^l) and trunc(b * 2^l) differ, with a and b the runs' scaled midpoints, computed exactly; it also models the identical copy in `benchmark_versions/powersort.py` and `benchmark_versions/benchmark_powersort.py` |
| Powersort.NodePowerBounds | algorithms/powersort.py:57-63 | for adjacent runs inside [0, n) the node power satisfies 1 <= l and 2^l < 4n |
| Powersort.FarApartSplit | algorithms/powersort.py:62-63 | x and y at least 2d apart always give different truncations of x / d and y / d, which bounds the loop |
| Powersort.FoundNext | algorithms/powersort.py:32 | finding the next run keeps the stack state, and the two runs have different midpoints |
| Powersort.PushRun | algorithms/powersort.py:38-40 | pushing r1 with a power no smaller than the top one keeps |X| = |P|, P non-decreasing, and X + [r2] tiling from 0 |
| Powersort.PopMerged | algorithms/powersort.py:35-37 | popping P and X and merging r0 into r1 gives Run(r0.start, r1.end) and keeps the stack invariant |
| Powersort.AbsorbTop | algorithms/powersort.py:42-43 | a final merge of the top run into r1 keeps the tiling and the sortedness |
| Powersort.MergeDown | algorithms/powersort.py:34-37 | the inner loop pops exactly the top entries whose power exceeds p: X and P end as prefixes of themselves, every popped power is > p, the top power left is <= p, r1 then starts where the last popped run started and still ends where it did, and the stack invariant holds |
| Powersort.PopAndMerge | algorithms/powersort.py:35-37 | one iteration pops the top run r0 and its power: X and P lose exactly their tops, r1 becomes Run(r0.start, r1.end), and the stack invariant holds |
| Powersort.MergeRemaining | algorithms/powersort.py:41-43 | draining X leaves r1 = Run(0, n - 1) with the array sorted |
| Powersort.Powersort | algorithms/powersort.py:27-44 | a non-empty array ends sorted and is a permutation of the input, with or without a minimum run length |
| CountingPowersort.FirstRun | benchmark_versions/powersort.py:31 | the first run is the first of the input's decomposition; it establishes the stack state and costs between its length and the cost factor times its length plus 2 |
| CountingPowersort.PopAndMerge | benchmark_versions/powersort.py:37-40 | one counted pop and merge: X and P lose their tops, r1 becomes Run(r0.start, r1.end), and the cost lies between 1 and n - 1 |
| CountingPowersort.MergeDown | benchmark_versions/powersort.py:36-40 | the effect of Powersort.MergeDown (prefixes, popped powers > p, r1's new start), changing nothing from r1's end on; its k pops cost between k and k * (n - 1) |
| CountingPowersort.Boundary | benchmark_versions/powersort.py:33-43 | one outer iteration: the next run is the input's next run and becomes r1; the stack state holds and the array from its end on is still the input; the scan is within its bound and the k merges cost between k and k * (n - 1) |
| CountingPowersort.Advance | benchmark_versions/powersort.py:32-43 | one outer iteration keeps the scheduler state: the runs found are the input's decomposition up to r1's end, the scan total is within its bound, merges plus stack height plus 1 equal the runs found, and the count is the scans plus merges costing 1 to n - 1 each |
| CountingPowersort.Finish | benchmark_versions/powersort.py:44-48 | when r1 reaches the end, the runs found are the input's decomposition, the final merges sort the array, and for r runs the merges cost between r - 1 and (r - 1) * (n - 1) beyond the scans |
| CountingPowersort.MergeRemaining | benchmark_versions/powersort.py:44-47 | the effect of Powersort.MergeRemaining, with one merge per remaining run, each costing 1 to n - 1 |
| CountingPowersort.Powersort | benchmark_versions/powersort.py:16-48 | sorted and a permutation; the runs are the input's decomposition and 1 <= r <= n; the scans cost between n and the cost factor times n plus 2r; the merges cost between r - 1 and (r - 1) * (n - 1) |
| BenchmarkPowersort.FindNextRun | benchmark_versions/benchmark_powersort.py:35-47 | with fix_minrun, a natural run shorter than 32 extends to min(start + 31, n - 1), re-sorted by insertion from start; the run ends where RunEnd of the input says, is sorted, a permutation, unchanged outside it, and costs between its length - 1 and the cost factor times its length plus 2; at start == n nothing is counted |
| BenchmarkPowersort.Extend | benchmark_versions/benchmark_powersort.py:42-46 | the extension sorts [start, min(start + 31, n - 1)] by insertion from start, changing nothing outside it, at a cost between end - start and (end - start)^2 when the range has two or more elements, and 0 otherwise |
| BenchmarkPowersort.PolicyRunEnd | benchmark_versions/benchmark_powersort.py:38-47 | the run find_next_run finds under fix_minrun is RunEnd with minimum 32, and without it the natural run; the cost factor is 32 or 1 accordingly |
| BenchmarkPowersort.FirstRun | benchmark_versions/benchmark_powersort.py:14-15 | the first run (0, e1) is the first of the input's decomposition and establishes the scheduler state of a non-empty array; an empty array costs nothing |
| BenchmarkPowersort.ScanNext | benchmark_versions/benchmark_powersort.py:15-19 | the counted next run ends where RunEnd of the input says under fix_minrun, is sorted in place, changes nothing outside it, and costs between its length - 1 and the cost factor times its length plus 2 |
| BenchmarkPowersort.Boundary | benchmark_versions/benchmark_powersort.py:17-28 | one outer iteration over (s, e) pairs: the next run is the input's next run and becomes the current run; the stack state holds, the scan is within its bound, and the k merges cost between k and k * (n - 1) |
| BenchmarkPowersort.Advance | benchmark_versions/benchmark_powersort.py:16-28 | one outer iteration keeps the scheduler state of CountingPowersort.Advance, with the benchmark scans' lower bound of one fewer comparison per run |
| BenchmarkPowersort.Powersort | benchmark_versions/benchmark_powersort.py:6-32 | sorted and a permutation for any array, including the empty one (count 0); the runs are the input's decomposition; the scans cost between n - r and the cost factor times n plus 2r; the merges cost between r - 1 and (r - 1) * (n - 1) |
| NaturalMergeSort.AsRuns | algorithms/natural_merge_sort.py:43 | the half-open pair (start, stop) denotes the run [start, stop - 1], one run per pair |
| NaturalMergeSort.PairUp | algorithms/natural_merge_sort.py:21-31 | what one pass does to the run list: pairs i, i + 1 become (l, r), an odd last run is kept, and k runs become ceil(k / 2) |
| NaturalMergeSort.PairUpConcat | algorithms/natural_merge_sort.py:23-28 | pairing up an even-length prefix and the rest separately is pairing up the whole |
| NaturalMergeSort.ScanPair | algorithms/natural_merge_sort.py:49-59 | one scan finds the run [start, stop) that ends where RunEnd of the array says with no minimum, sorts it in place and changes nothing else |
| NaturalMergeSort.FindRuns | algorithms/natural_merge_sort.py:35-60 | the half-open runs, read as inclusive runs, are the input's decomposition RunsFrom with no minimum: each is the natural run at its start; they tile [0, n) (first start 0, each stop the next start, last stop n) and are sorted in place |
| NaturalMergeSort.PushScan | algorithms/natural_merge_sort.py:48-59 | one iteration of _find_runs appends the pair (i, stop) of the input's natural run at i and keeps the runs found so far equal to the input's decomposition up to stop, each sorted |
| NaturalMergeSort.ScanningPushPair | algorithms/natural_merge_sort.py:58 | appending the pair of the run RunEnd gives at start, once sorted in place and nothing else changed, keeps the runs found equal to the input's decomposition up to stop |
| NaturalMergeSort.Merge | algorithms/natural_merge_sort.py:63-93 | [l, r) becomes the stable merge of the old [l, m) and [m, r); a permutation, nothing outside [l, r) changes, sorted when both halves were |
| NaturalMergeSort.PassStep | algorithms/natural_merge_sort.py:24-28 | merging runs i and i + 1 extends the pass so far: the new runs are PairUp of the runs before i + 2 and they tile and are sorted |
| NaturalMergeSort.PassLast | algorithms/natural_merge_sort.py:29-30 | carrying over an odd last run completes the pass as PairUp of all runs |
| NaturalMergeSort.MergePass | algorithms/natural_merge_sort.py:21-31 | one pass turns the runs into PairUp(runs), which tile [0, n) and are sorted |
| NaturalMergeSort.NaturalMergeSort | algorithms/natural_merge_sort.py:8-32 | input of length <= 1 is unchanged; the array ends sorted and a permutation; the pass loop terminates because the run count falls |
| CountingNaturalMergeSort.AsPairsInverse | benchmark_versions/natural_merge_sort.py:29-39 | turning inclusive runs into the half-open pairs of NaturalMergeSort and back gives the same runs, so a pass over either form is the same pass |
| CountingNaturalMergeSort.MergePass | benchmark_versions/natural_merge_sort.py:29-40 | one counted pass over inclusive runs gives ceil(k / 2) runs (PairUp), tiling and sorted; it costs between k / 2 and n - k / 2 |
| CountingNaturalMergeSort.MergeNext | benchmark_versions/natural_merge_sort.py:32-37 | one counted merge of runs i and i + 1 extends the pass and costs at least 1 and fewer comparisons than the merged length |
| CountingNaturalMergeSort.PassDone | benchmark_versions/natural_merge_sort.py:38-40 | the end of a pass, with the odd last run carried over, gives PairUp of the runs and bounds the pass cost |
| CountingNaturalMergeSort.NaturalMergeSort | benchmark_versions/natural_merge_sort.py:16-41 | length <= 1 returns with count 0 and nothing changed; otherwise sorted and a permutation; r is the number of runs in the input's decomposition, the find_runs count lies between n and n + 2r, and the merges cost between r - 1 and ceil(log2 r) * (n - 1) |
| BenchmarkNaturalMergeSort.NextNaturalRun | benchmark_versions/benchmark_natural_merge_sort.py:36-52 | the inline scan finds the natural run and normalises it like Commons.FindNextNaturalRun, counting every loop test but not the flat test |
| BenchmarkNaturalMergeSort.ScanRun | benchmark_versions/benchmark_natural_merge_sort.py:36-52 | one counted scan finds the run [start, stop) that ends where RunEnd of the input says with no minimum, sorts it in place, changes nothing else, and costs between stop - start - 1 and stop - start + 1 |
| BenchmarkNaturalMergeSort.FindRuns | benchmark_versions/benchmark_natural_merge_sort.py:31-53 | the half-open runs, read as inclusive runs, are the input's decomposition RunsFrom with no minimum; they tile [0, n) and are sorted; the count lies between n - runs and n + runs |
| BenchmarkNaturalMergeSort.PushScan | benchmark_versions/benchmark_natural_merge_sort.py:35-53 | one counted iteration appends the pair of the input's natural run at i, keeps the runs found so far equal to the input's decomposition up to the new stop, and keeps the count between one per element less one per run and one per element plus one per run |
| BenchmarkNaturalMergeSort.Merge | benchmark_versions/benchmark_natural_merge_sort.py:56-80 | [l, r) becomes the stable merge of [l, m) and [m, r), with one comparison per element placed while both last, between 1 and r - l - 1 when both are non-empty |
| BenchmarkNaturalMergeSort.MergeNext | benchmark_versions/benchmark_natural_merge_sort.py:20-24 | one counted merge of pairs i and i + 1 appends (l, r), extends the pass, and costs at least 1 and fewer comparisons than the merged length |
| BenchmarkNaturalMergeSort.PassDone | benchmark_versions/benchmark_natural_merge_sort.py:25-27 | the end of a counted pass gives PairUp of the runs and bounds the pass cost between k / 2 and n - k / 2 |
| BenchmarkNaturalMergeSort.MergePass | benchmark_versions/benchmark_natural_merge_sort.py:17-27 | one pass gives PairUp(runs), tiling and sorted, costing between k / 2 and n - k / 2 |
| BenchmarkNaturalMergeSort.NaturalMergeSort | benchmark_versions/benchmark_natural_merge_sort.py:7-28 | length <= 1 returns with count 0 and nothing changed; otherwise sorted and a permutation; r is the number of runs in the input's decomposition, the scan count lies between n - r and n + r, and the merges between r - 1 and ceil(log2 r) * (n - 1) |
| MergeSort.Merge | benchmark_versions/merge_sort.py:28-54 | the merged list is the stable merge of left and right (Order proves it sorted and a permutation), with one comparison per element placed while both last; it also models the identical copy in `benchmark_versions/benchmark_merge_sort.py` |
| MergeSort.MergeHeads | benchmark_versions/merge_sort.py:40-47 | the main loop appends a prefix of the stable merge, stops with one list exhausted, and counts the whole merge |
| MergeSort.MergeSorted | benchmark_versions/merge_sort.py:8-25 | what merge_sort returns: a sorted permutation of the input of the same length; a list of at most one element is returned as it is with count 0 |
| MergeSort.MergeSortedCost | benchmark_versions/merge_sort.py:18-25 | for n >= 1 elements the count lies between n - 1 and n * ceil(log2 n) - n + 1 |
| MergeSort.MergeSortedStep | benchmark_versions/merge_sort.py:19-25 | the halves have floor(n / 2) and ceil(n / 2) elements, and the count is the two recursive counts plus a merge count between 1 and n - 1 |
| MergeSort.MergeSortedSplit | benchmark_versions/merge_sort.py:19-25 | one-step unfolding of MergeSorted for two or more elements: the list is the stable merge of the halves' sorted lists, and the count is the halves' counts plus the merge's |
| MergeSort.MergeSort | benchmark_versions/merge_sort.py:8-25 | the recursion on slices, with the merge loop, returns exactly MergeSorted(arr): list and count; the argument list, a value, is not modified; it also models the identical copy in `benchmark_versions/benchmark_merge_sort.py` |

## Left out

- Galloping and dynamic threshold tuning: the code has no implementation. `Powersort.Powersort` takes no galloping flags. In Python, the six-argument merge call at `algorithms/powersort.py:37,43` would raise a `TypeError`. The model calls the four-parameter merge, which is evidently what was intended.
- Float semantics of `node_power`: the source divides with floats. The model computes the same quantities exactly as integers scaled by 2n, so float rounding error for very large n is not modelled.
- Stability among equal elements: elements are integers, so equal elements cannot be told apart. Reversing a descending run that contains equal elements is unstable in the source. The model cannot observe that, but it does state the merge's left-first tie rule through `Order.StableMerge`.
- Generic comparable elements and the global counter `Comparable.comparison_count` of `benchmarks.py`: elements are integers, and counts are returned values.
- `Run.__repr__`, and `Run.__len__` as a Python protocol: `Run.Len` is the length.
- `benchmarks.py`, `output_generation.py`, `old_plotting.py`, `random_input_generators.py`, `config.py` and `tst_algorithms.py`: timing, file output, plotting, random input generation, constants, and the test driver. The sortedness and permutation properties that `tst_algorithms.py` checks are stated on every sort instead.
- CountingTimsort.Merge12: states bounds on its count (1 to the merged length - 1), not the exact count. The exact count, one comparison per element placed while both runs last, is stated by `CountingCommons.Merge`, which it reaches through `CountingCommons.MergeAdjacent`.
- CountingTimsort.Merge23: states bounds on its count, as for Merge12.
- CountingTimsort.Timsort: bounds the scans' and the merges' counts by n and the number of runs k, not by their exact values. Which merges happen, and what each costs, depends on the values and the stack history.
- BenchmarkTimsort.Timsort: bounds its counts as CountingTimsort.Timsort does, for the same reason.
- CountingPowersort.Powersort: bounds the scans' and the merges' counts by n and the number of runs, not by their exact values. Which runs are merged when depends on the node powers, and each merge's cost depends on the values.
- BenchmarkPowersort.Powersort: bounds its counts as CountingPowersort.Powersort does, for the same reason.
- CountingNaturalMergeSort.NaturalMergeSort: bounds the merges' count between r - 1 and ceil(log2 r) * (n - 1), with r the number of runs of the input, not by its exact value, because each merge's cost depends on the values.
- BenchmarkNaturalMergeSort.NaturalMergeSort: bounds its counts as CountingNaturalMergeSort.NaturalMergeSort does, for the same reason.
- BenchmarkTimsort.FindRuns: bounds its count between n - runs and 32 * n + 2 * runs, not as the exact sum of the scans' and insertion sorts' counts, each of which depends on the values.
- BenchmarkTimsort.NextRun: bounds the count of an extended run, not its exact value, because the insertion sort's count depends on the values.
- BenchmarkPowersort.FindNextRun: bounds the count of an extended run as BenchmarkTimsort.NextRun does, for the same reason.
- CountingCommons.FindRuns: bounds its count between n and the cost factor times n plus 2 per run, not as the exact sum of the per-run counts, each of which depends on the values.
- CountingCommons.BinaryInsertionSort: states the bound (right - m) * (right - left), not the exact sum of the searches' counts.
- CountingCommons.FindNextRun: when the run is extended, bounds the count between the run's length and the cost factor times its length plus 2, not by its exact value. The insertion sort's share is bounded by `CountingCommons.BinaryInsertionSort`.
- MergeSort.MergeSortedCost: bounds the count between n - 1 and n * ceil(log2 n) - n + 1, because the exact count depends on the values.
- Empty input to `Powersort.Powersort` and `CountingPowersort.Powersort`: excluded by a precondition, because the source reads `arr[0]` of the empty array.
