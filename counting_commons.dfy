/**
  The comparison-counting twins of the shared primitives: each does to the
  array exactly what its Commons counterpart does and also returns how many
  element comparisons it made. The scan loops test one pair per iteration
  and stop at the first pair that ends the run.
 */
module CountingCommons {
  import opened Order
  import opened Runs
  import opened Scan
  import opened Arith
  import Commons

  /**
    How many pairs a scan loop that starts at i and stops at e tests: one
    per step, and one more for the pair that ends it unless the loop ran
    into the end of the sequence.
   */
  function LoopTests(s: seq<int>, i: int, e: int): int {
    (e - i) + (if e < |s| - 1 then 1 else 0)
  }

  /**
    The comparisons of the counted ascend-first scan: the ascending loop,
    the test whether the run is flat, and, for a descending run, the
    descending loop that resumes where the ascent stopped.
   */
  function ScanComparisons(s: seq<int>, start: int): int
    requires 0 <= start < |s|
  {
    var asc := AscEnd(s, start);
    LoopTests(s, start, asc) + 1 + (if IsDescending(s, start) then LoopTests(s, asc, DescEnd(s, start)) else 0)
  }

  /** At least one comparison per element after the first, and at most three more. */
  lemma {:induction false} ScanComparisonsBounds(s: seq<int>, start: int)
    requires 0 <= start < |s|
    ensures var e := NaturalRunEnd(s, start);
      1 <= e - start + 1 <= ScanComparisons(s, start) <= e - start + 3
  {
    if IsDescending(s, start) {
      FlatAscent(s, start);
    }
  }

  /** FindNextNaturalRun of Commons, counting comparisons. */
  method FindNextNaturalRun(a: array<int>, start: int) returns (end: int, comparisons: int)
    requires 0 <= start < a.Length
    modifies a
    ensures end == NaturalRunEnd(old(a[..]), start)
    ensures a[..] == Normalized(old(a[..]), start)
    ensures comparisons == ScanComparisons(old(a[..]), start)
    ensures start <= end < a.Length
    ensures SortedRange(a[..], start, end + 1)
    ensures SameOutside(old(a[..]), a[..], start, end + 1)
    ensures multiset(a[..]) == multiset(old(a[..]))
  {
    ghost var s := a[..];
    var i, ascTests := Ascend(a, start);
    comparisons := ascTests + 1;
    if a[start] == a[i] {
      assert IsDescending(s, start);
      var descTests;
      i, descTests := Descend(a, start, i);
      comparisons := comparisons + descTests;
      Commons.ReverseInPlace(a, start, i + 1);
    }
    end := i;
    NormalizedRun(s, a[..], start, end);
  }

  /**
    The counted ascending loop of the scan: it stops at the end of the
    maximal non-decreasing stretch from `start`, having tested one pair per
    step and the pair that stopped it.
   */
  method Ascend(a: array<int>, start: int) returns (i: int, comparisons: int)
    requires 0 <= start < a.Length
    ensures i == AscEnd(a[..], start)
    ensures comparisons == LoopTests(a[..], start, i)
  {
    comparisons := 0;
    i := start;
    while i < a.Length - 1
      invariant start <= i < a.Length
      invariant AscEnd(a[..], i) == AscEnd(a[..], start)
      invariant comparisons == i - start
    {
      comparisons := comparisons + 1;
      if a[i] > a[i + 1] {
        break;
      }
      i := i + 1;
    }
  }

  /**
    The counted descending loop of the scan, which resumes where a flat
    ascent stopped and ends at the end of the maximal non-increasing
    stretch from `start`.
   */
  method Descend(a: array<int>, start: int, from: int) returns (i: int, comparisons: int)
    requires 0 <= start < a.Length && IsDescending(a[..], start) && from == AscEnd(a[..], start)
    ensures i == DescEnd(a[..], start) && from <= i
    ensures comparisons == LoopTests(a[..], from, i)
  {
    ghost var s := a[..];
    FlatAscent(s, start);
    DescEndFrom(s, start, from);
    i := from;
    comparisons := 0;
    while i < a.Length - 1
      invariant from <= i < a.Length
      invariant DescEnd(s, i) == DescEnd(s, start)
      invariant comparisons == i - from
    {
      comparisons := comparisons + 1;
      if a[i] < a[i + 1] {
        break;
      }
      i := i + 1;
    }
  }

  /**
    Commons.BinarySearch, counting one comparison per halving step: none on
    an empty range, and otherwise k steps with 2^(k-1) <= end - start, so at
    most floor(log2(end - start)) + 1.
   */
  method BinarySearch(a: array<int>, val: int, start: int, end: int) returns (k: int, comparisons: int)
    requires 0 <= start <= end <= a.Length
    ensures start <= k <= end
    ensures SortedRange(a[..], start, end) ==>
      (forall p :: start <= p < k ==> a[p] < val) && (forall p :: k <= p < end ==> a[p] >= val)
    ensures 0 <= comparisons <= end - start
    ensures comparisons == 0 <==> start == end
    ensures comparisons > 0 ==> Pow2(comparisons - 1) <= end - start
  {
    var lo, hi := start, end;
    comparisons := 0;
    while lo < hi
      invariant start <= lo <= hi <= end
      invariant SortedRange(a[..], start, end) ==>
        (forall p :: start <= p < lo ==> a[p] < val) && (forall p :: hi <= p < end ==> a[p] >= val)
      invariant 0 <= comparisons && comparisons + (hi - lo) <= end - start
      invariant comparisons == 0 ==> lo == start && hi == end
      invariant Pow2(comparisons) * (hi - lo) <= end - start
      invariant comparisons > 0 ==> Pow2(comparisons - 1) <= end - start
    {
      ghost var w := hi - lo;
      var mid := (lo + hi) / 2;
      if a[mid] < val {
        lo := mid + 1;
      } else {
        hi := mid;
      }
      HalvingStep(comparisons, w, hi - lo, end - start);
      comparisons := comparisons + 1;
    }
    k := lo;
  }

  /** One halving step keeps 2^c * width within the original width. */
  lemma {:induction false} HalvingStep(c: nat, w: int, w': int, total: int)
    requires 1 <= w && 0 <= w' && 2 * w' <= w && Pow2(c) * w <= total
    ensures Pow2(c + 1) * w' <= total
    ensures Pow2(c) <= total
  {
    assert Pow2(c + 1) * w' == Pow2(c) * (2 * w');
    assert Pow2(c) * (2 * w') <= Pow2(c) * w;
    assert Pow2(c) <= Pow2(c) * w;
  }

  /**
    Commons.BinaryInsertionSort, counting the comparisons of its searches:
    each insertion searches a prefix of at most right - left elements.
   */
  method BinaryInsertionSort(a: array<int>, left: int, right: int, m: int) returns (comparisons: int)
    requires 0 <= left <= right + 1 <= a.Length && left - 1 <= m
    requires SortedRange(a[..], left, Commons.Min(m, right) + 1)
    modifies a
    ensures SortedRange(a[..], left, right + 1)
    ensures SameOutside(old(a[..]), a[..], left, right + 1)
    ensures multiset(a[..]) == multiset(old(a[..]))
    ensures m >= right ==> a[..] == old(a[..]) && comparisons == 0
    ensures 0 <= comparisons && (m < right ==> comparisons <= (right - m) * (right - left))
    ensures left <= m < right ==> right - m <= comparisons
  {
    comparisons := 0;
    var i := m + 1;
    if i <= right {
      while i <= right
        invariant m + 1 <= i <= right + 1
        invariant SortedRange(a[..], left, i)
        invariant SameOutside(old(a[..]), a[..], left, right + 1)
        invariant multiset(a[..]) == multiset(old(a[..]))
        invariant 0 <= comparisons <= (i - m - 1) * (right - left)
        invariant left <= m ==> i - m - 1 <= comparisons
      {
        ghost var s := a[..];
        var diff := InsertNext(a, left, i);
        InsertionCountStep(comparisons, diff, left, right, m, i);
        comparisons := comparisons + diff;
        SameOutsideTrans(old(a[..]), s, a[..], left, right + 1, left, i + 1);
        i := i + 1;
      }
    }
  }

  /** Commons.InsertNext, counting the comparisons of its binary search. */
  method InsertNext(a: array<int>, left: int, i: int) returns (comparisons: int)
    requires 0 <= left <= i < a.Length && SortedRange(a[..], left, i)
    modifies a
    ensures SortedRange(a[..], left, i + 1)
    ensures SameOutside(old(a[..]), a[..], left, i + 1)
    ensures multiset(a[..]) == multiset(old(a[..]))
    ensures 0 <= comparisons <= i - left
    ensures left < i ==> comparisons >= 1
  {
    ghost var s := a[..];
    var val := a[i];
    var j;
    j, comparisons := BinarySearch(a, val, left, i);
    forall k | j + 1 <= k <= i {
      a[k] := a[k - 1];
    }
    a[j] := val;
    Commons.InsertStep(s, a[..], left, j, i);
    SameOutsideTrans(s, s, a[..], left, i + 1, j, i + 1);
  }

  /** One more search of at most right - left comparisons keeps the running bound. */
  lemma {:induction false} InsertionCountStep(c: int, diff: int, left: int, right: int, m: int, i: int)
    requires m + 1 <= i <= right && left <= i
    requires 0 <= c <= (i - m - 1) * (right - left) && 0 <= diff <= i - left
    ensures 0 <= c + diff <= (i - m) * (right - left)
  {
    assert (i - m) * (right - left) == (i - m - 1) * (right - left) + (right - left);
  }

  /**
    The factor by which an extension to minRun elements can multiply the
    cost per element of finding a run: minRun itself, or one when there is
    no (positive) minimum.
   */
  function CostFactor(minRun: Option<int>): (w: int)
    ensures w >= 1
  {
    if minRun.Some? && minRun.value >= 1 then minRun.value else 1
  }

  /**
    Commons.FindNextRun, counting the scan and the insertion sort: at least
    one comparison per element of the run, and at most CostFactor(minRun)
    per element plus two.
   */
  method FindNextRun(a: array<int>, start: int, minRun: Option<int>) returns (run: Run, comparisons: int)
    requires 0 <= start < a.Length
    modifies a
    ensures run.start == start && start <= run.end < a.Length
    ensures run.end == Commons.RunEnd(old(a[..]), start, minRun)
    ensures var e := NaturalRunEnd(old(a[..]), start);
      run.end == if Commons.Extends(minRun, e - start + 1) then Commons.Min(start + minRun.value - 1, a.Length - 1) else e
    ensures !Commons.Extends(minRun, NaturalRunEnd(old(a[..]), start) - start + 1) ==>
      a[..] == Normalized(old(a[..]), start) && comparisons == ScanComparisons(old(a[..]), start)
    ensures comparisons >= ScanComparisons(old(a[..]), start)
    ensures run.Len() <= comparisons <= CostFactor(minRun) * run.Len() + 2
    ensures minRun.Some? ==> run.Len() >= minRun.value || run.end == a.Length - 1
    ensures SortedRange(a[..], start, run.end + 1)
    ensures SameOutside(old(a[..]), a[..], start, run.end + 1)
    ensures multiset(a[..]) == multiset(old(a[..]))
  {
    ScanComparisonsBounds(a[..], start);
    var end;
    end, comparisons := FindNextNaturalRun(a, start);
    var runSize := end - start + 1;
    if Commons.Extends(minRun, runSize) {
      var naturalEnd := end;
      end := Commons.Min(start + minRun.value - 1, a.Length - 1);
      ghost var s := a[..];
      var diff := BinaryInsertionSort(a, start, end, naturalEnd);
      ExtendedRunCost(start, naturalEnd, naturalEnd, end, CostFactor(minRun), comparisons, diff, false);
      comparisons := comparisons + diff;
      SameOutsideTrans(old(a[..]), s, a[..], start, end + 1, start, end + 1);
    } else {
      NaturalRunCost(runSize, CostFactor(minRun), comparisons, false);
    }
    run := Run(start, end);
  }

  /**
    The cost of a natural run of len elements that is not extended: its
    scan, between len and len + 2 comparisons (len - 1 and len + 2 when
    `lax`), is within w per element plus two for any w >= 1.
   */
  lemma {:induction false} NaturalRunCost(len: int, w: int, scan: int, lax: bool)
    requires w >= 1 && len >= 1 && (if lax then len - 1 else len) <= scan <= len + 2
    ensures (if lax then len - 1 else len) <= scan <= w * len + 2
  {
    MulMonotone(1, w, len);
  }

  /**
    The cost of a run [left, right] of at most w elements made by extending
    the natural run [left, e]: the scan of the natural run costs between
    one comparison per element (one less when `lax`) and two more, and the binary
    insertion sort of the elements after m (left <= m <= e) searches at
    least once per inserted element and at most right - left times. In
    all, at least one comparison per element (one less when `lax`) and at
    most w per element plus two.
   */
  lemma {:induction false} ExtendedRunCost(left: int, e: int, m: int, right: int, w: int, scan: int, sort: int, lax: bool)
    requires left <= m <= e <= right && right - left + 1 <= w
    requires (if lax then e - left else e - left + 1) <= scan <= e - left + 3
    requires 0 <= sort && (m < right ==> sort <= (right - m) * (right - left))
    requires left <= m < right ==> right - m <= sort
    requires m >= right ==> sort == 0
    ensures (if lax then right - left else right - left + 1) <= scan + sort <= w * (right - left + 1) + 2
  {
    var len := right - left + 1;
    if m < right {
      MulMonotone(right - m, len - 1, len - 1);
    }
    MulMonotone(len - 1, w - 1, len - 1);
    assert (w - 1) * (len - 1) == w * len - w - len + 1;
  }

  /**
    Commons.FindRuns, counting: the runs are the decomposition of the input,
    and the count is at least one per element and at most CostFactor(minRun)
    per element plus two per run; without a minimum that is between n and
    n + 2 per run.
   */
  method FindRuns(a: array<int>, minRun: Option<int>) returns (runs: seq<Run>, comparisons: int)
    modifies a
    ensures runs == Commons.RunsFrom(old(a[..]), 0, minRun)
    ensures Tiles(runs, 0, a.Length)
    ensures AllSorted(a[..], runs)
    ensures multiset(a[..]) == multiset(old(a[..]))
    ensures minRun.Some? ==> forall k :: 0 <= k < |runs| - 1 ==> runs[k].Len() >= minRun.value
    ensures comparisons >= |runs|
    ensures a.Length <= comparisons <= CostFactor(minRun) * a.Length + 2 * |runs|
    ensures minRun.None? ==> a.Length <= comparisons <= a.Length + 2 * |runs|
  {
    ghost var s0 := a[..];
    runs := [];
    comparisons := 0;
    var start := 0;
    while start < a.Length
      invariant 0 <= start <= a.Length
      invariant Commons.Scanning(s0, a[..], runs, start, minRun)
      invariant multiset(a[..]) == multiset(s0)
      invariant ScanCounted(comparisons, start, |runs|, CostFactor(minRun), false)
      decreases a.Length - start
    {
      runs, start, comparisons := PushNextRun(a, runs, start, minRun, s0, comparisons);
    }
    CountedScanDone(s0, a[..], runs, minRun, comparisons, CostFactor(minRun), false);
  }

  /**
    Where a counted run decomposition ends: the runs are the decomposition
    of s0, and the count, accumulated over all of them, lies within the
    bounds for |s| elements and |runs| scans.
   */
  lemma {:induction false} CountedScanDone(s0: seq<int>, s: seq<int>, runs: seq<Run>, minRun: Option<int>, c: int, w: int, lax: bool)
    requires Commons.Scanning(s0, s, runs, |s|, minRun) && ScanCounted(c, |s|, |runs|, w, lax)
    ensures runs == Commons.RunsFrom(s0, 0, minRun)
    ensures Tiles(runs, 0, |s|) && AllSorted(s, runs)
    ensures minRun.Some? ==> forall k :: 0 <= k < |runs| - 1 ==> runs[k].Len() >= minRun.value
    ensures |runs| <= |s|
    ensures (if lax then |s| - |runs| else |s|) <= c <= w * |s| + 2 * |runs|
  {
    Commons.ScanningDone(s0, s, runs, minRun);
    ScanCountedBound(c, |s|, |runs|, w, lax);
    if |s| > 0 {
      RunCount(runs, |s|);
    }
  }

  /**
    The end of a scan whose runs were merged as they were found: the runs
    are those RunsFrom finds in the input s0, at least one and at most one
    per element, and their ScanCounted count, made a product.
   */
  lemma {:induction false} CountedDetectedDone(s0: seq<int>, s: seq<int>, runs: seq<Run>, minRun: Option<int>, c: int, w: int, lax: bool)
    requires Commons.Detected(s0, s, runs, |s|, minRun) && ScanCounted(c, |s|, |runs|, w, lax) && |s| > 0
    ensures runs == Commons.RunsFrom(s0, 0, minRun) && 1 <= |runs| <= |s|
    ensures (if lax then |s| - |runs| else |s|) <= c <= w * |s| + 2 * |runs|
  {
    Commons.DetectedDone(s0, s, runs, minRun);
    ScanCountedBound(c, |s|, |runs|, w, lax);
    RunCount(runs, |s|);
  }

  /**
    One iteration of FindRuns: the next run from start, the run the
    original array s0 has there, is pushed, and its cost, between its length
    and CostFactor(minRun) times its length plus two, is added to the count.
   */
  method PushNextRun(a: array<int>, runs: seq<Run>, start: int, minRun: Option<int>, ghost s0: seq<int>, c: int)
    returns (runs': seq<Run>, start': int, c': int)
    requires start < a.Length && Commons.Scanning(s0, a[..], runs, start, minRun)
    requires ScanCounted(c, start, |runs|, CostFactor(minRun), false)
    modifies a
    ensures start < start' <= a.Length
    ensures Commons.Scanning(s0, a[..], runs', start', minRun)
    ensures ScanCounted(c', start', |runs'|, CostFactor(minRun), false)
    ensures multiset(a[..]) == multiset(old(a[..]))
  {
    ghost var s := a[..];
    var run, comparisons := ScanNext(a, start, minRun);
    runs', start', c' := runs + [run], run.end + 1, c + comparisons;
    Commons.ScanningPush(s0, s, a[..], runs, run, minRun);
    ScanCountStep(c, comparisons, start, run.Len(), |runs|, 1, CostFactor(minRun), false, start', |runs'|);
  }

  /** FindNextRun with only what the run decomposition needs of it. */
  method ScanNext(a: array<int>, start: int, minRun: Option<int>) returns (run: Run, comparisons: int)
    requires 0 <= start < a.Length
    modifies a
    ensures run.start == start && run.end == Commons.RunEnd(old(a[..]), start, minRun)
    ensures SameOutside(old(a[..]), a[..], start, run.end + 1) && SortedRange(a[..], start, run.end + 1)
    ensures ScanCounted(comparisons, run.Len(), 1, CostFactor(minRun), false)
    ensures multiset(a[..]) == multiset(old(a[..]))
  {
    run, comparisons := FindNextRun(a, start, minRun);
    OneScanCounted(comparisons, run.Len(), CostFactor(minRun), false);
  }

  /**
    Commons.Merge, counting one comparison per step of the first loop: the
    count is that of the stable merge of the two runs.
   */
  method Merge(a: array<int>, l: int, m: int, r: int) returns (run: Run, comparisons: int)
    requires 0 <= l <= m + 1 <= r + 1 <= a.Length
    modifies a
    ensures run == Run(l, r)
    ensures a[l..r + 1] == StableMerge(old(a[l..m + 1]), old(a[m + 1..r + 1]))
    ensures comparisons == MergeComparisons(old(a[l..m + 1]), old(a[m + 1..r + 1]))
    ensures l <= m < r ==> 1 <= comparisons <= r - l
    ensures m < l || m == r ==> comparisons == 0
    ensures SameOutside(old(a[..]), a[..], l, r + 1)
    ensures multiset(a[..]) == multiset(old(a[..]))
    ensures SortedRange(old(a[..]), l, m + 1) && SortedRange(old(a[..]), m + 1, r + 1) ==>
      SortedRange(a[..], l, r + 1)
  {
    var left := a[l..m + 1];
    var right := a[m + 1..r + 1];
    MergeComparisonsBounds(left, right);
    var k, i, j;
    k, i, j, comparisons := MergeHeads(a, l, left, right);
    Commons.CopyTails(a, l, k, left, i, right, j, r + 1, old(a[..]), StableMerge(left, right));
    Commons.MergeFacts(old(a[..]), a[..], l, m, r);
    if SortedRange(old(a[..]), l, m + 1) && SortedRange(old(a[..]), m + 1, r + 1) {
      Commons.MergedRangeSorted(old(a[..]), a[..], l, m, r);
    }
    run := Run(l, r);
  }

  /** Commons.MergeHeads, counting one comparison per step. */
  method MergeHeads(a: array<int>, l: int, left: seq<int>, right: seq<int>) returns (k: int, i: int, j: int, comparisons: int)
    requires 0 <= l && l + |left| + |right| <= a.Length
    modifies a
    ensures 0 <= i <= |left| && 0 <= j <= |right| && k == l + i + j
    ensures i == |left| || j == |right|
    ensures a[l..k] + left[i..] + right[j..] == StableMerge(left, right)
    ensures comparisons == MergeComparisons(left, right)
    ensures SameOutside(old(a[..]), a[..], l, k)
  {
    k, i, j, comparisons := l, 0, 0, 0;
    while i < |left| && j < |right|
      invariant 0 <= i <= |left| && 0 <= j <= |right| && k == l + i + j
      invariant a[l..k] + StableMerge(left[i..], right[j..]) == StableMerge(left, right)
      invariant comparisons + MergeComparisons(left[i..], right[j..]) == MergeComparisons(left, right)
      invariant SameOutside(old(a[..]), a[..], l, k)
    {
      ghost var done, before := a[l..k], a[..];
      StableMergeStep(left, right, i, j);
      if left[i] <= right[j] {
        TakeLeft(done, left, right, i, j);
        a[k] := left[i];
        Commons.WriteNext(old(a[..]), before, a[..], l, k, left[i]);
        i := i + 1;
      } else {
        TakeRight(done, left, right, i, j);
        a[k] := right[j];
        Commons.WriteNext(old(a[..]), before, a[..], l, k, right[j]);
        j := j + 1;
      }
      k := k + 1;
      comparisons := comparisons + 1;
    }
    MergeExhausted(a[l..k], left, right, i, j);
    assert left[i..] == [] || right[j..] == [];
  }

  /**
    The counting merge of a run r0 with the run r1 right after it: both are
    non-empty, so it costs at least one comparison and fewer than the merged
    length, and the merged run is Run(r0.start, r1.end).
   */
  method MergeAdjacent(a: array<int>, r0: Run, r1: Run) returns (r: Run, comparisons: int)
    requires 0 <= r0.start <= r0.end && r0.end + 1 == r1.start <= r1.end < a.Length
    modifies a
    ensures r == Run(r0.start, r1.end)
    ensures 1 <= comparisons <= r1.end - r0.start
    ensures SameOutside(old(a[..]), a[..], r0.start, r1.end + 1)
    ensures SortedRange(old(a[..]), r0.start, r0.end + 1) && SortedRange(old(a[..]), r0.end + 1, r1.end + 1) ==>
      SortedRange(a[..], r0.start, r1.end + 1)
    ensures multiset(a[..]) == multiset(old(a[..]))
  {
    r, comparisons := Merge(a, r0.start, r0.end, r1.end);
  }
}
