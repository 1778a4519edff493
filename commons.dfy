/**
  The shared primitives of the adaptive sorts, acting in place on an integer
  array: natural-run detection with in-place reversal of descending runs,
  binary insertion sort that extends a short run to a minimum length, run
  decomposition of the whole array, and the stable linear merge of two
  adjacent runs.
 */
module Commons {
  import opened Order
  import opened Runs
  import opened Scan

  function Min(x: int, y: int): int {
    if x <= y then x else y
  }

  /** Reverses a[lo..hi) in place. */
  method ReverseInPlace(a: array<int>, lo: int, hi: int)
    requires 0 <= lo <= hi <= a.Length
    modifies a
    ensures a[..] == ReverseRange(old(a[..]), lo, hi)
  {
    ghost var s := a[..];
    forall k | lo <= k < hi {
      a[k] := a[lo + hi - 1 - k];
    }
    forall k | 0 <= k < a.Length ensures a[k] == ReverseRange(s, lo, hi)[k] {
      ReverseRangeAt(s, lo, hi, k);
    }
    ReverseRangeProperties(s, lo, hi);
  }

  /**
    Finds the natural run that begins at `start` and returns its last index;
    a descending run is reversed in place so that every run is ascending.
   */
  method FindNextNaturalRun(a: array<int>, start: int) returns (end: int)
    requires 0 <= start < a.Length
    modifies a
    ensures end == NaturalRunEnd(old(a[..]), start)
    ensures a[..] == Normalized(old(a[..]), start)
    ensures start <= end < a.Length
    ensures SortedRange(a[..], start, end + 1)
    ensures SameOutside(old(a[..]), a[..], start, end + 1)
    ensures multiset(a[..]) == multiset(old(a[..]))
  {
    ghost var s := a[..];
    var i := Ascend(a, start);
    if a[start] == a[i] {
      assert IsDescending(s, start);
      i := Descend(a, start, i);
      ReverseInPlace(a, start, i + 1);
    }
    end := i;
    NormalizedRun(s, a[..], start, end);
  }

  /** The ascending loop of the scan: the end of the maximal non-decreasing stretch from start. */
  method Ascend(a: array<int>, start: int) returns (i: int)
    requires 0 <= start < a.Length
    ensures i == AscEnd(a[..], start)
  {
    i := start;
    while i < a.Length - 1 && a[i] <= a[i + 1]
      invariant start <= i < a.Length
      invariant AscEnd(a[..], i) == AscEnd(a[..], start)
    {
      i := i + 1;
    }
  }

  /**
    The descending loop of the scan, which resumes where a flat ascent
    stopped: the end of the maximal non-increasing stretch from start.
   */
  method Descend(a: array<int>, start: int, from: int) returns (i: int)
    requires 0 <= start < a.Length && IsDescending(a[..], start) && from == AscEnd(a[..], start)
    ensures i == DescEnd(a[..], start)
  {
    ghost var s := a[..];
    FlatAscent(s, start);
    DescEndFrom(s, start, from);
    i := from;
    while i < a.Length - 1 && a[i] >= a[i + 1]
      invariant from <= i < a.Length
      invariant DescEnd(s, i) == DescEnd(s, start)
    {
      i := i + 1;
    }
  }

  /**
    The lower bound of `val` in the sorted range a[start..end): every element
    before the returned index is smaller than `val`, every element from it on
    is at least `val`.
   */
  method BinarySearch(a: array<int>, val: int, start: int, end: int) returns (k: int)
    requires 0 <= start <= end <= a.Length
    ensures start <= k <= end
    ensures SortedRange(a[..], start, end) ==>
      (forall p :: start <= p < k ==> a[p] < val) && (forall p :: k <= p < end ==> a[p] >= val)
  {
    var lo, hi := start, end;
    while lo < hi
      invariant start <= lo <= hi <= end
      invariant SortedRange(a[..], start, end) ==>
        (forall p :: start <= p < lo ==> a[p] < val) && (forall p :: hi <= p < end ==> a[p] >= val)
    {
      var mid := (lo + hi) / 2;
      if a[mid] < val {
        lo := mid + 1;
      } else {
        hi := mid;
      }
    }
    k := lo;
  }

  /**
    Sorts a[left..right] by binary insertion, given that a[left..m] is
    already sorted: each of a[m+1], ..., a[right] is moved down to the lower
    bound of its value in the sorted prefix before it.
   */
  method BinaryInsertionSort(a: array<int>, left: int, right: int, m: int)
    requires 0 <= left <= right + 1 <= a.Length && left - 1 <= m
    requires SortedRange(a[..], left, Min(m, right) + 1)
    modifies a
    ensures SortedRange(a[..], left, right + 1)
    ensures SameOutside(old(a[..]), a[..], left, right + 1)
    ensures multiset(a[..]) == multiset(old(a[..]))
    ensures m >= right ==> a[..] == old(a[..])
  {
    var i := m + 1;
    if i <= right {
      while i <= right
        invariant m + 1 <= i <= right + 1
        invariant SortedRange(a[..], left, i)
        invariant SameOutside(old(a[..]), a[..], left, right + 1)
        invariant multiset(a[..]) == multiset(old(a[..]))
      {
        ghost var s := a[..];
        InsertNext(a, left, i);
        SameOutsideTrans(old(a[..]), s, a[..], left, right + 1, left, i + 1);
        i := i + 1;
      }
    }
  }

  /**
    One pass of the insertion sort's loop: a[i] is moved down to its lower
    bound in the sorted a[left..i), found by binary search, after the
    elements from there on are shifted up by one.
   */
  method InsertNext(a: array<int>, left: int, i: int)
    requires 0 <= left <= i < a.Length && SortedRange(a[..], left, i)
    modifies a
    ensures SortedRange(a[..], left, i + 1)
    ensures SameOutside(old(a[..]), a[..], left, i + 1)
    ensures multiset(a[..]) == multiset(old(a[..]))
  {
    ghost var s := a[..];
    var val := a[i];
    var j := BinarySearch(a, val, left, i);
    forall k | j + 1 <= k <= i {
      a[k] := a[k - 1];
    }
    a[j] := val;
    InsertStep(s, a[..], left, j, i);
    SameOutsideTrans(s, s, a[..], left, i + 1, j, i + 1);
  }

  /**
    One insertion: t is s with s[i] moved down to its lower bound j in the
    sorted s[left..i), as the slice shift and the store leave the array.
   */
  lemma {:induction false} InsertStep(s: seq<int>, t: seq<int>, left: int, j: int, i: int)
    requires 0 <= left <= j <= i < |s| == |t| && SortedRange(s, left, i)
    requires forall p :: left <= p < j ==> s[p] < s[i]
    requires forall p :: j <= p < i ==> s[p] >= s[i]
    requires forall k {:trigger t[k]} :: 0 <= k < |t| ==> t[k] == if k < j || i < k then s[k] else if k == j then s[i] else s[k - 1]
    ensures SortedRange(t, left, i + 1)
    ensures SameOutside(s, t, j, i + 1)
    ensures multiset(t) == multiset(s)
  {
    forall k | 0 <= k < |t| ensures t[k] == MoveDown(s, j, i)[k] {
      MoveDownAt(s, j, i, k);
    }
    MoveDownAt(s, j, i, 0);
    assert t == MoveDown(s, j, i);
    MoveDownSorted(s, left, j, i);
  }

  /** The minimum-run policy applies: a (non-zero) minimum is given and the run is shorter. */
  predicate Extends(minRun: Option<int>, runSize: int) {
    minRun.Some? && minRun.value != 0 && runSize < minRun.value
  }

  /**
    Finds the run that begins at `start`: the natural run, extended by binary
    insertion sort to `minRun` elements (or to the end of the array) when it
    is shorter than that.
   */
  method FindNextRun(a: array<int>, start: int, minRun: Option<int>) returns (run: Run)
    requires 0 <= start < a.Length
    modifies a
    ensures run.start == start && start <= run.end < a.Length
    ensures run.end == RunEnd(old(a[..]), start, minRun)
    ensures var e := NaturalRunEnd(old(a[..]), start);
      run.end == if Extends(minRun, e - start + 1) then Min(start + minRun.value - 1, a.Length - 1) else e
    ensures !Extends(minRun, NaturalRunEnd(old(a[..]), start) - start + 1) ==>
      a[..] == Normalized(old(a[..]), start)
    ensures minRun.Some? ==> run.Len() >= minRun.value || run.end == a.Length - 1
    ensures SortedRange(a[..], start, run.end + 1)
    ensures SameOutside(old(a[..]), a[..], start, run.end + 1)
    ensures multiset(a[..]) == multiset(old(a[..]))
  {
    var end := FindNextNaturalRun(a, start);
    var runSize := end - start + 1;
    if Extends(minRun, runSize) {
      var naturalEnd := end;
      end := Min(start + minRun.value - 1, a.Length - 1);
      ghost var s := a[..];
      BinaryInsertionSort(a, start, end, naturalEnd);
      SameOutsideTrans(old(a[..]), s, a[..], start, end + 1, start, end + 1);
    }
    run := Run(start, end);
  }

  /**
    The run decomposition of the whole array: the runs tile [0, n) from left
    to right, each is sorted in the final array, the array is permuted, and
    under a minimum every run but the last has at least that length.
   */
  method FindRuns(a: array<int>, minRun: Option<int>) returns (runs: seq<Run>)
    modifies a
    ensures runs == RunsFrom(old(a[..]), 0, minRun)
    ensures Tiles(runs, 0, a.Length)
    ensures AllSorted(a[..], runs)
    ensures multiset(a[..]) == multiset(old(a[..]))
    ensures minRun.Some? ==> forall k :: 0 <= k < |runs| - 1 ==> runs[k].Len() >= minRun.value
  {
    ghost var s0 := a[..];
    runs := [];
    var start := 0;
    while start < a.Length
      invariant 0 <= start <= a.Length
      invariant Scanning(s0, a[..], runs, start, minRun)
      invariant multiset(a[..]) == multiset(s0)
      decreases a.Length - start
    {
      runs, start := PushNextRun(a, runs, start, minRun, s0);
    }
    ScanningDone(s0, a[..], runs, minRun);
  }

  /**
    What FindRuns has established once it reaches start: the runs found so
    far are those of the original array s0 up to start, they are sorted in
    s, and under a minimum every run but the last is long enough, the last
    one too unless it ends the array.
   */
  predicate Scanning(s0: seq<int>, s: seq<int>, runs: seq<Run>, start: int, minRun: Option<int>) {
    && Detected(s0, s, runs, start, minRun)
    && AllSorted(s, runs)
    && (minRun.Some? ==> forall k :: 0 <= k < |runs| - 1 ==> runs[k].Len() >= minRun.value)
    && (minRun.Some? && |runs| > 0 && start < |s| ==> runs[|runs| - 1].Len() >= minRun.value)
  }

  /**
    Pushing the run that ends where RunEnd says, once it is sorted in place
    and nothing else has changed, keeps the scan's state.
   */
  lemma {:induction false} ScanningPush(s0: seq<int>, s: seq<int>, t: seq<int>, runs: seq<Run>, run: Run, minRun: Option<int>)
    requires Scanning(s0, s, runs, run.start, minRun) && run.start < |s|
    requires run.end == RunEnd(s, run.start, minRun)
    requires SameOutside(s, t, run.start, run.end + 1) && SortedRange(t, run.start, run.end + 1)
    ensures Scanning(s0, t, runs + [run], run.end + 1, minRun)
  {
    RunEndLong(s, run.start, minRun);
    AllSortedPush(s, t, runs, run, 0);
    SameOutsideTrans(s, s, t, 0, run.end + 1, run.start, run.end + 1);
    DetectedPush(s0, s, t, runs, run, minRun);
  }

  /** The run RunEnd gives is at least minRun long unless it ends the sequence. */
  lemma {:induction false} RunEndLong(s: seq<int>, start: int, minRun: Option<int>)
    requires 0 <= start < |s|
    ensures minRun.Some? ==> RunEnd(s, start, minRun) - start + 1 >= minRun.value || RunEnd(s, start, minRun) == |s| - 1
  {
  }

  lemma {:induction false} ScanningDone(s0: seq<int>, s: seq<int>, runs: seq<Run>, minRun: Option<int>)
    requires Scanning(s0, s, runs, |s|, minRun)
    ensures runs == RunsFrom(s0, 0, minRun)
    ensures Tiles(runs, 0, |s|) && AllSorted(s, runs)
    ensures minRun.Some? ==> forall k :: 0 <= k < |runs| - 1 ==> runs[k].Len() >= minRun.value
  {
    DetectedDone(s0, s, runs, minRun);
  }

  /**
    What a scan that finds the runs one at a time has established once it
    reaches hi, whatever it has done to the array before hi since: the runs
    found tile [0, hi), each is the run the original array s0 has at its
    start, and s is still as s0 from hi on.
   */
  predicate Detected(s0: seq<int>, s: seq<int>, runs: seq<Run>, hi: int, minRun: Option<int>) {
    && Tiles(runs, 0, hi) && 0 <= hi <= |s|
    && FoundRuns(s0, runs, minRun)
    && SameOutside(s0, s, 0, hi)
  }

  /**
    The run that ends where RunEnd in the current array says is the next
    run of the original array too, as long as the array from its start on
    is still the original.
   */
  lemma {:induction false} DetectedPush(s0: seq<int>, s: seq<int>, t: seq<int>, runs: seq<Run>, run: Run, minRun: Option<int>)
    requires Detected(s0, s, runs, run.start, minRun) && run.start < |s|
    requires run.end == RunEnd(s, run.start, minRun)
    requires SameOutside(s, t, 0, run.end + 1)
    ensures Detected(s0, t, runs + [run], run.end + 1, minRun)
  {
    RunEndFrame(s0, s, run.start, minRun);
    TilesPush(runs, run, 0);
    var u := runs + [run];
    forall k | 0 <= k < |u| ensures 0 <= u[k].start < |s0| && u[k].end == RunEnd(s0, u[k].start, minRun) {
      if k < |runs| {
        assert u[k] == runs[k];
      }
    }
  }

  /** Once the found runs reach the end, they are the whole decomposition. */
  lemma {:induction false} DetectedDone(s0: seq<int>, s: seq<int>, runs: seq<Run>, minRun: Option<int>)
    requires Detected(s0, s, runs, |s|, minRun)
    ensures runs == RunsFrom(s0, 0, minRun)
  {
    FoundAllRuns(s0, runs, 0, minRun);
  }

  /**
    One iteration of FindRuns: the next run from start, the run the
    original array s0 has there, is pushed and the scan moves past it.
   */
  method PushNextRun(a: array<int>, runs: seq<Run>, start: int, minRun: Option<int>, ghost s0: seq<int>)
    returns (runs': seq<Run>, start': int)
    requires start < a.Length && Scanning(s0, a[..], runs, start, minRun)
    modifies a
    ensures start < start' <= a.Length
    ensures Scanning(s0, a[..], runs', start', minRun)
    ensures multiset(a[..]) == multiset(old(a[..]))
  {
    ghost var s := a[..];
    var run := FindNextRun(a, start, minRun);
    runs', start' := runs + [run], run.end + 1;
    ScanningPush(s0, s, a[..], runs, run, minRun);
  }

  /**
    The last index of the run FindNextRun finds at start: the natural run's
    end, or, when the minimum-run policy applies, start + minRun - 1 capped
    at the last index.
   */
  function RunEnd(s: seq<int>, start: int, minRun: Option<int>): (e: int)
    requires 0 <= start < |s|
    ensures start <= e < |s|
  {
    var natural := NaturalRunEnd(s, start);
    if Extends(minRun, natural - start + 1) then Min(start + minRun.value - 1, |s| - 1) else natural
  }

  /** The runs FindRuns finds in s from start on, each beginning where the previous one ended. */
  function RunsFrom(s: seq<int>, start: int, minRun: Option<int>): seq<Run>
    requires 0 <= start <= |s|
    decreases |s| - start
  {
    if start == |s| then [] else
      var e := RunEnd(s, start, minRun);
      [Run(start, e)] + RunsFrom(s, e + 1, minRun)
  }

  /** Every run of `runs` ends where RunEnd in s says the run at its start ends. */
  predicate FoundRuns(s: seq<int>, runs: seq<Run>, minRun: Option<int>) {
    forall k :: 0 <= k < |runs| ==> 0 <= runs[k].start < |s| && runs[k].end == RunEnd(s, runs[k].start, minRun)
  }

  /** The run found at start depends only on the elements from start on. */
  lemma {:induction false} RunEndFrame(s: seq<int>, t: seq<int>, start: int, minRun: Option<int>)
    requires 0 <= start < |s| && SameOutside(s, t, 0, start)
    ensures RunEnd(s, start, minRun) == RunEnd(t, start, minRun)
  {
    NaturalRunFrame(s, t, start);
  }

  /** Runs that tile [lo, |s|) and each end where RunEnd says are the decomposition from lo. */
  lemma {:induction false} FoundAllRuns(s: seq<int>, runs: seq<Run>, lo: int, minRun: Option<int>)
    requires Tiles(runs, lo, |s|) && FoundRuns(s, runs, minRun)
    ensures runs == RunsFrom(s, lo, minRun)
    decreases |runs|
  {
    if runs != [] {
      var r0, rest := runs[0], runs[1..];
      FoundRunsTail(s, runs, minRun);
      TilesTail(runs, lo, |s|);
      FoundAllRuns(s, rest, r0.end + 1, minRun);
      RunsFromCons(s, lo, r0.end, minRun);
      assert runs == [r0] + rest;
    } else {
      assert lo == |s|;
    }
  }

  /** The decomposition from lo is the run at lo followed by the decomposition after it. */
  lemma {:induction false} RunsFromCons(s: seq<int>, lo: int, e: int, minRun: Option<int>)
    requires 0 <= lo < |s| && e == RunEnd(s, lo, minRun)
    ensures RunsFrom(s, lo, minRun) == [Run(lo, e)] + RunsFrom(s, e + 1, minRun)
  {
  }

  lemma {:induction false} FoundRunsTail(s: seq<int>, runs: seq<Run>, minRun: Option<int>)
    requires FoundRuns(s, runs, minRun) && |runs| > 0
    ensures FoundRuns(s, runs[1..], minRun)
    ensures runs[0].end == RunEnd(s, runs[0].start, minRun)
  {
    forall k | 0 <= k < |runs| - 1 ensures runs[1..][k] == runs[k + 1] { }
  }

  /** A sorted non-empty array is a single run, whatever the minimum. */
  lemma {:induction false} SortedSingleRun(s: seq<int>, minRun: Option<int>)
    requires Sorted(s) && |s| > 0
    ensures RunsFrom(s, 0, minRun) == [Run(0, |s| - 1)]
  {
    SortedNaturalRun(s, 0);
    assert RunEnd(s, 0, minRun) == |s| - 1;
    assert RunsFrom(s, |s|, minRun) == [];
  }

  /**
    Merges the adjacent sorted runs a[l..m] and a[m+1..r] in place: the
    range becomes the stable merge of the two (ties taken from the left run),
    which is sorted and a permutation of the two runs; nothing else changes.
   */
  method Merge(a: array<int>, l: int, m: int, r: int) returns (run: Run)
    requires 0 <= l <= m + 1 <= r + 1 <= a.Length
    modifies a
    ensures run == Run(l, r)
    ensures a[l..r + 1] == StableMerge(old(a[l..m + 1]), old(a[m + 1..r + 1]))
    ensures SameOutside(old(a[..]), a[..], l, r + 1)
    ensures multiset(a[..]) == multiset(old(a[..]))
    ensures SortedRange(old(a[..]), l, m + 1) && SortedRange(old(a[..]), m + 1, r + 1) ==>
      SortedRange(a[..], l, r + 1)
  {
    var left := a[l..m + 1];
    var right := a[m + 1..r + 1];
    var k, i, j := MergeHeads(a, l, left, right);
    CopyTails(a, l, k, left, i, right, j, r + 1, old(a[..]), StableMerge(left, right));
    MergeFacts(old(a[..]), a[..], l, m, r);
    if SortedRange(old(a[..]), l, m + 1) && SortedRange(old(a[..]), m + 1, r + 1) {
      MergedRangeSorted(old(a[..]), a[..], l, m, r);
    }
    run := Run(l, r);
  }

  /**
    The first loop of the merge: while both runs have elements left, the
    smaller head (the left one on a tie) is written to a[k]. On exit one run
    is used up, and the output written so far followed by the two remaining
    suffixes is the stable merge.
   */
  method MergeHeads(a: array<int>, l: int, left: seq<int>, right: seq<int>) returns (k: int, i: int, j: int)
    requires 0 <= l && l + |left| + |right| <= a.Length
    modifies a
    ensures 0 <= i <= |left| && 0 <= j <= |right| && k == l + i + j
    ensures i == |left| || j == |right|
    ensures a[l..k] + left[i..] + right[j..] == StableMerge(left, right)
    ensures SameOutside(old(a[..]), a[..], l, k)
  {
    k, i, j := l, 0, 0;
    while i < |left| && j < |right|
      invariant 0 <= i <= |left| && 0 <= j <= |right| && k == l + i + j
      invariant a[l..k] + StableMerge(left[i..], right[j..]) == StableMerge(left, right)
      invariant SameOutside(old(a[..]), a[..], l, k)
    {
      ghost var done, before := a[l..k], a[..];
      StableMergeStep(left, right, i, j);
      if left[i] <= right[j] {
        TakeLeft(done, left, right, i, j);
        a[k] := left[i];
        WriteNext(old(a[..]), before, a[..], l, k, left[i]);
        i := i + 1;
      } else {
        TakeRight(done, left, right, i, j);
        a[k] := right[j];
        WriteNext(old(a[..]), before, a[..], l, k, right[j]);
        j := j + 1;
      }
      k := k + 1;
    }
    MergeExhausted(a[l..k], left, right, i, j);
    assert left[i..] == [] || right[j..] == [];
  }

  /**
    The two tail loops of the merge: the rests left[i..] and right[j..] are
    copied to a[k..stop), which completes the output begun at l.
   */
  method CopyTails(a: array<int>, l: int, k: int, left: seq<int>, i: int, right: seq<int>, j: int, stop: int,
                   ghost s0: seq<int>, ghost whole: seq<int>)
    requires 0 <= l <= k && 0 <= i <= |left| && 0 <= j <= |right| && stop == k + (|left| - i) + (|right| - j) <= a.Length
    requires a[l..k] + left[i..] + right[j..] == whole && SameOutside(s0, a[..], l, k)
    modifies a
    ensures a[l..stop] == whole && SameOutside(s0, a[..], l, stop)
  {
    ghost var s1 := a[..];
    var k2 := CopyRest(a, k, left, i);
    ghost var s2 := a[..];
    var k3 := CopyRest(a, k2, right, j);
    MergeAssembled(s1, s2, a[..], l, k, k2, k3, left[i..], right[j..], whole);
  }

  /** The tail loops of the merge: copies xs[i..] to a[k..] and returns the index after it. */
  method CopyRest(a: array<int>, k: int, xs: seq<int>, i: int) returns (k': int)
    requires 0 <= i <= |xs| && 0 <= k && k + |xs| - i <= a.Length
    modifies a
    ensures k' == k + |xs| - i
    ensures a[k..k'] == xs[i..]
    ensures SameOutside(old(a[..]), a[..], k, k')
  {
    var p := i;
    k' := k;
    while p < |xs|
      invariant i <= p <= |xs| && k' == k + p - i
      invariant a[k..k'] == xs[i..p]
      invariant SameOutside(old(a[..]), a[..], k, k')
    {
      ghost var before := a[..];
      a[k'] := xs[p];
      WriteNext(old(a[..]), before, a[..], k, k', xs[p]);
      assert xs[i..p + 1] == xs[i..p] + [xs[p]];
      p := p + 1;
      k' := k' + 1;
    }
  }

  /** The three loops' outputs, side by side, make up the merged range. */
  lemma {:induction false} MergeAssembled(s1: seq<int>, s2: seq<int>, s3: seq<int>, l: int, k1: int, k2: int, k3: int,
                       xs: seq<int>, ys: seq<int>, whole: seq<int>)
    requires 0 <= l <= k1 && k2 == k1 + |xs| && k3 == k2 + |ys| && k3 <= |s1| == |s2| == |s3|
    requires s1[l..k1] + xs + ys == whole
    requires SameOutside(s1, s2, k1, k2) && s2[k1..k2] == xs
    requires SameOutside(s2, s3, k2, k3) && s3[k2..k3] == ys
    ensures s3[l..k3] == whole
    ensures SameOutside(s1, s3, k1, k3)
  {
    SameOutsideJoin(s1, s2, s3, k1, k2, k3);
    SliceUnchanged(s1, s3, k1, k3, l, k1);
    SliceUnchanged(s2, s3, k2, k3, k1, k2);
    assert s3[l..k3] == s3[l..k1] + s3[k1..k2] + s3[k2..k3];
  }

  /** Writing x at k extends the written prefix [l, k) by x and changes nothing else. */
  lemma {:induction false} WriteNext(s0: seq<int>, s: seq<int>, t: seq<int>, l: int, k: int, x: int)
    requires 0 <= l <= k < |s| && t == s[k := x] && SameOutside(s0, s, l, k)
    ensures t[l..k + 1] == s[l..k] + [x]
    ensures SameOutside(s0, t, l, k + 1)
  {
  }

  /** A range replaced by the merge of its two halves leaves the array a permutation of itself. */
  lemma {:induction false} MergeFacts(s: seq<int>, t: seq<int>, l: int, m: int, r: int)
    requires 0 <= l <= m + 1 <= r + 1 <= |s|
    requires SameOutside(s, t, l, r + 1)
    requires t[l..r + 1] == StableMerge(s[l..m + 1], s[m + 1..r + 1])
    ensures multiset(t) == multiset(s)
  {
    StableMergeMultiset(s[l..m + 1], s[m + 1..r + 1]);
    SpliceHalves(s, t, l, m, r);
  }

  /** A range refilled with the elements of its two halves leaves the array a permutation of itself. */
  lemma {:induction false} SpliceHalves(s: seq<int>, t: seq<int>, l: int, m: int, r: int)
    requires 0 <= l <= m + 1 <= r + 1 <= |s|
    requires SameOutside(s, t, l, r + 1)
    requires multiset(t[l..r + 1]) == multiset(s[l..m + 1]) + multiset(s[m + 1..r + 1])
    ensures multiset(t) == multiset(s)
  {
    assert s[l..r + 1] == s[l..m + 1] + s[m + 1..r + 1];
    MultisetSplice(s, t, l, r + 1);
  }

  /** The merge of two sorted halves is a sorted range. */
  lemma {:induction false} MergedRangeSorted(s: seq<int>, t: seq<int>, l: int, m: int, r: int)
    requires 0 <= l <= m + 1 <= r + 1 <= |s| == |t|
    requires SortedRange(s, l, m + 1) && SortedRange(s, m + 1, r + 1)
    requires t[l..r + 1] == StableMerge(s[l..m + 1], s[m + 1..r + 1])
    ensures SortedRange(t, l, r + 1)
  {
    var xs, ys := s[l..m + 1], s[m + 1..r + 1];
    assert Sorted(xs) by {
      forall p, q | 0 <= p < q < |xs| ensures xs[p] <= xs[q] {
        assert xs[p] == s[l + p] && xs[q] == s[l + q];
      }
    }
    assert Sorted(ys) by {
      forall p, q | 0 <= p < q < |ys| ensures ys[p] <= ys[q] {
        assert ys[p] == s[m + 1 + p] && ys[q] == s[m + 1 + q];
      }
    }
    StableMergeSorted(xs, ys);
    var w := t[l..r + 1];
    forall p, q | l <= p < q < r + 1 ensures t[p] <= t[q] {
      assert t[p] == w[p - l] && t[q] == w[q - l];
    }
  }
}
