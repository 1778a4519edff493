/**
  The self-contained counting Timsort: its own counted run scan (equal
  prefix first), its own run decomposition with MinRun, and the run stack of
  CountingTimsort. Its insertion sort, search and merge are those of
  CountingCommons. The counted scan serves the self-contained Powersort too.
 */
module BenchmarkTimsort {
  import opened Order
  import opened Runs
  import opened Scan
  import Commons
  import Plain = Timsort
  import CountingCommons
  import CountingTimsort
  import opened Arith

  /**
    The comparisons of the counted equal-prefix scan: the loop over the
    equal prefix, the ascending loop from its end, and the descending loop
    from the same point when the ascent made no progress.
   */
  function EqualPrefixComparisons(s: seq<int>, start: int): int
    requires 0 <= start < |s|
  {
    var eq := EqEnd(s, start);
    CountingCommons.LoopTests(s, start, eq) + CountingCommons.LoopTests(s, eq, AscEnd(s, start)) +
      (if IsDescending(s, start) then CountingCommons.LoopTests(s, eq, DescEnd(s, start)) else 0)
  }

  /** At least one comparison per element after the first, and at most three more. */
  lemma {:induction false} EqualPrefixComparisonsBounds(s: seq<int>, start: int)
    requires 0 <= start < |s|
    ensures var e := NaturalRunEnd(s, start);
      e - start <= EqualPrefixComparisons(s, start) <= e - start + 3
  {
    EqualPrefixRule(s, start);
  }

  /**
    Timsort.FindNextNaturalRun, counting one comparison per loop test. At
    the end of the array it makes none and changes nothing.
   */
  method FindNextNaturalRun(a: array<int>, start: int) returns (end: int, comparisons: int)
    requires 0 <= start <= a.Length
    modifies a
    ensures start == a.Length ==> end == start && comparisons == 0 && a[..] == old(a[..])
    ensures start < a.Length ==> end == NaturalRunEnd(old(a[..]), start) && a[..] == Normalized(old(a[..]), start)
    ensures start < a.Length ==> comparisons == EqualPrefixComparisons(old(a[..]), start)
    ensures start < a.Length ==> start <= end < a.Length && SortedRange(a[..], start, end + 1)
    ensures SameOutside(old(a[..]), a[..], start, end + 1)
    ensures multiset(a[..]) == multiset(old(a[..]))
  {
    ghost var s := a[..];
    if start == a.Length {
      end, comparisons := start, 0;
      return;
    }
    var tmp, eqTests := EqualPrefix(a, start);
    EqualPrefixRule(s, start);
    var ascTests;
    end, ascTests := CountingCommons.Ascend(a, tmp);
    comparisons := eqTests + ascTests;
    if end == tmp {
      assert IsDescending(s, start);
      var descTests;
      end, descTests := CountingCommons.Descend(a, start, tmp);
      comparisons := comparisons + descTests;
      Commons.ReverseInPlace(a, start, end + 1);
    }
    Plain.EqualPrefixDone(s, a[..], start, tmp, end);
  }

  /**
    The counted loop over the equal prefix: it stops at the end of the
    maximal stretch of elements equal to a[start].
   */
  method EqualPrefix(a: array<int>, start: int) returns (i: int, comparisons: int)
    requires 0 <= start < a.Length
    ensures i == EqEnd(a[..], start)
    ensures comparisons == CountingCommons.LoopTests(a[..], start, i)
  {
    comparisons := 0;
    i := start;
    while i < a.Length - 1
      invariant start <= i < a.Length
      invariant EqEnd(a[..], i) == EqEnd(a[..], start)
      invariant comparisons == i - start
    {
      comparisons := comparisons + 1;
      if a[i] != a[i + 1] {
        break;
      }
      i := i + 1;
    }
  }

  /**
    The run decomposition with MinRun and its count: the runs are those
    RunsFrom gives for the input, they tile [0, n), are sorted, and all but
    the last have at least MinRun elements. Each scan costs at least one
    comparison per element after its first and at most MinRun per element
    plus two.
   */
  method FindRuns(a: array<int>) returns (runs: seq<Run>, comparisons: int)
    modifies a
    ensures runs == Commons.RunsFrom(old(a[..]), 0, Some(Plain.MinRun))
    ensures Tiles(runs, 0, a.Length)
    ensures AllSorted(a[..], runs)
    ensures multiset(a[..]) == multiset(old(a[..]))
    ensures forall k :: 0 <= k < |runs| - 1 ==> runs[k].Len() >= Plain.MinRun
    ensures comparisons >= 0
    ensures a.Length - |runs| <= comparisons <= Plain.MinRun * a.Length + 2 * |runs|
  {
    ghost var s0 := a[..];
    runs := [];
    comparisons := 0;
    var i := 0;
    while i < a.Length
      invariant 0 <= i <= a.Length
      invariant Commons.Scanning(s0, a[..], runs, i, Some(Plain.MinRun))
      invariant multiset(a[..]) == multiset(s0)
      invariant ScanCounted(comparisons, i, |runs|, Plain.MinRun, true)
      decreases a.Length - i
    {
      runs, i, comparisons := PushNextRun(a, runs, i, s0, comparisons);
    }
    CountingCommons.CountedScanDone(s0, a[..], runs, Some(Plain.MinRun), comparisons, Plain.MinRun, true);
  }

  /**
    One iteration of FindRuns: the counted next run from start, the run the
    original array s0 has there, is pushed, and the comparisons of its scan
    are added to the count c.
   */
  method PushNextRun(a: array<int>, runs: seq<Run>, start: int, ghost s0: seq<int>, c: int)
    returns (runs': seq<Run>, start': int, c': int)
    requires start < a.Length && Commons.Scanning(s0, a[..], runs, start, Some(Plain.MinRun))
    requires ScanCounted(c, start, |runs|, Plain.MinRun, true)
    modifies a
    ensures start < start' <= a.Length
    ensures Commons.Scanning(s0, a[..], runs', start', Some(Plain.MinRun))
    ensures ScanCounted(c', start', |runs'|, Plain.MinRun, true)
    ensures multiset(a[..]) == multiset(old(a[..]))
  {
    ghost var s := a[..];
    var run, comparisons := ScanNext(a, start);
    runs', start', c' := runs + [run], run.end + 1, c + comparisons;
    Commons.ScanningPush(s0, s, a[..], runs, run, Some(Plain.MinRun));
    ScanCountStep(c, comparisons, start, run.Len(), |runs|, 1, Plain.MinRun, true, start', |runs'|);
  }

  /** NextRun with only what the run decomposition needs of it. */
  method ScanNext(a: array<int>, start: int) returns (run: Run, comparisons: int)
    requires 0 <= start < a.Length
    modifies a
    ensures run.start == start && run.end == Commons.RunEnd(old(a[..]), start, Some(Plain.MinRun))
    ensures SameOutside(old(a[..]), a[..], start, run.end + 1) && SortedRange(a[..], start, run.end + 1)
    ensures ScanCounted(comparisons, run.Len(), 1, Plain.MinRun, true)
    ensures multiset(a[..]) == multiset(old(a[..]))
  {
    var j;
    j, comparisons := NextRun(a, start);
    run := Run(start, j);
    OneScanCounted(comparisons, run.Len(), Plain.MinRun, true);
  }

  /**
    One step of FindRuns with its count: the natural run from i, extended by
    binary insertion sort to MinRun elements (or to the end of the array)
    when shorter; the count is the scan's, plus the insertion sort's when
    the run was extended.
   */
  method NextRun(a: array<int>, i: int) returns (j: int, comparisons: int)
    requires 0 <= i < a.Length
    modifies a
    ensures var e := NaturalRunEnd(old(a[..]), i);
      j == if e - i + 1 < Plain.MinRun then Commons.Min(i + Plain.MinRun - 1, a.Length - 1) else e
    ensures var e := NaturalRunEnd(old(a[..]), i);
      e - i + 1 >= Plain.MinRun ==> comparisons == EqualPrefixComparisons(old(a[..]), i)
    ensures comparisons >= EqualPrefixComparisons(old(a[..]), i) >= 0
    ensures j == Commons.RunEnd(old(a[..]), i, Some(Plain.MinRun))
    ensures j - i <= comparisons <= Plain.MinRun * (j - i + 1) + 2
    ensures i <= j < a.Length && (j - i + 1 >= Plain.MinRun || j == a.Length - 1)
    ensures SortedRange(a[..], i, j + 1)
    ensures SameOutside(old(a[..]), a[..], i, j + 1)
    ensures multiset(a[..]) == multiset(old(a[..]))
  {
    EqualPrefixComparisonsBounds(a[..], i);
    j, comparisons := FindNextNaturalRun(a, i);
    var runSize := j - i + 1;
    if runSize < Plain.MinRun {
      var endIndex := Commons.Min(i + Plain.MinRun - 1, a.Length - 1);
      ghost var s1 := a[..];
      var diff := CountingCommons.BinaryInsertionSort(a, i, endIndex, j);
      CountingCommons.ExtendedRunCost(i, j, j, endIndex, Plain.MinRun, comparisons, diff, true);
      comparisons := comparisons + diff;
      SameOutsideTrans(old(a[..]), s1, a[..], i, endIndex + 1, i, endIndex + 1);
      j := endIndex;
    } else {
      CountingCommons.NaturalRunCost(runSize, Plain.MinRun, comparisons, true);
    }
  }

  /**
    Sorts a in place and returns the number of comparisons: those of the run
    decomposition (`scanned`, over the `runs` that the scan of the input
    finds: at least one per element less one per run, at most MinRun per
    element plus two per run) plus those of the |runs| - 1 merges, each
    costing between 1 and n - 1.
   */
  method Timsort(a: array<int>) returns (comparisons: int, ghost runs: seq<Run>, ghost scanned: int)
    modifies a
    ensures Sorted(a[..])
    ensures multiset(a[..]) == multiset(old(a[..]))
    ensures runs == Commons.RunsFrom(old(a[..]), 0, Some(Plain.MinRun))
    ensures Tiles(runs, 0, a.Length) && forall k :: 0 <= k < |runs| - 1 ==> runs[k].Len() >= Plain.MinRun
    ensures a.Length - |runs| <= scanned <= Plain.MinRun * a.Length + 2 * |runs|
    ensures |runs| <= 1 ==> comparisons == scanned
    ensures |runs| >= 1 ==> |runs| - 1 <= comparisons - scanned <= (|runs| - 1) * (a.Length - 1)
  {
    var found, scanCount := FindRuns(a);
    var merged := CountingTimsort.MergeRuns(a, found);
    comparisons := scanCount + merged;
    runs, scanned := found, scanCount;
  }
}
