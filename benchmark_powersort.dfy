/**
  The self-contained counting Powersort: runs are found by the counted
  equal-prefix scan, optionally extended to 32 elements by a binary
  insertion sort of the whole extended run, and the scheduler is that of
  Powersort with stack entries (start, end) and a merge that returns the
  merged bounds with its count.
 */
module BenchmarkPowersort {
  import opened Order
  import opened Runs
  import opened Scan
  import opened Arith
  import Commons
  import Plain = Powersort
  import CountingCommons
  import CountingPowersort
  import BenchmarkTimsort

  const MinRun := 32

  /**
    The next run from start with its count. With fixMinrun a natural run
    shorter than MinRun is extended to MinRun elements (or to the end of
    the array), and the insertion sort then starts from start itself, so
    it also re-inserts the elements of the natural run. At the end of the
    array nothing changes and nothing is counted; the end is then start,
    or start - 1 with fixMinrun.
   */
  method FindNextRun(a: array<int>, start: int, fixMinrun: bool) returns (end: int, comparisons: int)
    requires 0 <= start <= a.Length
    modifies a
    ensures start == a.Length ==> end == (if fixMinrun then start - 1 else start) && comparisons == 0
    ensures start < a.Length ==> var e := NaturalRunEnd(old(a[..]), start);
      end == if fixMinrun && e - start + 1 < MinRun then Commons.Min(start + MinRun - 1, a.Length - 1) else e
    ensures start < a.Length ==> var e := NaturalRunEnd(old(a[..]), start);
      (!fixMinrun || e - start + 1 >= MinRun) ==>
        a[..] == Normalized(old(a[..]), start) && comparisons == BenchmarkTimsort.EqualPrefixComparisons(old(a[..]), start)
    ensures start < a.Length ==> start <= end < a.Length && comparisons >= BenchmarkTimsort.EqualPrefixComparisons(old(a[..]), start)
    ensures start < a.Length && fixMinrun ==> end - start + 1 >= MinRun || end == a.Length - 1
    ensures start < a.Length ==> SortedRange(a[..], start, end + 1)
    ensures start < a.Length ==> end == Commons.RunEnd(old(a[..]), start, Policy(fixMinrun))
    ensures start < a.Length ==> end - start <= comparisons <= CountingCommons.CostFactor(Policy(fixMinrun)) * (end - start + 1) + 2
    ensures comparisons >= 0
    ensures SameOutside(old(a[..]), a[..], start, end + 1)
    ensures multiset(a[..]) == multiset(old(a[..]))
  {
    if start < a.Length {
      BenchmarkTimsort.EqualPrefixComparisonsBounds(a[..], start);
      PolicyRunEnd(a[..], start, fixMinrun);
    }
    end, comparisons := BenchmarkTimsort.FindNextNaturalRun(a, start);
    var runSize := end - start + 1;
    if fixMinrun && runSize < MinRun {
      ghost var s1, naturalEnd := a[..], end;
      var diff;
      end, diff := Extend(a, start);
      if start < a.Length {
        CountingCommons.ExtendedRunCost(start, naturalEnd, start, end, CountingCommons.CostFactor(Policy(fixMinrun)), comparisons, diff, true);
      }
      comparisons := comparisons + diff;
      SameOutsideTrans(old(a[..]), s1, a[..], start, end + 1, start, end + 1);
    } else if start < a.Length {
      CountingCommons.NaturalRunCost(runSize, CountingCommons.CostFactor(Policy(fixMinrun)), comparisons, true);
    }
  }

  /** The run Commons.RunEnd finds under Policy, and the cost factor of Policy, written out. */
  lemma {:induction false} PolicyRunEnd(s: seq<int>, start: int, fixMinrun: bool)
    requires 0 <= start < |s|
    ensures var e := NaturalRunEnd(s, start);
      Commons.RunEnd(s, start, Policy(fixMinrun)) == if fixMinrun && e - start + 1 < MinRun then Commons.Min(start + MinRun - 1, |s| - 1) else e
    ensures CountingCommons.CostFactor(Policy(fixMinrun)) == if fixMinrun then MinRun else 1
  {
  }

  /** The run-length policy of FindNextRun: MinRun with fixMinrun, none without. */
  function Policy(fixMinrun: bool): Option<int> {
    if fixMinrun then Some(MinRun) else None
  }

  /**
    The MinRun extension: [start, end] with end = min(start + MinRun - 1,
    n - 1) is sorted by binary insertion sort from start, which at the
    end of the array has nothing to do.
   */
  method Extend(a: array<int>, start: int) returns (end: int, comparisons: int)
    requires 0 <= start <= a.Length
    modifies a
    ensures end == Commons.Min(start + MinRun - 1, a.Length - 1)
    ensures start < a.Length ==> SortedRange(a[..], start, end + 1)
    ensures start == a.Length ==> comparisons == 0
    ensures comparisons >= 0
    ensures start < end ==> end - start <= comparisons <= (end - start) * (end - start)
    ensures end <= start ==> comparisons == 0
    ensures SameOutside(old(a[..]), a[..], start, end + 1)
    ensures multiset(a[..]) == multiset(old(a[..]))
  {
    end := Commons.Min(start + MinRun - 1, a.Length - 1);
    comparisons := CountingCommons.BinaryInsertionSort(a, start, end, start);
  }

  /**
    Sorts a in place and returns the number of comparisons: those of the
    scans for the `runs` that the scan of the input finds (`scanned`: at
    least one per element less one per run, at most CostFactor per element
    plus two per run) plus those of the |runs| - 1 merges, each between 1
    and n - 1. An empty array costs nothing.
   */
  method Powersort(a: array<int>, fixMinrun: bool) returns (comparisons: int, ghost runs: seq<Run>, ghost scanned: int)
    modifies a
    ensures Sorted(a[..])
    ensures multiset(a[..]) == multiset(old(a[..]))
    ensures runs == Commons.RunsFrom(old(a[..]), 0, Policy(fixMinrun)) && |runs| <= a.Length
    ensures a.Length - |runs| <= scanned <= CountingCommons.CostFactor(Policy(fixMinrun)) * a.Length + 2 * |runs|
    ensures a.Length == 0 ==> comparisons == 0
    ensures a.Length > 0 ==> |runs| - 1 <= comparisons - scanned <= (|runs| - 1) * (a.Length - 1)
  {
    ghost var s0 := a[..];
    var n := a.Length;
    var X: seq<Run> := [];
    var P: seq<int> := [];
    var e1;
    e1, comparisons := FirstRun(a, fixMinrun);
    if n == 0 {
      // Both loops of the scheduler are skipped: e1 >= n - 1 and X is empty.
      runs, scanned := [], 0;
      return;
    }
    var r1 := Run(0, e1);
    runs, scanned := [r1], comparisons;
    ghost var merges: nat, merged := 0, 0;
    assert CountingPowersort.Scheduled(s0, a[..], X, P, r1, Policy(fixMinrun), true, runs, scanned, comparisons, merges, merged);
    while r1.end < n - 1
      invariant CountingPowersort.Scheduled(s0, a[..], X, P, r1, Policy(fixMinrun), true, runs, scanned, comparisons, merges, merged)
      invariant multiset(a[..]) == multiset(old(a[..]))
      decreases n - r1.end
    {
      X, P, r1, comparisons, runs, scanned, merges, merged := Advance(a, X, P, r1, fixMinrun, s0, runs, scanned, comparisons, merges, merged);
    }
    comparisons := CountingPowersort.Finish(a, X, P, r1, Policy(fixMinrun), true, s0, runs, scanned, comparisons, merges, merged);
  }

  /**
    The first run (0, e1) with its count: the first of the runs the scan of
    the input finds. For an empty array there is nothing to count.
   */
  method FirstRun(a: array<int>, fixMinrun: bool) returns (e1: int, comparisons: int)
    modifies a
    ensures a.Length > 0 ==>
      CountingPowersort.Scheduled(old(a[..]), a[..], [], [], Run(0, e1), Policy(fixMinrun), true, [Run(0, e1)], comparisons, comparisons, 0, 0)
    ensures a.Length == 0 ==> comparisons == 0
    ensures multiset(a[..]) == multiset(old(a[..]))
  {
    if a.Length == 0 {
      e1, comparisons := FindNextRun(a, 0, fixMinrun);
    } else {
      ghost var s := a[..];
      var r1;
      r1, comparisons := ScanNext(a, 0, fixMinrun);
      e1 := r1.end;
      AllSortedPush(a[..], a[..], [], r1, 0);
      Commons.DetectedPush(s, s, a[..], [], r1, Policy(fixMinrun));
    }
  }

  /**
    FindNextRun from start inside the array, with what the scheduler needs
    of it: the run is the one the scan finds in the array as it was, it is
    sorted in place, and its count is within the bounds of ScanCounted.
   */
  method ScanNext(a: array<int>, start: int, fixMinrun: bool) returns (run: Run, comparisons: int)
    requires 0 <= start < a.Length
    modifies a
    ensures run.start == start && run.end == Commons.RunEnd(old(a[..]), start, Policy(fixMinrun))
    ensures SameOutside(old(a[..]), a[..], start, run.end + 1) && SortedRange(a[..], start, run.end + 1)
    ensures ScanCounted(comparisons, run.Len(), 1, CountingCommons.CostFactor(Policy(fixMinrun)), true)
    ensures multiset(a[..]) == multiset(old(a[..]))
  {
    var end;
    end, comparisons := FindNextRun(a, start, fixMinrun);
    run := Run(start, end);
    OneScanCounted(comparisons, run.Len(), CountingCommons.CostFactor(Policy(fixMinrun)), true);
  }

  /** One iteration of the outer loop with the scheduler's bookkeeping, as CountingPowersort.Advance. */
  method Advance(a: array<int>, X: seq<Run>, P: seq<int>, r1: Run, fixMinrun: bool, ghost s0: seq<int>,
                 ghost runs: seq<Run>, ghost scanned: int, comparisons: int, ghost merges: nat, ghost merged: int)
    returns (X': seq<Run>, P': seq<int>, r2: Run, comparisons': int,
             ghost runs': seq<Run>, ghost scanned': int, ghost merges': nat, ghost merged': int)
    requires CountingPowersort.Scheduled(s0, a[..], X, P, r1, Policy(fixMinrun), true, runs, scanned, comparisons, merges, merged)
    requires r1.end < a.Length - 1
    modifies a
    ensures CountingPowersort.Scheduled(s0, a[..], X', P', r2, Policy(fixMinrun), true, runs', scanned', comparisons', merges', merged')
    ensures r1.end < r2.end
    ensures multiset(a[..]) == multiset(old(a[..]))
  {
    var found, cost;
    ghost var k;
    X', P', r2, found, cost, k, runs' := Boundary(a, X, P, r1, fixMinrun, s0, runs);
    comparisons' := comparisons + found + cost;
    scanned', merges', merged' := scanned + found, merges + k, merged + cost;
    CountedAdd(merges, merged, k, cost, a.Length - 1);
    ScanCountStep(scanned, found, r1.end + 1, r2.Len(), |runs|, 1, CountingCommons.CostFactor(Policy(fixMinrun)), true, r2.end + 1, |runs'|);
  }

  /**
    One iteration of the outer loop: the next run (s2, e2) is found, the
    power of its boundary with (s1, e1) computed, the stack entries above
    it merged into the current run, the current run pushed, and the next
    run becomes current. The runs found so far grow by the next run the
    scan of the input s0 finds.
   */
  method Boundary(a: array<int>, X: seq<Run>, P: seq<int>, r1: Run, fixMinrun: bool, ghost s0: seq<int>, ghost runs: seq<Run>)
    returns (X': seq<Run>, P': seq<int>, r2: Run, found: int, cost: int, ghost k: nat, ghost runs': seq<Run>)
    requires Plain.StackState(a[..], X, P, r1) && r1.end < a.Length - 1
    requires Commons.Detected(s0, a[..], runs, r1.end + 1, Policy(fixMinrun))
    modifies a
    ensures Plain.StackState(a[..], X', P', r2) && r2.start == r1.end + 1 <= r2.end
    ensures runs' == runs + [r2] && Commons.Detected(s0, a[..], runs', r2.end + 1, Policy(fixMinrun))
    ensures ScanCounted(found, r2.Len(), 1, CountingCommons.CostFactor(Policy(fixMinrun)), true)
    ensures |X'| + k == |X| + 1 && Counted(k, cost, a.Length - 1)
    ensures multiset(a[..]) == multiset(old(a[..]))
  {
    ghost var s := a[..];
    r2, found := ScanNext(a, r1.end + 1, fixMinrun);
    ghost var t := a[..];
    Plain.FoundNext(s, a[..], X, P, r1, r2);
    var p := Plain.NodePower(r1, r2, a.Length);
    var r1';
    X', P', r1', cost, k := CountingPowersort.MergeDown(a, X, P, r1, p, r2);
    Plain.PushRun(a[..], X', P', r1', r2, p);
    X', P' := X' + [r1'], P' + [p];
    runs' := runs + [r2];
    SameOutsideTrans(s, s, t, 0, r2.end + 1, r2.start, r2.end + 1);
    SameOutsideTrans(s, t, a[..], 0, r2.end + 1, 0, r1.end + 1);
    Commons.DetectedPush(s0, s, a[..], runs, r2, Policy(fixMinrun));
  }
}
