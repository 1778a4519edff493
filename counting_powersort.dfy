/**
  The comparison-counting Powersort: the scheduler of Powersort, with runs
  found by CountingCommons.FindNextRun and merged by the counting merge. The
  count is the sum of the scans' counts and the merges' counts; every merge
  joins two non-empty runs, so it costs between 1 and n - 1 comparisons, and
  k runs are merged by exactly k - 1 merges.
 */
module CountingPowersort {
  import opened Order
  import opened Runs
  import opened Arith
  import Commons
  import Plain = Powersort
  import CountingCommons

  /**
    Sorts a non-empty array in place and returns the number of comparisons:
    those of the scans for the `runs` that the scan of the input finds
    (`scanned`: at least one per element, at most CostFactor(minRun) per
    element plus two per run) plus those of the |runs| - 1 merges.
   */
  method Powersort(a: array<int>, minRun: Option<int>) returns (comparisons: int, ghost runs: seq<Run>, ghost scanned: int)
    requires a.Length > 0
    modifies a
    ensures Sorted(a[..])
    ensures multiset(a[..]) == multiset(old(a[..]))
    ensures runs == Commons.RunsFrom(old(a[..]), 0, minRun) && 1 <= |runs| <= a.Length
    ensures a.Length <= scanned <= CountingCommons.CostFactor(minRun) * a.Length + 2 * |runs|
    ensures |runs| - 1 <= comparisons - scanned <= (|runs| - 1) * (a.Length - 1)
  {
    ghost var s0 := a[..];
    var n := a.Length;
    var X: seq<Run> := [];
    var P: seq<int> := [];
    var r1;
    r1, comparisons := FirstRun(a, minRun);
    runs, scanned := [r1], comparisons;
    ghost var merges: nat, merged := 0, 0;
    while r1.end < n - 1
      invariant Scheduled(s0, a[..], X, P, r1, minRun, false, runs, scanned, comparisons, merges, merged)
      invariant multiset(a[..]) == multiset(old(a[..]))
      decreases n - r1.end
    {
      X, P, r1, comparisons, runs, scanned, merges, merged := Advance(a, X, P, r1, minRun, s0, runs, scanned, comparisons, merges, merged);
    }
    comparisons := Finish(a, X, P, r1, minRun, false, s0, runs, scanned, comparisons, merges, merged);
  }

  /**
    The state of the scheduler with its bookkeeping: the stack X with
    powers P and the current run r1 as in Powersort, the runs found so far
    are those the scan of the input s0 finds up to r1's end, their scans
    cost `scanned` (fewer by one per run when `lax`), the merges so far
    number one less than the runs off the stack and cost `merged`, and
    the count is the sum of the two.
   */
  predicate Scheduled(s0: seq<int>, s: seq<int>, X: seq<Run>, P: seq<int>, r1: Run, minRun: Option<int>, lax: bool,
                      runs: seq<Run>, scanned: int, comparisons: int, merges: nat, merged: int) {
    && Plain.StackState(s, X, P, r1)
    && Commons.Detected(s0, s, runs, r1.end + 1, minRun)
    && ScanCounted(scanned, r1.end + 1, |runs|, CountingCommons.CostFactor(minRun), lax)
    && merges + |X| + 1 == |runs|
    && comparisons == scanned + merged && Counted(merges, merged, |s| - 1)
  }

  /** The first run, the first of those the scan of the input finds, with the comparisons of its scan. */
  method FirstRun(a: array<int>, minRun: Option<int>) returns (r1: Run, comparisons: int)
    requires a.Length > 0
    modifies a
    ensures Plain.StackState(a[..], [], [], r1)
    ensures Commons.Detected(old(a[..]), a[..], [r1], r1.end + 1, minRun)
    ensures ScanCounted(comparisons, r1.end + 1, 1, CountingCommons.CostFactor(minRun), false)
    ensures multiset(a[..]) == multiset(old(a[..]))
  {
    ghost var s := a[..];
    r1, comparisons := CountingCommons.ScanNext(a, 0, minRun);
    AllSortedPush(a[..], a[..], [], r1, 0);
    Commons.DetectedPush(s, s, a[..], [], r1, minRun);
  }

  /**
    One iteration of the outer loop with the scheduler's bookkeeping: the
    next run joins the runs found, its scan's count joins `scanned`, and
    the merges it triggers join the merge count.
   */
  method Advance(a: array<int>, X: seq<Run>, P: seq<int>, r1: Run, minRun: Option<int>, ghost s0: seq<int>,
                 ghost runs: seq<Run>, ghost scanned: int, comparisons: int, ghost merges: nat, ghost merged: int)
    returns (X': seq<Run>, P': seq<int>, r2: Run, comparisons': int,
             ghost runs': seq<Run>, ghost scanned': int, ghost merges': nat, ghost merged': int)
    requires Scheduled(s0, a[..], X, P, r1, minRun, false, runs, scanned, comparisons, merges, merged)
    requires r1.end < a.Length - 1
    modifies a
    ensures Scheduled(s0, a[..], X', P', r2, minRun, false, runs', scanned', comparisons', merges', merged')
    ensures r1.end < r2.end
    ensures multiset(a[..]) == multiset(old(a[..]))
  {
    var found, cost;
    ghost var k;
    X', P', r2, found, cost, k, runs' := Boundary(a, X, P, r1, minRun, s0, runs);
    comparisons' := comparisons + found + cost;
    scanned', merges', merged' := scanned + found, merges + k, merged + cost;
    CountedAdd(merges, merged, k, cost, a.Length - 1);
    ScanCountStep(scanned, found, r1.end + 1, r2.Len(), |runs|, 1, CountingCommons.CostFactor(minRun), false, r2.end + 1, |runs'|);
  }

  /**
    One iteration of the outer loop: the next run r2 is found (with `found`
    comparisons), the boundary power p computed, the stack runs above p
    merged into r1 (k merges costing `cost`), r1 pushed with p, and r2
    becomes the current run. The runs found so far grow by r2, the next
    run the scan of the input s0 finds; the array from r2's end on is
    still that of s0.
   */
  method Boundary(a: array<int>, X: seq<Run>, P: seq<int>, r1: Run, minRun: Option<int>, ghost s0: seq<int>, ghost runs: seq<Run>)
    returns (X': seq<Run>, P': seq<int>, r2: Run, found: int, cost: int, ghost k: nat, ghost runs': seq<Run>)
    requires Plain.StackState(a[..], X, P, r1) && r1.end < a.Length - 1
    requires Commons.Detected(s0, a[..], runs, r1.end + 1, minRun)
    modifies a
    ensures Plain.StackState(a[..], X', P', r2) && r2.start == r1.end + 1 <= r2.end
    ensures runs' == runs + [r2] && Commons.Detected(s0, a[..], runs', r2.end + 1, minRun)
    ensures ScanCounted(found, r2.Len(), 1, CountingCommons.CostFactor(minRun), false)
    ensures |X'| + k == |X| + 1 && Counted(k, cost, a.Length - 1)
    ensures multiset(a[..]) == multiset(old(a[..]))
  {
    ghost var s := a[..];
    r2, found := CountingCommons.ScanNext(a, r1.end + 1, minRun);
    ghost var t := a[..];
    Plain.FoundNext(s, a[..], X, P, r1, r2);
    var p := Plain.NodePower(r1, r2, a.Length);
    var r1';
    X', P', r1', cost, k := MergeDown(a, X, P, r1, p, r2);
    Plain.PushRun(a[..], X', P', r1', r2, p);
    X', P' := X' + [r1'], P' + [p];
    runs' := runs + [r2];
    SameOutsideTrans(s, s, t, 0, r2.end + 1, r2.start, r2.end + 1);
    SameOutsideTrans(s, t, a[..], 0, r2.end + 1, 0, r1.end + 1);
    Commons.DetectedPush(s0, s, a[..], runs, r2, minRun);
  }

  /**
    The inner loop with its count: as Powersort.MergeDown, where each of
    the k merges of a stack run into the current run costs between 1 and
    n - 1 comparisons.
   */
  method MergeDown(a: array<int>, X: seq<Run>, P: seq<int>, r1: Run, p: int, ghost r2: Run)
    returns (X': seq<Run>, P': seq<int>, r1': Run, comparisons: int, ghost k: nat)
    requires Plain.MergingState(a[..], X, P, r1, r2)
    modifies a
    ensures Plain.MergingState(a[..], X', P', r1', r2)
    ensures |P'| == 0 || P'[|P'| - 1] <= p
    ensures |X'| <= |X| && |P'| <= |P| && X' == X[..|X'|] && P' == P[..|P'|] && forall i :: |P'| <= i < |P| ==> P[i] > p
    ensures r1' == Run(if |X'| < |X| then X[|X'|].start else r1.start, r1.end)
    ensures |X'| + k == |X| && Counted(k, comparisons, a.Length - 1)
    ensures SameOutside(old(a[..]), a[..], 0, r1.end + 1)
    ensures multiset(a[..]) == multiset(old(a[..]))
  {
    X', P', r1' := X, P, r1;
    comparisons, k := 0, 0;
    while |P'| > 0 && P'[|P'| - 1] > p
      invariant Plain.MergingState(a[..], X', P', r1', r2)
      invariant |X'| <= |X| && |P'| <= |P| && X' == X[..|X'|] && P' == P[..|P'|] && forall i :: |P'| <= i < |P| ==> P[i] > p
      invariant r1' == Run(if |X'| < |X| then X[|X'|].start else r1.start, r1.end)
      invariant |X'| + k == |X|
      invariant Counted(k, comparisons, a.Length - 1)
      invariant SameOutside(old(a[..]), a[..], 0, r1.end + 1)
      invariant multiset(a[..]) == multiset(old(a[..]))
      decreases |P'|
    {
      var diff;
      ghost var s := a[..];
      X', P', r1', diff := PopAndMerge(a, X', P', r1', r2);
      SameOutsideTrans(old(a[..]), s, a[..], 0, r1.end + 1, 0, r1.end + 1);
      CountedStep(k, comparisons, diff, a.Length - 1);
      comparisons, k := comparisons + diff, k + 1;
    }
  }

  /**
    One iteration of the inner loop: the top power is popped, and the top
    run r0 is popped and merged with r1, at a cost of 1 to n - 1
    comparisons.
   */
  method PopAndMerge(a: array<int>, X: seq<Run>, P: seq<int>, r1: Run, ghost r2: Run)
    returns (X': seq<Run>, P': seq<int>, r1': Run, comparisons: int)
    requires Plain.MergingState(a[..], X, P, r1, r2) && |P| > 0
    modifies a
    ensures Plain.MergingState(a[..], X', P', r1', r2)
    ensures X' == X[..|X| - 1] && P' == P[..|P| - 1] && r1' == Run(X[|X| - 1].start, r1.end)
    ensures 1 <= comparisons <= a.Length - 1
    ensures SameOutside(old(a[..]), a[..], 0, r1.end + 1)
    ensures multiset(a[..]) == multiset(old(a[..]))
  {
    ghost var s := a[..];
    Plain.StackTop(a[..], X, r1);
    P' := P[..|P| - 1];
    var r0 := X[|X| - 1];
    X' := X[..|X| - 1];
    r1', comparisons := CountingCommons.MergeAdjacent(a, r0, r1);
    Plain.PopMerged(s, a[..], X, P, r1, r2);
    SameOutsideTrans(s, s, a[..], 0, r1.end + 1, r0.start, r1.end + 1);
  }

  /**
    The end of the scheduler: the current run reaches the end of the
    array, so the runs found are all the runs of the input s0, and
    MergeRemaining merges the stack into the current run. The count is
    then that of the scans plus that of one merge per run but the last.
   */
  method Finish(a: array<int>, X: seq<Run>, P: seq<int>, r1: Run, minRun: Option<int>, lax: bool, ghost s0: seq<int>,
                ghost runs: seq<Run>, ghost scanned: int, comparisons: int, ghost merges: nat, ghost merged: int)
    returns (comparisons': int)
    requires Scheduled(s0, a[..], X, P, r1, minRun, lax, runs, scanned, comparisons, merges, merged)
    requires r1.end >= a.Length - 1
    modifies a
    ensures Sorted(a[..])
    ensures multiset(a[..]) == multiset(old(a[..]))
    ensures runs == Commons.RunsFrom(s0, 0, minRun) && 1 <= |runs| <= a.Length
    ensures (if lax then a.Length - |runs| else a.Length) <= scanned <= CountingCommons.CostFactor(minRun) * a.Length + 2 * |runs|
    ensures |runs| - 1 <= comparisons' - scanned <= (|runs| - 1) * (a.Length - 1)
  {
    CountingCommons.CountedDetectedDone(s0, a[..], runs, minRun, scanned, CountingCommons.CostFactor(minRun), lax);
    var r1', cost;
    ghost var k;
    r1', cost, k := MergeRemaining(a, X, r1);
    comparisons' := comparisons + cost;
    CountedTotal(merges, merged, k, cost, a.Length - 1, |runs| - 1);
  }

  /**
    The final merges with their count: as Powersort.MergeRemaining, one
    merge per run left on X, each costing between 1 and n - 1 comparisons.
   */
  method MergeRemaining(a: array<int>, X: seq<Run>, r1: Run) returns (r1': Run, comparisons: int, ghost k: nat)
    requires Tiles(X + [r1], 0, a.Length) && AllSorted(a[..], X + [r1])
    modifies a
    ensures r1' == Run(0, a.Length - 1) && SortedRange(a[..], 0, a.Length)
    ensures k == |X| && Counted(k, comparisons, a.Length - 1)
    ensures multiset(a[..]) == multiset(old(a[..]))
  {
    var X' := X;
    r1' := r1;
    comparisons, k := 0, 0;
    while |X'| > 0
      invariant Tiles(X' + [r1'], 0, a.Length) && AllSorted(a[..], X' + [r1'])
      invariant |X'| + k == |X| && Counted(k, comparisons, a.Length - 1)
      invariant multiset(a[..]) == multiset(old(a[..]))
    {
      ghost var s1, X1, r1Old := a[..], X', r1';
      Plain.StackTop(a[..], X', r1');
      var r0 := X'[|X'| - 1];
      X' := X'[..|X'| - 1];
      var diff;
      r1', diff := CountingCommons.MergeAdjacent(a, r0, r1');
      Plain.AbsorbTop(s1, a[..], X1, r1Old, a.Length);
      CountedStep(k, comparisons, diff, a.Length - 1);
      comparisons, k := comparisons + diff, k + 1;
    }
    Plain.StackTop(a[..], [], r1');
    assert ([] + [r1'])[0] == r1';
  }
}
