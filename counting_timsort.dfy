/**
  The comparison-counting Timsort: the run stack of Timsort, with runs found
  by CountingCommons.FindRuns under the minimum MinRun and merged by the
  counting merge. Every merge joins two non-empty runs, so it costs at least
  one and at most n - 1 comparisons, and a run decomposition of k runs is
  merged by exactly k - 1 merges.
 */
module CountingTimsort {
  import opened Order
  import opened Runs
  import Plain = Timsort
  import Commons
  import CountingCommons
  import opened Arith

  /**
    Sorts a in place and returns the number of comparisons: those of the run
    decomposition (`scanned`, over the `runs` that the scan of the input
    finds) plus those of the |runs| - 1 merges. The scan costs at least one
    comparison per element and at most MinRun per element plus two per run.
   */
  method Timsort(a: array<int>) returns (comparisons: int, ghost runs: seq<Run>, ghost scanned: int)
    modifies a
    ensures Sorted(a[..])
    ensures multiset(a[..]) == multiset(old(a[..]))
    ensures runs == Commons.RunsFrom(old(a[..]), 0, Some(Plain.MinRun))
    ensures Tiles(runs, 0, a.Length) && forall k :: 0 <= k < |runs| - 1 ==> runs[k].Len() >= Plain.MinRun
    ensures scanned >= |runs|
    ensures a.Length <= scanned <= Plain.MinRun * a.Length + 2 * |runs|
    ensures |runs| <= 1 ==> comparisons == scanned
    ensures |runs| >= 1 ==> |runs| - 1 <= comparisons - scanned <= (|runs| - 1) * (a.Length - 1)
  {
    var found, scanCount := CountingCommons.FindRuns(a, Some(Plain.MinRun));
    assert CountingCommons.CostFactor(Some(Plain.MinRun)) == Plain.MinRun;
    var merged := MergeRuns(a, found);
    comparisons := scanCount + merged;
    runs, scanned := found, scanCount;
  }

  /**
    The stack phase after the run decomposition: each run is pushed and the
    stack collapsed by the four size rules, then the stack is merged down to
    one run. Returns the comparisons of all merges.
   */
  method MergeRuns(a: array<int>, runs: seq<Run>) returns (comparisons: int)
    requires Tiles(runs, 0, a.Length) && AllSorted(a[..], runs)
    modifies a
    ensures Sorted(a[..])
    ensures multiset(a[..]) == multiset(old(a[..]))
    ensures |runs| <= 1 ==> comparisons == 0
    ensures |runs| >= 1 ==> |runs| - 1 <= comparisons <= (|runs| - 1) * (a.Length - 1)
  {
    var stack, pushed, m1 := PushAll(a, runs);
    var stack', drained, m2 := MergeAll(a, stack);
    BudgetAdd(m1, m2, a.Length - 1);
    BudgetIsProduct(m1 + m2, a.Length - 1);
    comparisons := pushed + drained;
    if a.Length > 0 {
      SingleRunSorted(a[..], stack');
    }
  }

  /**
    The for loop over the runs: each is pushed and the stack collapsed.
    Every merge so far has cost between 1 and n - 1 comparisons, and the
    stack, still tiling the array, holds |runs| - merges runs.
   */
  method PushAll(a: array<int>, runs: seq<Run>) returns (stack: seq<Run>, comparisons: int, ghost merges: nat)
    requires Tiles(runs, 0, a.Length) && AllSorted(a[..], runs)
    modifies a
    ensures Tiles(stack, 0, a.Length) && AllSorted(a[..], stack) && Plain.Balanced(stack)
    ensures merges + |stack| == |runs| && Counted(merges, comparisons, a.Length - 1)
    ensures multiset(a[..]) == multiset(old(a[..]))
  {
    ghost var found := a[..];
    stack := [];
    ghost var hi := 0;
    merges := 0;
    comparisons := 0;
    for idx := 0 to |runs|
      invariant PushState(found, a[..], stack, runs, idx, hi)
      invariant multiset(a[..]) == multiset(old(a[..]))
      invariant merges + |stack| == idx && Counted(merges, comparisons, a.Length - 1)
    {
      var diff; ghost var k;
      stack, diff, k, hi := PushRun(a, found, stack, runs, idx, hi);
      CountedAdd(merges, comparisons, k, diff, a.Length - 1);
      merges := merges + k;
      comparisons := comparisons + diff;
    }
  }

  /**
    Where the for loop stands before run idx is pushed: the stack tiles
    [0, hi), hi being where run idx starts, its runs are sorted and
    Balanced, and nothing from hi on has changed since the runs were found.
   */
  predicate PushState(found: seq<int>, s: seq<int>, stack: seq<Run>, runs: seq<Run>, idx: int, hi: int) {
    && Tiles(runs, 0, |found|) && AllSorted(found, runs) && 0 <= idx <= |runs|
    && Tiles(stack, 0, hi) && AllSorted(s, stack) && Plain.Balanced(stack)
    && hi == (if idx < |runs| then runs[idx].start else |found|)
    && SameOutside(found, s, 0, hi)
  }

  /** One iteration of the for loop: push run idx, then collapse, costing k merges. */
  method PushRun(a: array<int>, ghost found: seq<int>, stack: seq<Run>, runs: seq<Run>, idx: int, ghost hi: int)
    returns (stack': seq<Run>, comparisons: int, ghost k: nat, ghost hi': int)
    requires PushState(found, a[..], stack, runs, idx, hi) && idx < |runs|
    modifies a
    ensures PushState(found, a[..], stack', runs, idx + 1, hi')
    ensures |stack'| + k == |stack| + 1 && Counted(k, comparisons, a.Length - 1)
    ensures multiset(a[..]) == multiset(old(a[..]))
  {
    hi' := Plain.PushRun(found, a[..], stack, runs, idx, hi);
    ghost var s := a[..];
    stack', comparisons, k := Collapse(a, stack + [runs[idx]], hi');
    SameOutsideTrans(found, s, a[..], 0, hi', 0, hi');
  }

  /**
    merge12 with its count: the top two runs r2, r1 are merged, which costs
    at least one comparison and fewer than their combined length.
   */
  method Merge12(a: array<int>, stack: seq<Run>, ghost hi: int) returns (stack': seq<Run>, comparisons: int)
    requires Tiles(stack, 0, hi) && hi <= a.Length && |stack| >= 2 && AllSorted(a[..], stack)
    modifies a
    ensures stack' == MergeTop(stack)
    ensures Tiles(stack', 0, hi) && AllSorted(a[..], stack')
    ensures 1 <= comparisons <= stack[|stack| - 1].end - stack[|stack| - 2].start < hi
    ensures SameOutside(old(a[..]), a[..], 0, hi)
    ensures multiset(a[..]) == multiset(old(a[..]))
  {
    var r1, r2 := stack[|stack| - 1], stack[|stack| - 2];
    var r;
    r, comparisons := CountingCommons.MergeAdjacent(a, r2, r1);
    MergeTopSorted(old(a[..]), a[..], stack, 0, hi);
    stack' := stack[..|stack| - 2] + [r];
  }

  /**
    merge23 with its count: r3 and r2 are merged, at least one and fewer
    than their combined length comparisons, and r1 is pushed back.
   */
  method Merge23(a: array<int>, stack: seq<Run>, ghost hi: int) returns (stack': seq<Run>, comparisons: int)
    requires Tiles(stack, 0, hi) && hi <= a.Length && |stack| >= 3 && AllSorted(a[..], stack)
    modifies a
    ensures stack' == MergeSecond(stack)
    ensures Tiles(stack', 0, hi) && AllSorted(a[..], stack')
    ensures 1 <= comparisons <= stack[|stack| - 2].end - stack[|stack| - 3].start < hi
    ensures SameOutside(old(a[..]), a[..], 0, hi)
    ensures multiset(a[..]) == multiset(old(a[..]))
  {
    var h := |stack|;
    var r1, r2, r3 := stack[h - 1], stack[h - 2], stack[h - 3];
    var r;
    r, comparisons := CountingCommons.MergeAdjacent(a, r3, r2);
    MergeSecondSorted(old(a[..]), a[..], stack, 0, hi);
    stack' := stack[..h - 3] + [r, r1];
  }

  /**
    Timsort.Collapse with its count: the number of merges is how much the
    stack shrank, and each costs between 1 and n - 1 comparisons.
   */
  method Collapse(a: array<int>, stack: seq<Run>, ghost hi: int) returns (stack': seq<Run>, comparisons: int, ghost merges: nat)
    requires Tiles(stack, 0, hi) && hi <= a.Length && |stack| >= 1 && AllSorted(a[..], stack)
    modifies a
    ensures stack' == Plain.Collapsed(stack)
    ensures Tiles(stack', 0, hi) && 1 <= |stack'| <= |stack| && AllSorted(a[..], stack')
    ensures Plain.Balanced(stack')
    ensures merges == |stack| - |stack'| && merges <= comparisons <= Budget(merges, a.Length - 1)
    ensures SameOutside(old(a[..]), a[..], 0, hi)
    ensures multiset(a[..]) == multiset(old(a[..]))
  {
    stack' := stack;
    comparisons := 0;
    merges := 0;
    while true
      invariant Plain.Collapsed(stack') == Plain.Collapsed(stack)
      invariant Tiles(stack', 0, hi) && 1 <= |stack'| <= |stack| && AllSorted(a[..], stack')
      invariant merges == |stack| - |stack'| && merges <= comparisons <= Budget(merges, a.Length - 1)
      invariant SameOutside(old(a[..]), a[..], 0, hi)
      invariant multiset(a[..]) == multiset(old(a[..]))
      decreases |stack'|
    {
      ghost var s := a[..];
      var diff, merged;
      stack', diff, merged := CollapseStep(a, stack', hi);
      if !merged {
        break;
      }
      comparisons := comparisons + diff;
      merges := merges + 1;
      SameOutsideTrans(old(a[..]), s, a[..], 0, hi, 0, hi);
    }
  }

  /**
    One round of the merging on the fly: the first of the four size rules
    that applies picks merge23 or merge12; when none applies nothing
    changes and the stack is Balanced.
   */
  method CollapseStep(a: array<int>, stack: seq<Run>, ghost hi: int) returns (stack': seq<Run>, comparisons: int, merged: bool)
    requires Tiles(stack, 0, hi) && hi <= a.Length && |stack| >= 1 && AllSorted(a[..], stack)
    modifies a
    ensures Tiles(stack', 0, hi) && AllSorted(a[..], stack')
    ensures merged <==> !Plain.Balanced(stack)
    ensures merged ==> stack' == Plain.CollapseOnce(stack) && |stack'| == |stack| - 1 >= 1 && 1 <= comparisons <= a.Length - 1
    ensures !merged ==> stack' == stack && a[..] == old(a[..])
    ensures SameOutside(old(a[..]), a[..], 0, hi)
    ensures multiset(a[..]) == multiset(old(a[..]))
  {
    var h := |stack|;
    var r1 := stack[h - 1];
    stack', comparisons, merged := stack, 0, true;
    if h >= 3 && r1.Len() >= stack[h - 3].Len() {
      stack', comparisons := Merge23(a, stack, hi);
    } else if h >= 2 && r1.Len() >= stack[h - 2].Len() {
      stack', comparisons := Merge12(a, stack, hi);
    } else if h >= 3 && r1.Len() + stack[h - 2].Len() >= stack[h - 3].Len() {
      stack', comparisons := Merge12(a, stack, hi);
    } else if h >= 4 && stack[h - 2].Len() + stack[h - 3].Len() >= stack[h - 4].Len() {
      stack', comparisons := Merge12(a, stack, hi);
    } else {
      merged := false;
    }
  }

  /** Timsort.MergeAll with its count: one merge per run beyond the first. */
  method MergeAll(a: array<int>, stack: seq<Run>) returns (stack': seq<Run>, comparisons: int, ghost merges: nat)
    requires Tiles(stack, 0, a.Length) && AllSorted(a[..], stack)
    modifies a
    ensures Tiles(stack', 0, a.Length) && AllSorted(a[..], stack') && |stack'| <= 1
    ensures a.Length > 0 ==> stack' == [Run(0, a.Length - 1)]
    ensures merges == |stack| - |stack'| && merges <= comparisons <= Budget(merges, a.Length - 1)
    ensures multiset(a[..]) == multiset(old(a[..]))
  {
    stack' := stack;
    comparisons, merges := 0, 0;
    while |stack'| > 1
      invariant Tiles(stack', 0, a.Length) && AllSorted(a[..], stack') && |stack'| <= |stack|
      invariant merges == |stack| - |stack'| && merges <= comparisons <= Budget(merges, a.Length - 1)
      invariant multiset(a[..]) == multiset(old(a[..]))
    {
      var diff;
      stack', diff := Merge12(a, stack', a.Length);
      comparisons, merges := comparisons + diff, merges + 1;
    }
  }
}
