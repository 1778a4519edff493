/**
  Timsort's run stack. Runs of at least MinRun elements (the last may be
  shorter) are pushed one at a time; after each push the top of the stack
  is collapsed by four size rules until none applies, and at the end the
  stack is merged down to one run, top first. Binary insertion sort, its
  search and the merge are those of Commons; the run scan here skips an
  equal prefix first.
 */
module Timsort {
  import opened Order
  import opened Runs
  import opened Scan
  import Commons

  const MinRun: int := 32

  /**
    The natural run from `start`, scanning the equal prefix first: ascend
    from its end, and when that makes no progress descend instead and
    reverse the run. Same end and same array as the ascend-first scan.
    At the end of the array it returns `start` and changes nothing (the
    reversal there is of an empty slice).
   */
  method FindNextNaturalRun(a: array<int>, start: int) returns (end: int)
    requires 0 <= start <= a.Length
    modifies a
    ensures start == a.Length ==> end == start && a[..] == old(a[..])
    ensures start < a.Length ==> end == NaturalRunEnd(old(a[..]), start) && a[..] == Normalized(old(a[..]), start)
    ensures start < a.Length ==> start <= end < a.Length && SortedRange(a[..], start, end + 1)
    ensures SameOutside(old(a[..]), a[..], start, end + 1)
    ensures multiset(a[..]) == multiset(old(a[..]))
  {
    if start == a.Length {
      end := start;
    } else {
      end := ScanFrom(a, start);
    }
  }

  /** FindNextNaturalRun before the end of the array: the three loops and the reversal. */
  method ScanFrom(a: array<int>, start: int) returns (end: int)
    requires 0 <= start < a.Length
    modifies a
    ensures end == NaturalRunEnd(old(a[..]), start) && a[..] == Normalized(old(a[..]), start)
    ensures start <= end < a.Length && SortedRange(a[..], start, end + 1)
    ensures SameOutside(old(a[..]), a[..], start, end + 1)
    ensures multiset(a[..]) == multiset(old(a[..]))
  {
    ghost var s := a[..];
    var tmp := EqualPrefix(a, start);
    EqualPrefixRule(s, start);
    end := Commons.Ascend(a, tmp);
    if end == tmp {
      assert IsDescending(s, start);
      end := Commons.Descend(a, start, tmp);
      Commons.ReverseInPlace(a, start, end + 1);
    }
    EqualPrefixDone(s, a[..], start, tmp, end);
  }

  /** The loop over the equal prefix: it stops at the end of the maximal stretch of elements equal to a[start]. */
  method EqualPrefix(a: array<int>, start: int) returns (end: int)
    requires 0 <= start < a.Length
    ensures end == EqEnd(a[..], start)
  {
    end := start;
    while end < a.Length - 1 && a[end] == a[end + 1]
      invariant start <= end < a.Length
      invariant EqEnd(a[..], end) == EqEnd(a[..], start)
    {
      end := end + 1;
    }
  }

  /** What the three scan loops have found, read against the natural-run specification. */
  lemma {:induction false} EqualPrefixDone(s: seq<int>, t: seq<int>, start: int, tmp: int, end: int)
    requires 0 <= start < |s| && tmp == EqEnd(s, start)
    requires tmp != AscEnd(s, start) ==> end == AscEnd(s, start) && t == s
    requires tmp == AscEnd(s, start) ==> end == DescEnd(s, start) && t == ReverseRange(s, start, end + 1)
    ensures end == NaturalRunEnd(s, start) && t == Normalized(s, start)
    ensures start <= end < |s| == |t| && SortedRange(t, start, end + 1)
    ensures SameOutside(s, t, start, end + 1)
    ensures multiset(t) == multiset(s)
  {
    EqualPrefixRule(s, start);
    NormalizedRun(s, t, start, end);
  }

  /**
    The run decomposition with the fixed minimum MinRun: natural runs
    shorter than MinRun are extended by binary insertion sort to MinRun
    elements or to the end of the array. The runs are those RunsFrom gives
    for the input; they tile [0, n), are sorted, and all but the last have
    at least MinRun elements.
   */
  method FindRuns(a: array<int>) returns (runs: seq<Run>)
    modifies a
    ensures runs == Commons.RunsFrom(old(a[..]), 0, Some(MinRun))
    ensures Tiles(runs, 0, a.Length)
    ensures AllSorted(a[..], runs)
    ensures multiset(a[..]) == multiset(old(a[..]))
    ensures forall k :: 0 <= k < |runs| - 1 ==> runs[k].Len() >= MinRun
  {
    ghost var s0 := a[..];
    runs := [];
    var i := 0;
    while i < a.Length
      invariant 0 <= i <= a.Length
      invariant Commons.Scanning(s0, a[..], runs, i, Some(MinRun))
      invariant multiset(a[..]) == multiset(s0)
      decreases a.Length - i
    {
      runs, i := PushNextRun(a, runs, i, s0);
    }
    Commons.ScanningDone(s0, a[..], runs, Some(MinRun));
  }

  /** One iteration of FindRuns: the run NextRun finds at i is pushed and the scan moves past it. */
  method PushNextRun(a: array<int>, runs: seq<Run>, i: int, ghost s0: seq<int>) returns (runs': seq<Run>, i': int)
    requires i < a.Length && Commons.Scanning(s0, a[..], runs, i, Some(MinRun))
    modifies a
    ensures i < i' <= a.Length
    ensures Commons.Scanning(s0, a[..], runs', i', Some(MinRun))
    ensures multiset(a[..]) == multiset(old(a[..]))
  {
    ghost var s := a[..];
    var j := NextRun(a, i);
    runs', i' := runs + [Run(i, j)], j + 1;
    Commons.ScanningPush(s0, s, a[..], runs, Run(i, j), Some(MinRun));
  }

  /**
    One step of FindRuns: the natural run from i, extended to MinRun
    elements (or to the end of the array) by binary insertion sort when it
    is shorter. Returns the last index of the run.
   */
  method NextRun(a: array<int>, i: int) returns (j: int)
    requires 0 <= i < a.Length
    modifies a
    ensures var e := NaturalRunEnd(old(a[..]), i);
      j == if e - i + 1 < MinRun then Commons.Min(i + MinRun - 1, a.Length - 1) else e
    ensures j == Commons.RunEnd(old(a[..]), i, Some(MinRun))
    ensures i <= j < a.Length && (j - i + 1 >= MinRun || j == a.Length - 1)
    ensures SortedRange(a[..], i, j + 1)
    ensures SameOutside(old(a[..]), a[..], i, j + 1)
    ensures multiset(a[..]) == multiset(old(a[..]))
  {
    j := FindNextNaturalRun(a, i);
    var runSize := j - i + 1;
    if runSize < MinRun {
      var endIndex := Commons.Min(i + MinRun - 1, a.Length - 1);
      ghost var s1 := a[..];
      Commons.BinaryInsertionSort(a, i, endIndex, j);
      SameOutsideTrans(old(a[..]), s1, a[..], i, endIndex + 1, i, endIndex + 1);
      j := endIndex;
    }
  }

  /**
    merge12: the top two runs r2, r1 are merged in place and replaced by
    Run(r2.start, r1.end). The stack still tiles [0, hi) with sorted runs,
    and nothing at or beyond hi changes.
   */
  method Merge12(a: array<int>, stack: seq<Run>, ghost hi: int) returns (stack': seq<Run>)
    requires Tiles(stack, 0, hi) && hi <= a.Length && |stack| >= 2 && AllSorted(a[..], stack)
    modifies a
    ensures stack' == MergeTop(stack)
    ensures Tiles(stack', 0, hi) && AllSorted(a[..], stack')
    ensures SameOutside(old(a[..]), a[..], 0, hi)
    ensures multiset(a[..]) == multiset(old(a[..]))
  {
    var r1, r2 := stack[|stack| - 1], stack[|stack| - 2];
    var _ := Commons.Merge(a, r2.start, r2.end, r1.end);
    MergeTopSorted(old(a[..]), a[..], stack, 0, hi);
    stack' := stack[..|stack| - 2] + [Run(r2.start, r1.end)];
  }

  /**
    merge23: the second and third runs r3, r2 are merged in place and
    replaced by Run(r3.start, r2.end), with the top run r1 pushed back
    unchanged.
   */
  method Merge23(a: array<int>, stack: seq<Run>, ghost hi: int) returns (stack': seq<Run>)
    requires Tiles(stack, 0, hi) && hi <= a.Length && |stack| >= 3 && AllSorted(a[..], stack)
    modifies a
    ensures stack' == MergeSecond(stack)
    ensures Tiles(stack', 0, hi) && AllSorted(a[..], stack')
    ensures SameOutside(old(a[..]), a[..], 0, hi)
    ensures multiset(a[..]) == multiset(old(a[..]))
  {
    var h := |stack|;
    var r1, r2, r3 := stack[h - 1], stack[h - 2], stack[h - 3];
    var _ := Commons.Merge(a, r3.start, r3.end, r2.end);
    MergeSecondSorted(old(a[..]), a[..], stack, 0, hi);
    stack' := stack[..h - 3] + [Run(r3.start, r2.end), r1];
  }

  /**
    The size conditions that hold when collapsing stops, with r1 the top
    run: r1 is shorter than r2 and than r3, r1 and r2 together are shorter
    than r3, and r2 and r3 together are shorter than r4, each where those
    runs exist.
   */
  predicate Balanced(stack: seq<Run>) {
    var h := |stack|;
    && (h >= 2 ==> stack[h - 1].Len() < stack[h - 2].Len())
    && (h >= 3 ==> stack[h - 1].Len() < stack[h - 3].Len())
    && (h >= 3 ==> stack[h - 1].Len() + stack[h - 2].Len() < stack[h - 3].Len())
    && (h >= 4 ==> stack[h - 2].Len() + stack[h - 3].Len() < stack[h - 4].Len())
  }

  /**
    One round of the four size rules on a stack where one of them applies:
    merge23 when r1 is at least as long as r3, and merge12 otherwise.
   */
  function CollapseOnce(stack: seq<Run>): (r: seq<Run>)
    requires !Balanced(stack)
    ensures |stack| >= 2 && |r| == |stack| - 1
  {
    var h := |stack|;
    if h >= 3 && stack[h - 1].Len() >= stack[h - 3].Len() then MergeSecond(stack) else MergeTop(stack)
  }

  /** The stack the merging on the fly leaves: the size rules repeated until none applies. */
  function Collapsed(stack: seq<Run>): (r: seq<Run>)
    ensures Balanced(r) && |r| <= |stack|
    ensures |stack| >= 1 ==> |r| >= 1
    decreases |stack|
  {
    if Balanced(stack) then stack else Collapsed(CollapseOnce(stack))
  }

  /**
    Sorts a in place: the result is sorted and a permutation of the input
    (the empty array included).
   */
  method Timsort(a: array<int>)
    modifies a
    ensures Sorted(a[..])
    ensures multiset(a[..]) == multiset(old(a[..]))
  {
    var runs := FindRuns(a);
    ghost var found := a[..];
    var stack: seq<Run> := [];
    ghost var hi := 0;
    for idx := 0 to |runs|
      invariant Tiles(stack, 0, hi) && AllSorted(a[..], stack) && Balanced(stack)
      invariant hi == if idx < |runs| then runs[idx].start else a.Length
      invariant SameOutside(found, a[..], 0, hi)
      invariant multiset(a[..]) == multiset(old(a[..]))
    {
      hi := PushRun(found, a[..], stack, runs, idx, hi);
      stack := stack + [runs[idx]];
      ghost var s := a[..];
      stack := Collapse(a, stack, hi);
      SameOutsideTrans(found, s, a[..], 0, hi, 0, hi);
    }
    stack := MergeAll(a, stack);
    if a.Length > 0 {
      SingleRunSorted(a[..], stack);
    }
  }

  /**
    The merging on the fly after a push: while one of the four size rules
    applies, merge23 or merge12 is performed, in the rules' priority
    order. Every merge shortens the stack by one, so this terminates, and
    on exit the stack is Balanced.
   */
  method Collapse(a: array<int>, stack: seq<Run>, ghost hi: int) returns (stack': seq<Run>)
    requires Tiles(stack, 0, hi) && hi <= a.Length && |stack| >= 1 && AllSorted(a[..], stack)
    modifies a
    ensures stack' == Collapsed(stack)
    ensures Tiles(stack', 0, hi) && 1 <= |stack'| <= |stack| && AllSorted(a[..], stack')
    ensures Balanced(stack')
    ensures SameOutside(old(a[..]), a[..], 0, hi)
    ensures multiset(a[..]) == multiset(old(a[..]))
  {
    stack' := stack;
    while true
      invariant Collapsed(stack') == Collapsed(stack)
      invariant Tiles(stack', 0, hi) && 1 <= |stack'| <= |stack| && AllSorted(a[..], stack')
      invariant SameOutside(old(a[..]), a[..], 0, hi)
      invariant multiset(a[..]) == multiset(old(a[..]))
      decreases |stack'|
    {
      ghost var s := a[..];
      var merged;
      stack', merged := CollapseStep(a, stack', hi);
      if !merged {
        break;
      }
      SameOutsideTrans(old(a[..]), s, a[..], 0, hi, 0, hi);
    }
  }

  /**
    One round of the merging on the fly: the first of the four size rules
    that applies picks merge23 or merge12; when none applies nothing
    changes and the stack is Balanced.
   */
  method CollapseStep(a: array<int>, stack: seq<Run>, ghost hi: int) returns (stack': seq<Run>, merged: bool)
    requires Tiles(stack, 0, hi) && hi <= a.Length && |stack| >= 1 && AllSorted(a[..], stack)
    modifies a
    ensures Tiles(stack', 0, hi) && AllSorted(a[..], stack')
    ensures merged <==> !Balanced(stack)
    ensures merged ==> stack' == CollapseOnce(stack) && |stack'| == |stack| - 1 >= 1
    ensures !merged ==> stack' == stack && a[..] == old(a[..])
    ensures SameOutside(old(a[..]), a[..], 0, hi)
    ensures multiset(a[..]) == multiset(old(a[..]))
  {
    var h := |stack|;
    var r1 := stack[h - 1];
    stack', merged := stack, true;
    if h >= 3 && r1.Len() >= stack[h - 3].Len() {
      stack' := Merge23(a, stack, hi);
    } else if h >= 2 && r1.Len() >= stack[h - 2].Len() {
      stack' := Merge12(a, stack, hi);
    } else if h >= 3 && r1.Len() + stack[h - 2].Len() >= stack[h - 3].Len() {
      stack' := Merge12(a, stack, hi);
    } else if h >= 4 && stack[h - 2].Len() + stack[h - 3].Len() >= stack[h - 4].Len() {
      stack' := Merge12(a, stack, hi);
    } else {
      merged := false;
    }
  }

  /**
    The final merges: merge12 until one run is left, which then covers the
    whole array (none for an empty one).
   */
  method MergeAll(a: array<int>, stack: seq<Run>) returns (stack': seq<Run>)
    requires Tiles(stack, 0, a.Length) && AllSorted(a[..], stack)
    modifies a
    ensures Tiles(stack', 0, a.Length) && AllSorted(a[..], stack') && |stack'| <= 1
    ensures a.Length > 0 ==> stack' == [Run(0, a.Length - 1)]
    ensures multiset(a[..]) == multiset(old(a[..]))
  {
    stack' := stack;
    while |stack'| > 1
      invariant Tiles(stack', 0, a.Length) && AllSorted(a[..], stack')
      invariant multiset(a[..]) == multiset(old(a[..]))
    {
      stack' := Merge12(a, stack', a.Length);
    }
  }

  /**
    Pushing the next detected run: it starts where the stack ends, it is
    still sorted because merging has not touched it, and the stack then
    ends where the following run begins.
   */
  lemma {:induction false} PushRun(found: seq<int>, s: seq<int>, stack: seq<Run>, runs: seq<Run>, idx: int, hi: int) returns (hi': int)
    requires Tiles(runs, 0, |found|) && AllSorted(found, runs) && 0 <= idx < |runs|
    requires Tiles(stack, 0, hi) && AllSorted(s, stack) && hi == runs[idx].start
    requires SameOutside(found, s, 0, hi)
    ensures hi' == runs[idx].end + 1 == if idx + 1 < |runs| then runs[idx + 1].start else |found|
    ensures Tiles(stack + [runs[idx]], 0, hi') && AllSorted(s, stack + [runs[idx]])
  {
    hi' := runs[idx].end + 1;
    SortedRangeFrame(found, s, 0, hi, runs[idx].start, hi');
    AllSortedPush(s, s, stack, runs[idx], 0);
  }
}
