/**
  The self-contained counting natural merge sort over half-open runs
  (start, stop): its own counted run scan, in which the test whether an
  ascent is flat is not counted, its own counted half-open merge, and the
  passes of NaturalMergeSort.
 */
module BenchmarkNaturalMergeSort {
  import opened Order
  import opened Runs
  import opened Scan
  import opened Arith
  import Commons
  import CountingCommons
  import Plain = NaturalMergeSort

  /**
    The counted scan from start: the run is the natural run from start,
    reversed when descending, and the count is that of the ascend-first
    scan without the flat test.
   */
  method NextNaturalRun(a: array<int>, start: int) returns (end: int, comparisons: int)
    requires 0 <= start < a.Length
    modifies a
    ensures end == NaturalRunEnd(old(a[..]), start)
    ensures a[..] == Normalized(old(a[..]), start)
    ensures comparisons == CountingCommons.ScanComparisons(old(a[..]), start) - 1
    ensures start <= end < a.Length
    ensures SortedRange(a[..], start, end + 1)
    ensures SameOutside(old(a[..]), a[..], start, end + 1)
    ensures multiset(a[..]) == multiset(old(a[..]))
  {
    ghost var s := a[..];
    var i;
    i, comparisons := CountingCommons.Ascend(a, start);
    if a[start] == a[i] {
      assert IsDescending(s, start);
      var descTests;
      i, descTests := CountingCommons.Descend(a, start, i);
      comparisons := comparisons + descTests;
      Commons.ReverseInPlace(a, start, i + 1);
    }
    end := i;
    NormalizedRun(s, a[..], start, end);
  }

  /**
    The run decomposition with its count: the half-open pairs of the
    natural runs of the input, left to right, which tile [0, n) and are
    sorted; every scan costs between its run's length minus one and its
    run's length plus one comparisons.
   */
  method FindRuns(a: array<int>) returns (runs: seq<(int, int)>, comparisons: int)
    modifies a
    ensures Plain.AsRuns(runs) == Commons.RunsFrom(old(a[..]), 0, None)
    ensures Tiles(Plain.AsRuns(runs), 0, a.Length) && AllSorted(a[..], Plain.AsRuns(runs))
    ensures a.Length - |runs| <= comparisons <= a.Length + |runs|
    ensures multiset(a[..]) == multiset(old(a[..]))
  {
    ghost var s0 := a[..];
    runs := [];
    comparisons := 0;
    var i := 0;
    while i < a.Length
      invariant 0 <= i <= a.Length
      invariant Commons.Scanning(s0, a[..], Plain.AsRuns(runs), i, None)
      invariant i - |runs| <= comparisons <= i + |runs|
      invariant multiset(a[..]) == multiset(old(a[..]))
      decreases a.Length - i
    {
      runs, i, comparisons := PushScan(a, runs, i, s0, comparisons);
    }
    Commons.ScanningDone(s0, a[..], Plain.AsRuns(runs), None);
  }

  /** One iteration of FindRuns: the pair of the run the original array s0 has at i is appended and counted. */
  method PushScan(a: array<int>, runs: seq<(int, int)>, i: int, ghost s0: seq<int>, c: int)
    returns (runs': seq<(int, int)>, i': int, c': int)
    requires i < a.Length && Commons.Scanning(s0, a[..], Plain.AsRuns(runs), i, None)
    requires i - |runs| <= c <= i + |runs|
    modifies a
    ensures i < i' <= a.Length && runs' == runs + [(i, i')]
    ensures Commons.Scanning(s0, a[..], Plain.AsRuns(runs'), i', None)
    ensures i' - |runs'| <= c' <= i' + |runs'|
    ensures multiset(a[..]) == multiset(old(a[..]))
  {
    ghost var s := a[..];
    var diff;
    i', diff := ScanRun(a, i);
    runs', c' := runs + [(i, i')], c + diff;
    Plain.ScanningPushPair(s0, s, a[..], runs, i, i');
  }

  /**
    The counted scan as a half-open pair: the natural run [start, stop) is
    sorted in place at a cost of between its length minus one and its
    length plus one.
   */
  method ScanRun(a: array<int>, start: int) returns (stop: int, comparisons: int)
    requires 0 <= start < a.Length
    modifies a
    ensures start < stop <= a.Length && stop - 1 == Commons.RunEnd(old(a[..]), start, None)
    ensures SameOutside(old(a[..]), a[..], start, stop) && SortedRange(a[..], start, stop)
    ensures stop - start - 1 <= comparisons <= stop - start + 1
    ensures multiset(a[..]) == multiset(old(a[..]))
  {
    CountingCommons.ScanComparisonsBounds(a[..], start);
    var end;
    end, comparisons := NextNaturalRun(a, start);
    stop := end + 1;
  }

  /**
    The counted merge of the half-open runs [l, m) and [m, r): [l, r)
    becomes their stable merge, at the cost of one comparison per element
    placed while both runs last; with both runs non-empty that is at least
    one and fewer than r - l.
   */
  method Merge(a: array<int>, l: int, m: int, r: int) returns (comparisons: int)
    requires 0 <= l <= m <= r <= a.Length
    modifies a
    ensures a[l..r] == StableMerge(old(a[l..m]), old(a[m..r]))
    ensures comparisons == MergeComparisons(old(a[l..m]), old(a[m..r]))
    ensures l < m < r ==> 1 <= comparisons <= r - l - 1
    ensures SameOutside(old(a[..]), a[..], l, r)
    ensures multiset(a[..]) == multiset(old(a[..]))
    ensures SortedRange(old(a[..]), l, m) && SortedRange(old(a[..]), m, r) ==> SortedRange(a[..], l, r)
  {
    var _, c := CountingCommons.Merge(a, l, m - 1, r - 1);
    comparisons := c;
  }

  /**
    One counted pass: as NaturalMergeSort.MergePass, where each merge of
    two non-empty runs costs at least one comparison and fewer than the
    merged length, so the pass costs between |runs| / 2 and n - |runs| / 2.
   */
  method MergePass(a: array<int>, runs: seq<(int, int)>) returns (newRuns: seq<(int, int)>, comparisons: int)
    requires Tiles(Plain.AsRuns(runs), 0, a.Length) && AllSorted(a[..], Plain.AsRuns(runs))
    modifies a
    ensures newRuns == Plain.PairUp(runs)
    ensures Tiles(Plain.AsRuns(newRuns), 0, a.Length) && AllSorted(a[..], Plain.AsRuns(newRuns))
    ensures |runs| / 2 <= comparisons <= a.Length - |runs| / 2
    ensures multiset(a[..]) == multiset(old(a[..]))
  {
    ghost var start := a[..];
    Plain.PassStart(start, runs);
    newRuns := [];
    comparisons := 0;
    var i := 0;
    ghost var pairs := 0;
    while i < |runs| - 1
      invariant 0 <= i <= |runs| && i == 2 * pairs
      invariant Plain.PassSoFar(start, a[..], runs, newRuns, i)
      invariant pairs <= comparisons && comparisons + pairs <= Plain.Boundary(runs, i, a.Length)
      invariant multiset(a[..]) == multiset(old(a[..]))
    {
      var diff;
      newRuns, diff := MergeNext(a, start, runs, newRuns, i, pairs);
      comparisons := comparisons + diff;
      i, pairs := i + 2, pairs + 1;
    }
    PassDone(start, a[..], runs, newRuns, i, pairs, comparisons);
    if i == |runs| - 1 {
      newRuns := newRuns + [runs[i]];
    }
  }

  /**
    The end of a counted pass: with an odd last run carried over, the new
    runs are PairUp of the old ones, tile the array and are sorted, and the
    count lies between |runs| / 2 and n - |runs| / 2.
   */
  lemma {:induction false} PassDone(start: seq<int>, s: seq<int>, runs: seq<(int, int)>, newRuns: seq<(int, int)>, i: int, pairs: nat, c: int)
    requires Plain.PassSoFar(start, s, runs, newRuns, i) && i == 2 * pairs && |runs| - 1 <= i
    requires pairs <= c && c + pairs <= Plain.Boundary(runs, i, |s|)
    ensures var done := if i == |runs| - 1 then newRuns + [runs[i]] else newRuns;
      && done == Plain.PairUp(runs)
      && Tiles(Plain.AsRuns(done), 0, |s|) && AllSorted(s, Plain.AsRuns(done))
      && |runs| / 2 <= c <= |s| - |runs| / 2
  {
    if i == |runs| - 1 {
      Plain.PassLast(start, s, runs, newRuns, i, pairs);
      LastBoundary(runs, i, |s|);
    } else {
      assert runs[..i] == runs;
    }
    Plain.PassCost(|runs|, pairs, c, Plain.Boundary(runs, i, |s|), |s|);
  }

  /**
    Merges runs i and i + 1 of the pass and appends the merged run; the
    cost is at least 1 and less than the merged length.
   */
  method MergeNext(a: array<int>, ghost start: seq<int>, runs: seq<(int, int)>, newRuns: seq<(int, int)>, i: int, ghost pairs: nat)
    returns (newRuns': seq<(int, int)>, comparisons: int)
    requires Plain.PassSoFar(start, a[..], runs, newRuns, i) && i + 1 < |runs| && i == 2 * pairs
    modifies a
    ensures newRuns' == newRuns + [(runs[i].0, runs[i + 1].1)]
    ensures Plain.PassSoFar(start, a[..], runs, newRuns', i + 2)
    ensures 1 <= comparisons
    ensures comparisons + 1 + Plain.Boundary(runs, i, a.Length) <= Plain.Boundary(runs, i + 2, a.Length)
    ensures multiset(a[..]) == multiset(old(a[..]))
  {
    var (l, m) := runs[i];
    var (_, r) := runs[i + 1];
    ghost var s := a[..];
    Plain.PassOperands(start, s, runs, newRuns, i);
    NonEmptyPair(runs, i, |start|);
    NonEmptyPair(runs, i + 1, |start|);
    comparisons := Merge(a, l, m, r);
    Plain.PassStep(start, s, a[..], runs, newRuns, i, pairs);
    Plain.NextBoundary(runs, i, |start|);
    newRuns' := newRuns + [(l, r)];
  }

  /** Every pair of a tiling covers at least one index. */
  lemma {:induction false} NonEmptyPair(runs: seq<(int, int)>, k: int, n: int)
    requires Tiles(Plain.AsRuns(runs), 0, n) && 0 <= k < |runs|
    ensures runs[k].0 < runs[k].1
  {
    Plain.AsRunsAt(runs, k);
  }

  /** The last pair of a tiling starts inside the array. */
  lemma {:induction false} LastBoundary(runs: seq<(int, int)>, k: int, n: int)
    requires Tiles(Plain.AsRuns(runs), 0, n) && 0 <= k < |runs|
    ensures Plain.Boundary(runs, k, n) <= n
  {
    Plain.AsRunsAt(runs, k);
  }

  /**
    Sorts a in place and returns the number of comparisons: an array of at
    most one element is left as it is at no cost. Otherwise the input's run
    decomposition into `runs` runs costs `scanned`, between n - runs and
    n + runs, and the Halvings(runs) passes cost at least one comparison per
    merge (runs - 1 merges in all) and at most n - 1 each.
   */
  method NaturalMergeSort(a: array<int>) returns (comparisons: int, ghost runs: nat, ghost scanned: int)
    modifies a
    ensures Sorted(a[..])
    ensures multiset(a[..]) == multiset(old(a[..]))
    ensures a.Length <= 1 ==> comparisons == 0 && a[..] == old(a[..])
    ensures a.Length > 1 ==> runs == |Commons.RunsFrom(old(a[..]), 0, None)|
    ensures a.Length > 1 ==> 1 <= runs <= a.Length && a.Length - runs <= scanned <= a.Length + runs
    ensures a.Length > 1 ==> runs - 1 <= comparisons - scanned <= Halvings(runs) * (a.Length - 1)
  {
    if a.Length <= 1 {
      runs, scanned := 0, 0;
      return 0, runs, scanned;
    }
    var cur;
    cur, comparisons := FindRuns(a);
    runs, scanned := |cur|, comparisons;
    RunCount(Plain.AsRuns(cur), a.Length);
    ghost var passes: nat, merged := 0, 0;
    while |cur| > 1
      invariant Tiles(Plain.AsRuns(cur), 0, a.Length) && AllSorted(a[..], Plain.AsRuns(cur))
      invariant multiset(a[..]) == multiset(old(a[..]))
      invariant 1 <= |cur| && passes + Halvings(|cur|) == Halvings(runs)
      invariant comparisons == scanned + merged
      invariant runs - |cur| <= merged <= Budget(passes, a.Length - 1)
      decreases |cur|
    {
      var diff;
      cur, diff := MergePass(a, cur);
      assert Budget(passes + 1, a.Length - 1) == Budget(passes, a.Length - 1) + (a.Length - 1);
      comparisons := comparisons + diff;
      passes, merged := passes + 1, merged + diff;
    }
    assert passes == Halvings(runs);
    BudgetIsProduct(passes, a.Length - 1);
    assert merged <= Halvings(runs) * (a.Length - 1);
    SingleRunSorted(a[..], Plain.AsRuns(cur));
  }
}
