/**
  Natural merge sort over half-open runs (start, stop): the array is cut
  into its natural runs, and passes over the run list merge neighbours
  pairwise, left to right, until one run is left.
 */
module NaturalMergeSort {
  import opened Order
  import opened Runs
  import opened Scan
  import Commons

  /** The half-open runs as inclusive runs: (start, stop) covers start .. stop - 1. */
  function AsRuns(runs: seq<(int, int)>): (r: seq<Run>)
    ensures |r| == |runs|
  {
    if runs == [] then [] else AsRuns(runs[..|runs| - 1]) + [Run(runs[|runs| - 1].0, runs[|runs| - 1].1 - 1)]
  }

  /** Appending a pair appends its inclusive run. */
  lemma {:induction false} AsRunsPush(runs: seq<(int, int)>, p: (int, int))
    ensures AsRuns(runs + [p]) == AsRuns(runs) + [Run(p.0, p.1 - 1)]
  {
    assert (runs + [p])[..|runs|] == runs;
  }

  /** Run k of the inclusive view is pair k. */
  lemma {:induction false} AsRunsAt(runs: seq<(int, int)>, k: int)
    requires 0 <= k < |runs|
    ensures AsRuns(runs)[k] == Run(runs[k].0, runs[k].1 - 1)
    decreases |runs|
  {
    if k < |runs| - 1 {
      AsRunsAt(runs[..|runs| - 1], k);
    }
  }

  /**
    One pass over the run list: runs 2k and 2k + 1 become one run from the
    start of the first to the stop of the second, and an odd last run is
    kept. k runs become ceil(k / 2).
   */
  function PairUp(runs: seq<(int, int)>): (r: seq<(int, int)>)
    ensures |r| == (|runs| + 1) / 2
  {
    if |runs| <= 1 then runs else [(runs[0].0, runs[1].1)] + PairUp(runs[2..])
  }

  /** A pass over an even-length prefix does not depend on what follows it. */
  lemma {:induction false} PairUpConcat(xs: seq<(int, int)>, ys: seq<(int, int)>, pairs: nat)
    requires |xs| == 2 * pairs
    ensures PairUp(xs + ys) == PairUp(xs) + PairUp(ys)
    decreases |xs|
  {
    if xs == [] {
      assert xs + ys == ys;
    } else {
      assert (xs + ys)[2..] == xs[2..] + ys;
      PairUpConcat(xs[2..], ys, pairs - 1);
    }
  }

  /**
    The run decomposition: the natural runs from left to right, each found
    by the ascend-first scan (descending ones reversed), as half-open
    pairs that tile [0, n) and are sorted.
   */
  method FindRuns(a: array<int>) returns (runs: seq<(int, int)>)
    modifies a
    ensures AsRuns(runs) == Commons.RunsFrom(old(a[..]), 0, None)
    ensures Tiles(AsRuns(runs), 0, a.Length) && AllSorted(a[..], AsRuns(runs))
    ensures multiset(a[..]) == multiset(old(a[..]))
  {
    ghost var s0 := a[..];
    runs := [];
    var i := 0;
    while i < a.Length
      invariant 0 <= i <= a.Length
      invariant Commons.Scanning(s0, a[..], AsRuns(runs), i, None)
      invariant multiset(a[..]) == multiset(old(a[..]))
      decreases a.Length - i
    {
      runs, i := PushScan(a, runs, i, s0);
    }
    Commons.ScanningDone(s0, a[..], AsRuns(runs), None);
  }

  /** One iteration of FindRuns: the pair of the run the original array s0 has at i is appended. */
  method PushScan(a: array<int>, runs: seq<(int, int)>, i: int, ghost s0: seq<int>) returns (runs': seq<(int, int)>, i': int)
    requires i < a.Length && Commons.Scanning(s0, a[..], AsRuns(runs), i, None)
    modifies a
    ensures i < i' <= a.Length && runs' == runs + [(i, i')]
    ensures Commons.Scanning(s0, a[..], AsRuns(runs'), i', None)
    ensures multiset(a[..]) == multiset(old(a[..]))
  {
    ghost var s := a[..];
    i' := ScanPair(a, i);
    runs' := runs + [(i, i')];
    ScanningPushPair(s0, s, a[..], runs, i, i');
  }

  /** The pair of the run RunEnd gives at start, once sorted in place, extends the scan's state. */
  lemma {:induction false} ScanningPushPair(s0: seq<int>, s: seq<int>, t: seq<int>, runs: seq<(int, int)>, start: int, stop: int)
    requires Commons.Scanning(s0, s, AsRuns(runs), start, None) && start < |s|
    requires stop - 1 == Commons.RunEnd(s, start, None)
    requires SameOutside(s, t, start, stop) && SortedRange(t, start, stop)
    ensures Commons.Scanning(s0, t, AsRuns(runs + [(start, stop)]), stop, None)
  {
    AsRunsPush(runs, (start, stop));
    Commons.ScanningPush(s0, s, t, AsRuns(runs), Run(start, stop - 1), None);
  }

  /**
    One iteration of FindRuns: the natural run from start, reversed when
    descending, as the half-open pair bound stop.
   */
  method ScanPair(a: array<int>, start: int) returns (stop: int)
    requires 0 <= start < a.Length
    modifies a
    ensures start < stop <= a.Length && stop - 1 == Commons.RunEnd(old(a[..]), start, None)
    ensures SameOutside(old(a[..]), a[..], start, stop) && SortedRange(a[..], start, stop)
    ensures multiset(a[..]) == multiset(old(a[..]))
  {
    var end := Commons.FindNextNaturalRun(a, start);
    stop := end + 1;
  }

  /** A sorted pair [start, stop) written next to a tiling of [0, start) extends it. */
  lemma {:induction false} PushPair(s: seq<int>, t: seq<int>, runs: seq<(int, int)>, start: int, stop: int)
    requires Tiles(AsRuns(runs), 0, start) && AllSorted(s, AsRuns(runs)) && start < stop
    requires SameOutside(s, t, start, stop) && SortedRange(t, start, stop)
    ensures Tiles(AsRuns(runs + [(start, stop)]), 0, stop)
    ensures AllSorted(t, AsRuns(runs + [(start, stop)]))
  {
    AllSortedPush(s, t, AsRuns(runs), Run(start, stop - 1), 0);
    AsRunsPush(runs, (start, stop));
  }

  /**
    Merges the adjacent half-open runs [l, m) and [m, r) in place, with the
    loops of Commons.Merge: [l, r) becomes their stable merge, sorted when
    both were, a permutation, and nothing else changes.
   */
  method Merge(a: array<int>, l: int, m: int, r: int)
    requires 0 <= l <= m <= r <= a.Length
    modifies a
    ensures a[l..r] == StableMerge(old(a[l..m]), old(a[m..r]))
    ensures SameOutside(old(a[..]), a[..], l, r)
    ensures multiset(a[..]) == multiset(old(a[..]))
    ensures SortedRange(old(a[..]), l, m) && SortedRange(old(a[..]), m, r) ==> SortedRange(a[..], l, r)
  {
    var _ := Commons.Merge(a, l, m - 1, r - 1);
  }

  /**
    One pass: pairs of neighbouring runs are merged in place, left to
    right; the new run list is PairUp(runs), still tiling [0, n) with
    sorted runs.
   */
  method MergePass(a: array<int>, runs: seq<(int, int)>) returns (newRuns: seq<(int, int)>)
    requires Tiles(AsRuns(runs), 0, a.Length) && AllSorted(a[..], AsRuns(runs))
    modifies a
    ensures newRuns == PairUp(runs)
    ensures Tiles(AsRuns(newRuns), 0, a.Length) && AllSorted(a[..], AsRuns(newRuns))
    ensures multiset(a[..]) == multiset(old(a[..]))
  {
    ghost var start := a[..];
    PassStart(start, runs);
    newRuns := [];
    var i := 0;
    ghost var pairs := 0;
    while i < |runs| - 1
      invariant 0 <= i <= |runs| && i == 2 * pairs
      invariant PassSoFar(start, a[..], runs, newRuns, i)
      invariant multiset(a[..]) == multiset(old(a[..]))
    {
      var (l, m) := runs[i];
      var (_, r) := runs[i + 1];
      ghost var s := a[..];
      PassOperands(start, s, runs, newRuns, i);
      Merge(a, l, m, r);
      PassStep(start, s, a[..], runs, newRuns, i, pairs);
      newRuns := newRuns + [(l, r)];
      i, pairs := i + 2, pairs + 1;
    }
    if i == |runs| - 1 {
      PassLast(start, a[..], runs, newRuns, i, pairs);
      newRuns := newRuns + [runs[|runs| - 1]];
    } else {
      assert runs[..i] == runs;
    }
  }

  /**
    The count of a pass of k runs that made `pairs` merges, each costing at
    least one and the total staying `pairs` below the boundary b <= n: it
    lies between k / 2 and n - k / 2.
   */
  lemma PassCost(k: int, pairs: int, c: int, b: int, n: int)
    requires k == 2 * pairs || k == 2 * pairs + 1
    requires pairs <= c && c + pairs <= b <= n
    ensures k / 2 <= c <= n - k / 2
  {
    assert k / 2 == pairs;
  }

  /** Where the boundary between the merged and the pending runs lies. */
  function Boundary(runs: seq<(int, int)>, i: int, n: int): int {
    if 0 <= i < |runs| then runs[i].0 else n
  }

  /**
    Halfway through a pass: the runs merged so far are PairUp of the first
    i runs, tile [0, b) and are sorted, where b is where run i starts, and
    nothing from b on has changed since the pass began.
   */
  predicate PassSoFar(start: seq<int>, s: seq<int>, runs: seq<(int, int)>, newRuns: seq<(int, int)>, i: int) {
    && 0 <= i <= |runs|
    && Tiles(AsRuns(runs), 0, |start|) && AllSorted(start, AsRuns(runs))
    && newRuns == PairUp(runs[..i])
    && Tiles(AsRuns(newRuns), 0, Boundary(runs, i, |start|))
    && AllSorted(s, AsRuns(newRuns))
    && SameOutside(start, s, 0, Boundary(runs, i, |start|))
  }

  /** Before the first merge nothing is done yet. */
  lemma {:induction false} PassStart(start: seq<int>, runs: seq<(int, int)>)
    requires Tiles(AsRuns(runs), 0, |start|) && AllSorted(start, AsRuns(runs))
    ensures PassSoFar(start, start, runs, [], 0)
  {
    assert runs[..0] == [];
    if runs != [] {
      AsRunsAt(runs, 0);
    }
  }

  /** Runs i and i + 1 are adjacent and still sorted when their turn comes. */
  lemma {:induction false} PassOperands(start: seq<int>, s: seq<int>, runs: seq<(int, int)>, newRuns: seq<(int, int)>, i: int)
    requires PassSoFar(start, s, runs, newRuns, i) && i + 1 < |runs|
    ensures 0 <= runs[i].0 <= runs[i].1 == runs[i + 1].0 <= runs[i + 1].1 <= |s|
    ensures SortedRange(s, runs[i].0, runs[i].1) && SortedRange(s, runs[i + 1].0, runs[i + 1].1)
  {
    var rs := AsRuns(runs);
    AsRunsAt(runs, i);
    AsRunsAt(runs, i + 1);
    SortedRangeFrame(start, s, 0, runs[i].0, rs[i].start, rs[i].end + 1);
    SortedRangeFrame(start, s, 0, runs[i].0, rs[i + 1].start, rs[i + 1].end + 1);
  }

  /** Merging runs i and i + 1 in place extends the pass by one merged run. */
  lemma {:induction false} PassStep(start: seq<int>, s: seq<int>, t: seq<int>, runs: seq<(int, int)>, newRuns: seq<(int, int)>, i: int, pairs: nat)
    requires PassSoFar(start, s, runs, newRuns, i) && i + 1 < |runs| && i == 2 * pairs
    requires 0 <= runs[i].0 <= runs[i].1 == runs[i + 1].0 <= runs[i + 1].1 <= |s|
    requires SameOutside(s, t, runs[i].0, runs[i + 1].1) && SortedRange(t, runs[i].0, runs[i + 1].1)
    ensures PassSoFar(start, t, runs, newRuns + [(runs[i].0, runs[i + 1].1)], i + 2)
  {
    var l, r := runs[i].0, runs[i + 1].1;
    AsRunsAt(runs, i);
    NextBoundary(runs, i, |start|);
    PairUpStep(runs, newRuns, i, pairs);
    PushPair(s, t, newRuns, l, r);
    SameOutsideTrans(start, s, t, 0, r, 0, r);
  }

  /** Appending the merge of runs i and i + 1 extends PairUp of the first i runs to the first i + 2. */
  lemma {:induction false} PairUpStep(runs: seq<(int, int)>, newRuns: seq<(int, int)>, i: int, pairs: nat)
    requires 0 <= i && i + 1 < |runs| && i == 2 * pairs && newRuns == PairUp(runs[..i])
    ensures newRuns + [(runs[i].0, runs[i + 1].1)] == PairUp(runs[..i + 2])
  {
    PairUpConcat(runs[..i], runs[i..i + 2], pairs);
    assert runs[..i + 2] == runs[..i] + runs[i..i + 2];
  }

  /** Once runs i and i + 1 are merged, the boundary lies where run i + 1 stops. */
  lemma {:induction false} NextBoundary(runs: seq<(int, int)>, i: int, n: int)
    requires Tiles(AsRuns(runs), 0, n) && 0 <= i && i + 1 < |runs|
    ensures Boundary(runs, i + 2, n) == runs[i + 1].1
  {
    AsRunsAt(runs, i + 1);
    if i + 2 < |runs| {
      AsRunsAt(runs, i + 2);
      assert AsRuns(runs)[i + 1].end + 1 == AsRuns(runs)[i + 2].start;
    }
  }

  /** An odd last run is carried over unchanged and completes the pass. */
  lemma {:induction false} PassLast(start: seq<int>, s: seq<int>, runs: seq<(int, int)>, newRuns: seq<(int, int)>, i: int, pairs: nat)
    requires PassSoFar(start, s, runs, newRuns, i) && i == |runs| - 1 && i == 2 * pairs
    ensures newRuns + [runs[i]] == PairUp(runs)
    ensures Tiles(AsRuns(newRuns + [runs[i]]), 0, |s|) && AllSorted(s, AsRuns(newRuns + [runs[i]]))
  {
    var rs := AsRuns(runs);
    AsRunsAt(runs, i);
    SortedRangeFrame(start, s, 0, runs[i].0, rs[i].start, rs[i].end + 1);
    AllSortedPush(s, s, AsRuns(newRuns), rs[i], 0);
    AsRunsPush(newRuns, runs[i]);
    PairUpOdd(runs, pairs);
  }

  /** With an odd number of runs, the last one is carried over. */
  lemma {:induction false} PairUpOdd(runs: seq<(int, int)>, pairs: nat)
    requires |runs| == 2 * pairs + 1
    ensures PairUp(runs) == PairUp(runs[..|runs| - 1]) + [runs[|runs| - 1]]
  {
    var i := |runs| - 1;
    PairUpConcat(runs[..i], [runs[i]], pairs);
    assert runs == runs[..i] + [runs[i]];
  }

  /**
    Sorts a in place: an array of at most one element is left as it is;
    otherwise passes are repeated until one run covers the array, which is
    then sorted and a permutation of the input.
   */
  method NaturalMergeSort(a: array<int>)
    modifies a
    ensures a.Length <= 1 ==> a[..] == old(a[..])
    ensures Sorted(a[..])
    ensures multiset(a[..]) == multiset(old(a[..]))
  {
    if a.Length <= 1 {
      return;
    }
    var runs := FindRuns(a);
    while |runs| > 1
      invariant Tiles(AsRuns(runs), 0, a.Length) && AllSorted(a[..], AsRuns(runs))
      invariant multiset(a[..]) == multiset(old(a[..]))
      decreases |runs|
    {
      runs := MergePass(a, runs);
    }
    SingleRunSorted(a[..], AsRuns(runs));
  }
}
