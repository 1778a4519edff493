/**
  The comparison-counting natural merge sort: runs are found by
  CountingCommons.FindRuns without a minimum and kept as inclusive runs, and
  each pass merges neighbours pairwise with the counting merge. The passes
  are those of NaturalMergeSort, seen through the half-open view AsPairs.
 */
module CountingNaturalMergeSort {
  import opened Order
  import opened Runs
  import opened Arith
  import Commons
  import CountingCommons
  import Plain = NaturalMergeSort

  /** The inclusive runs as half-open pairs: Run(start, end) covers [start, end + 1). */
  function AsPairs(runs: seq<Run>): (p: seq<(int, int)>)
    ensures |p| == |runs|
  {
    if runs == [] then [] else AsPairs(runs[..|runs| - 1]) + [(runs[|runs| - 1].start, runs[|runs| - 1].end + 1)]
  }

  lemma {:induction false} AsPairsPush(runs: seq<Run>, r: Run)
    ensures AsPairs(runs + [r]) == AsPairs(runs) + [(r.start, r.end + 1)]
  {
    assert (runs + [r])[..|runs|] == runs;
  }

  lemma {:induction false} AsPairsAt(runs: seq<Run>, k: int)
    requires 0 <= k < |runs|
    ensures AsPairs(runs)[k] == (runs[k].start, runs[k].end + 1)
    decreases |runs|
  {
    if k < |runs| - 1 {
      AsPairsAt(runs[..|runs| - 1], k);
    }
  }

  /** The two views are inverse: reading the pairs back as inclusive runs gives the runs. */
  lemma {:induction false} AsPairsInverse(runs: seq<Run>)
    ensures Plain.AsRuns(AsPairs(runs)) == runs
    decreases |runs|
  {
    if runs != [] {
      var init, last := runs[..|runs| - 1], runs[|runs| - 1];
      AsPairsInverse(init);
      Plain.AsRunsPush(AsPairs(init), (last.start, last.end + 1));
      assert init + [last] == runs;
    }
  }

  /**
    Sorts a in place and returns the number of comparisons: an array of at
    most one element is left as it is at no cost. Otherwise the input's run
    decomposition into `runs` runs costs `scanned`, between n and n + 2 per
    run, and the Halvings(runs) passes cost at least one comparison per
    merge (runs - 1 merges in all) and at most n - 1 each.
   */
  method NaturalMergeSort(a: array<int>) returns (comparisons: int, ghost runs: nat, ghost scanned: int)
    modifies a
    ensures Sorted(a[..])
    ensures multiset(a[..]) == multiset(old(a[..]))
    ensures a.Length <= 1 ==> comparisons == 0 && a[..] == old(a[..])
    ensures a.Length > 1 ==> runs == |Commons.RunsFrom(old(a[..]), 0, None)|
    ensures a.Length > 1 ==> 1 <= runs <= a.Length && a.Length <= scanned <= a.Length + 2 * runs
    ensures a.Length > 1 ==> runs - 1 <= comparisons - scanned <= Halvings(runs) * (a.Length - 1)
  {
    if a.Length <= 1 {
      runs, scanned := 0, 0;
      return 0, runs, scanned;
    }
    var found;
    found, comparisons := CountingCommons.FindRuns(a, None);
    runs, scanned := |found|, comparisons;
    RunCount(found, a.Length);
    ghost var passes: nat, merged := 0, 0;
    var cur := found;
    while |cur| > 1
      invariant Tiles(cur, 0, a.Length) && AllSorted(a[..], cur)
      invariant multiset(a[..]) == multiset(old(a[..]))
      invariant 1 <= |cur| && passes + Halvings(|cur|) == Halvings(runs)
      invariant comparisons == scanned + merged
      invariant runs - |cur| <= merged <= Budget(passes, a.Length - 1)
      decreases |cur|
    {
      var diff;
      cur, diff := MergePass(a, cur);
      assert Budget(passes + 1, a.Length - 1) == Budget(passes, a.Length - 1) + (a.Length - 1);
      comparisons := comparisons + diff;
      passes, merged := passes + 1, merged + diff;
    }
    assert passes == Halvings(runs);
    BudgetIsProduct(passes, a.Length - 1);
    assert merged <= Halvings(runs) * (a.Length - 1);
    Plain.AsRunsPush([], (cur[0].start, cur[0].end + 1));
    SingleRunSorted(a[..], cur);
  }

  /**
    One pass over the inclusive runs: runs 2k and 2k + 1 are merged with the
    counting merge into the run from the start of the first to the end of
    the second, and an odd last run is kept; in the half-open view this is
    PairUp. Every merge costs between 1 and one less than the merged
    length, so the pass costs between |runs| / 2 and n - |runs| / 2.
   */
  method MergePass(a: array<int>, runs: seq<Run>) returns (newRuns: seq<Run>, comparisons: int)
    requires Tiles(runs, 0, a.Length) && AllSorted(a[..], runs)
    modifies a
    ensures AsPairs(newRuns) == Plain.PairUp(AsPairs(runs))
    ensures |newRuns| == (|runs| + 1) / 2
    ensures Tiles(newRuns, 0, a.Length) && AllSorted(a[..], newRuns)
    ensures |runs| / 2 <= comparisons <= a.Length - |runs| / 2
    ensures multiset(a[..]) == multiset(old(a[..]))
  {
    ghost var start := a[..];
    AsPairsInverse(runs);
    Plain.PassStart(start, AsPairs(runs));
    newRuns := [];
    comparisons := 0;
    var i := 0;
    ghost var pairs := 0;
    while i < |runs| - 1
      invariant 0 <= i <= |runs| && i == 2 * pairs
      invariant Plain.PassSoFar(start, a[..], AsPairs(runs), AsPairs(newRuns), i)
      invariant pairs <= comparisons && comparisons + pairs <= Plain.Boundary(AsPairs(runs), i, a.Length)
      invariant multiset(a[..]) == multiset(old(a[..]))
    {
      var diff;
      newRuns, diff := MergeNext(a, start, runs, newRuns, i, pairs);
      comparisons := comparisons + diff;
      i, pairs := i + 2, pairs + 1;
    }
    ghost var merged := newRuns;
    if i == |runs| - 1 {
      newRuns := newRuns + [runs[i]];
    }
    PassDone(start, a[..], runs, merged, newRuns, i, pairs, comparisons, a.Length);
  }

  /**
    Merges runs i and i + 1 of the pass and appends the merged run; the
    cost is at least 1 and less than the merged length.
   */
  method MergeNext(a: array<int>, ghost start: seq<int>, runs: seq<Run>, newRuns: seq<Run>, i: int, ghost pairs: nat)
    returns (newRuns': seq<Run>, comparisons: int)
    requires Plain.PassSoFar(start, a[..], AsPairs(runs), AsPairs(newRuns), i) && i + 1 < |runs| && i == 2 * pairs
    modifies a
    ensures Plain.PassSoFar(start, a[..], AsPairs(runs), AsPairs(newRuns'), i + 2)
    ensures 1 <= comparisons
    ensures comparisons + 1 + Plain.Boundary(AsPairs(runs), i, a.Length) <= Plain.Boundary(AsPairs(runs), i + 2, a.Length)
    ensures multiset(a[..]) == multiset(old(a[..]))
  {
    var r1, r2 := runs[i], runs[i + 1];
    ghost var s := a[..];
    MergeOperands(start, s, runs, newRuns, i);
    var run;
    run, comparisons := CountingCommons.MergeAdjacent(a, r1, r2);
    MergedNext(start, s, a[..], runs, newRuns, i, pairs);
    newRuns' := newRuns + [run];
  }

  /** Merging runs i and i + 1 extends the pass, and the boundary moves past run i + 1. */
  lemma {:induction false} MergedNext(start: seq<int>, s: seq<int>, t: seq<int>, runs: seq<Run>, newRuns: seq<Run>, i: int, pairs: nat)
    requires Plain.PassSoFar(start, s, AsPairs(runs), AsPairs(newRuns), i) && i + 1 < |runs| && i == 2 * pairs
    requires runs[i].start <= runs[i].end && runs[i].end + 1 == runs[i + 1].start <= runs[i + 1].end < |s|
    requires SameOutside(s, t, runs[i].start, runs[i + 1].end + 1) && SortedRange(t, runs[i].start, runs[i + 1].end + 1)
    ensures Plain.PassSoFar(start, t, AsPairs(runs), AsPairs(newRuns + [Run(runs[i].start, runs[i + 1].end)]), i + 2)
    ensures Plain.Boundary(AsPairs(runs), i, |start|) == runs[i].start
    ensures Plain.Boundary(AsPairs(runs), i + 2, |start|) == runs[i + 1].end + 1
  {
    var ps := AsPairs(runs);
    AsPairsAt(runs, i);
    AsPairsAt(runs, i + 1);
    Plain.PassStep(start, s, t, ps, AsPairs(newRuns), i, pairs);
    Plain.NextBoundary(ps, i, |start|);
    AsPairsPush(newRuns, Run(runs[i].start, runs[i + 1].end));
    assert AsPairs(newRuns + [Run(runs[i].start, runs[i + 1].end)]) == AsPairs(newRuns) + [(ps[i].0, ps[i + 1].1)];
  }

  /** Runs i and i + 1 of the pass are adjacent, not empty, and sorted when their turn comes. */
  lemma {:induction false} MergeOperands(start: seq<int>, s: seq<int>, runs: seq<Run>, newRuns: seq<Run>, i: int)
    requires Plain.PassSoFar(start, s, AsPairs(runs), AsPairs(newRuns), i) && 0 <= i && i + 1 < |runs|
    ensures 0 <= runs[i].start <= runs[i].end && runs[i].end + 1 == runs[i + 1].start <= runs[i + 1].end < |s|
    ensures SortedRange(s, runs[i].start, runs[i].end + 1) && SortedRange(s, runs[i + 1].start, runs[i + 1].end + 1)
  {
    AsPairsInverse(runs);
    AsPairsAt(runs, i);
    AsPairsAt(runs, i + 1);
    Plain.PassOperands(start, s, AsPairs(runs), AsPairs(newRuns), i);
  }

  /**
    The end of a pass: with an odd last run carried over, the new runs are
    PairUp of the old ones, tile the array and are sorted, and the count
    lies between |runs| / 2 and n - |runs| / 2.
   */
  lemma {:induction false} PassDone(start: seq<int>, s: seq<int>, runs: seq<Run>, newRuns: seq<Run>, done: seq<Run>, i: int, pairs: nat, c: int, n: int)
    requires Plain.PassSoFar(start, s, AsPairs(runs), AsPairs(newRuns), i) && i == 2 * pairs && |runs| - 1 <= i
    requires pairs <= c && c + pairs <= Plain.Boundary(AsPairs(runs), i, n) && n == |s|
    requires done == if i == |runs| - 1 then newRuns + [runs[i]] else newRuns
    ensures AsPairs(done) == Plain.PairUp(AsPairs(runs))
    ensures |done| == (|runs| + 1) / 2
    ensures Tiles(done, 0, n) && AllSorted(s, done)
    ensures |runs| / 2 <= c <= n - |runs| / 2
  {
    Plain.PassCost(|runs|, pairs, c, Plain.Boundary(AsPairs(runs), i, n), n);
    if i == |runs| - 1 {
      PassEnd(start, s, runs, newRuns, i, pairs);
    } else {
      PassFull(start, s, runs, newRuns, i);
    }
  }

  /** With no run left over, the merged runs are the whole pass. */
  lemma {:induction false} PassFull(start: seq<int>, s: seq<int>, runs: seq<Run>, newRuns: seq<Run>, i: int)
    requires Plain.PassSoFar(start, s, AsPairs(runs), AsPairs(newRuns), i) && i == |runs|
    ensures AsPairs(newRuns) == Plain.PairUp(AsPairs(runs))
    ensures Tiles(newRuns, 0, |s|) && AllSorted(s, newRuns)
  {
    assert AsPairs(runs)[..i] == AsPairs(runs);
    AsPairsInverse(newRuns);
  }

  /** The odd last run of a pass is carried over. */
  lemma {:induction false} PassEnd(start: seq<int>, s: seq<int>, runs: seq<Run>, newRuns: seq<Run>, i: int, pairs: nat)
    requires Plain.PassSoFar(start, s, AsPairs(runs), AsPairs(newRuns), i) && i == |runs| - 1 && i == 2 * pairs
    ensures AsPairs(newRuns + [runs[i]]) == Plain.PairUp(AsPairs(runs))
    ensures Tiles(newRuns + [runs[i]], 0, |s|) && AllSorted(s, newRuns + [runs[i]])
    ensures Plain.Boundary(AsPairs(runs), i, |s|) <= |s|
  {
    var ps := AsPairs(runs);
    AsPairsAt(runs, i);
    AsPairsPush(newRuns, runs[i]);
    Plain.PassLast(start, s, ps, AsPairs(newRuns), i, pairs);
    AsPairsInverse(newRuns + [runs[i]]);
  }
}
