/**
  Powersort's scheduler (Munro and Wild, "Nearly-Optimal Mergesorts"): runs
  are found left to right; each boundary between the current run and the
  next gets a node power, and before the current run is pushed every run
  on the stack whose boundary power exceeds the new one is merged into it.
  X holds the runs and P the powers; at the end the stack is merged down.
 */
module Powersort {
  import opened Order
  import opened Runs
  import opened Arith
  import Commons

  // ---------------------------------------------------------------------
  // Node power

  /**
    Twice the midpoint of run r, minus one, as an integer: the float a of
    the source is Scaled(r) / (2n) exactly.
   */
  function Scaled(r: Run): int {
    2 * r.start + r.Len() - 2
  }

  /** The truncations of x * 2^l / d and y * 2^l / d differ. */
  predicate Splits(x: int, y: int, d: int, l: nat)
    requires d > 0
  {
    TruncDiv(x * Pow2(l), d) != TruncDiv(y * Pow2(l), d)
  }

  /** l is the least level at which the truncations differ. */
  predicate LeastSplit(x: int, y: int, d: int, l: nat)
    requires d > 0
  {
    Splits(x, y, d, l) && forall k: nat :: k < l ==> !Splits(x, y, d, k)
  }

  /** Two values at least 2d apart never truncate to the same quotient of d. */
  lemma {:induction false} FarApartSplit(x: int, y: int, d: int)
    requires d > 0 && (x - y >= 2 * d || y - x >= 2 * d)
    ensures TruncDiv(x, d) != TruncDiv(y, d)
  {
    var qx, qy := TruncDiv(x, d), TruncDiv(y, d);
    if qx == qy {
      assert false;
    }
  }

  function Dist(x: int, y: int): int {
    if x <= y then y - x else x - y
  }

  /**
    The power of the boundary between r1 and r2 in an array of n elements:
    the least l at which trunc(a * 2^l) and trunc(b * 2^l) differ, with a
    and b the runs' midpoints divided by n.
   */
  method NodePower(r1: Run, r2: Run, n: int) returns (l: nat)
    requires n > 0 && Scaled(r1) != Scaled(r2)
    ensures LeastSplit(Scaled(r1), Scaled(r2), 2 * n, l)
  {
    var x, y, d := Scaled(r1), Scaled(r2), 2 * n;
    l := 0;
    while TruncDiv(x * Pow2(l), d) == TruncDiv(y * Pow2(l), d)
      invariant forall k: nat :: k < l ==> !Splits(x, y, d, k)
      decreases if Dist(x, y) * Pow2(l) >= 2 * d then 0 else 2 * d - Dist(x, y) * Pow2(l)
    {
      NotYetFar(x, y, d, l);
      l := l + 1;
    }
  }

  /** While the truncations agree the scaled gap is below 2d, and it doubles with l. */
  lemma {:induction false} NotYetFar(x: int, y: int, d: int, l: nat)
    requires d > 0 && x != y && !Splits(x, y, d, l)
    ensures Dist(x, y) * Pow2(l) < 2 * d
    ensures Dist(x, y) * Pow2(l + 1) == 2 * (Dist(x, y) * Pow2(l))
    ensures Dist(x, y) * Pow2(l) < Dist(x, y) * Pow2(l + 1)
  {
    var p, g := Pow2(l), Dist(x, y);
    ScaledDist(x, y, p);
    if g * p >= 2 * d {
      FarApartSplit(x * p, y * p, d);
    }
    Doubling(g, p, Pow2(l + 1));
  }

  /** Scaling both values by p scales their distance by p. */
  lemma {:induction false} ScaledDist(x: int, y: int, p: int)
    requires p >= 0
    ensures Dist(x * p, y * p) == Dist(x, y) * p
  {
    if x <= y {
      MulMonotone(x, y, p);
      assert y * p - x * p == (y - x) * p;
    } else {
      MulMonotone(y, x, p);
      assert x * p - y * p == (x - y) * p;
    }
  }

  /**
    For adjacent runs r1, r2 inside [0, n) the node power is at least 1
    and 2^l < 4n.
   */
  lemma {:induction false} NodePowerBounds(r1: Run, r2: Run, n: int, l: nat)
    requires 0 <= r1.start <= r1.end && r2.start == r1.end + 1 && r2.start <= r2.end < n
    requires LeastSplit(Scaled(r1), Scaled(r2), 2 * n, l)
    ensures 1 <= l && Pow2(l) < 4 * n
  {
    var x, y, d := Scaled(r1), Scaled(r2), 2 * n;
    if l == 0 {
      assert x * Pow2(0) == x && y * Pow2(0) == y;
      TruncDivSmall(x, d);
      TruncDivSmall(y, d);
      assert false;
    }
    assert !Splits(x, y, d, l - 1);
    NotYetFar(x, y, d, l - 1);
    MulMonotone(2, Dist(x, y), Pow2(l - 1));
  }

  // ---------------------------------------------------------------------
  // The scheduler

  /** P is non-decreasing from bottom to top. */
  predicate NonDecreasing(p: seq<int>) {
    forall i, j :: 0 <= i < j < |p| ==> p[i] <= p[j]
  }

  /**
    Sorts a non-empty array in place. Runs are found with Commons.FindNextRun
    under the given minimum; the result is sorted and a permutation of the
    input.
   */
  method Powersort(a: array<int>, minRun: Option<int>)
    requires a.Length > 0
    modifies a
    ensures Sorted(a[..])
    ensures multiset(a[..]) == multiset(old(a[..]))
  {
    var n := a.Length;
    var X: seq<Run> := [];
    var P: seq<int> := [];
    var r1 := Commons.FindNextRun(a, 0, minRun);
    AllSortedPush(a[..], a[..], [], r1, 0);
    while r1.end < n - 1
      invariant StackState(a[..], X, P, r1)
      invariant multiset(a[..]) == multiset(old(a[..]))
      decreases n - r1.end
    {
      ghost var s := a[..];
      var r2 := Commons.FindNextRun(a, r1.end + 1, minRun);
      FoundNext(s, a[..], X, P, r1, r2);
      var p := NodePower(r1, r2, n);
      X, P, r1 := MergeDown(a, X, P, r1, p, r2);
      PushRun(a[..], X, P, r1, r2, p);
      X := X + [r1];
      P := P + [p];
      r1 := r2;
    }
    r1 := MergeRemaining(a, X, r1);
  }

  /**
    Before the current run r1 is pushed with power p: while the top power
    exceeds p, it is popped together with the top run r0, and r0 is merged
    in place with r1 into the new current run Run(r0.start, r1.end). On exit
    no power above p is left on P.
   */
  method MergeDown(a: array<int>, X: seq<Run>, P: seq<int>, r1: Run, p: int, ghost r2: Run)
    returns (X': seq<Run>, P': seq<int>, r1': Run)
    requires MergingState(a[..], X, P, r1, r2)
    modifies a
    ensures MergingState(a[..], X', P', r1', r2)
    ensures |P'| == 0 || P'[|P'| - 1] <= p
    ensures |X'| <= |X| && |P'| <= |P| && X' == X[..|X'|] && P' == P[..|P'|] && forall i :: |P'| <= i < |P| ==> P[i] > p
    ensures r1' == Run(if |X'| < |X| then X[|X'|].start else r1.start, r1.end)
    ensures multiset(a[..]) == multiset(old(a[..]))
  {
    X', P', r1' := X, P, r1;
    while |P'| > 0 && P'[|P'| - 1] > p
      invariant MergingState(a[..], X', P', r1', r2)
      invariant |X'| <= |X| && |P'| <= |P| && X' == X[..|X'|] && P' == P[..|P'|] && forall i :: |P'| <= i < |P| ==> P[i] > p
      invariant r1' == Run(if |X'| < |X| then X[|X'|].start else r1.start, r1.end)
      invariant multiset(a[..]) == multiset(old(a[..]))
      decreases |P'|
    {
      ghost var X1, P1 := X', P';
      X', P', r1' := PopAndMerge(a, X', P', r1', r2);
      PopPrefix(X, P, X1, P1, p);
    }
  }

  /**
    One iteration of MergeDown: the top power is popped, and the top run
    r0 is popped and merged in place with r1.
   */
  method PopAndMerge(a: array<int>, X: seq<Run>, P: seq<int>, r1: Run, ghost r2: Run) returns (X': seq<Run>, P': seq<int>, r1': Run)
    requires MergingState(a[..], X, P, r1, r2) && |P| > 0
    modifies a
    ensures MergingState(a[..], X', P', r1', r2)
    ensures X' == X[..|X| - 1] && P' == P[..|P| - 1] && r1' == Run(X[|X| - 1].start, r1.end)
    ensures multiset(a[..]) == multiset(old(a[..]))
  {
    ghost var s := a[..];
    StackTop(a[..], X, r1);
    P' := P[..|P| - 1];
    var r0 := X[|X| - 1];
    X' := X[..|X| - 1];
    r1' := Commons.Merge(a, r0.start, r0.end, r1.end);
    PopMerged(s, a[..], X, P, r1, r2);
  }

  /** Popping a top power above p keeps both stacks prefixes of the original ones. */
  lemma {:induction false} PopPrefix(X: seq<Run>, P: seq<int>, X1: seq<Run>, P1: seq<int>, p: int)
    requires |X1| <= |X| && |P1| <= |P| && X1 == X[..|X1|] && P1 == P[..|P1|]
    requires forall i :: |P1| <= i < |P| ==> P[i] > p
    requires 0 < |X1| && 0 < |P1| && P1[|P1| - 1] > p
    ensures var X2, P2 := X1[..|X1| - 1], P1[..|P1| - 1];
      X2 == X[..|X2|] && P2 == P[..|P2|] && forall i :: |P2| <= i < |P| ==> P[i] > p
    ensures X1[|X1| - 1] == X[|X1| - 1]
  {
  }

  /** The final merges: the top of X is merged with the current run until X is empty. */
  method MergeRemaining(a: array<int>, X: seq<Run>, r1: Run) returns (r1': Run)
    requires Tiles(X + [r1], 0, a.Length) && AllSorted(a[..], X + [r1])
    modifies a
    ensures r1' == Run(0, a.Length - 1) && SortedRange(a[..], 0, a.Length)
    ensures multiset(a[..]) == multiset(old(a[..]))
  {
    var X' := X;
    r1' := r1;
    while |X'| > 0
      invariant Tiles(X' + [r1'], 0, a.Length) && AllSorted(a[..], X' + [r1'])
      invariant multiset(a[..]) == multiset(old(a[..]))
    {
      ghost var s1, X1, r1Old := a[..], X', r1';
      StackTop(a[..], X', r1');
      var r0 := X'[|X'| - 1];
      X' := X'[..|X'| - 1];
      r1' := Commons.Merge(a, r0.start, r0.end, r1'.end);
      AbsorbTop(s1, a[..], X1, r1Old, a.Length);
    }
    StackTop(a[..], [], r1');
    assert ([] + [r1'])[0] == r1';
  }

  /**
    The state between boundaries: X and P have the same height, P is
    non-decreasing, X followed by the current run r1 tiles [0, r1.end] from
    the left, and all those runs are sorted.
   */
  predicate StackState(s: seq<int>, X: seq<Run>, P: seq<int>, r1: Run) {
    && |X| == |P|
    && NonDecreasing(P)
    && Tiles(X + [r1], 0, r1.end + 1)
    && r1.end < |s|
    && AllSorted(s, X + [r1])
  }

  /**
    The state while the current run absorbs stack runs: as StackState, and
    the next run r2 starts right after r1, is sorted, and lies inside the
    array.
   */
  predicate MergingState(s: seq<int>, X: seq<Run>, P: seq<int>, r1: Run, r2: Run) {
    && StackState(s, X, P, r1)
    && r2.start == r1.end + 1 && r2.start <= r2.end < |s|
    && SortedRange(s, r2.start, r2.end + 1)
  }

  /** Finding the next run leaves the stack and the current run sorted. */
  lemma {:induction false} FoundNext(s: seq<int>, t: seq<int>, X: seq<Run>, P: seq<int>, r1: Run, r2: Run)
    requires StackState(s, X, P, r1) && r2.start == r1.end + 1 && r2.start <= r2.end < |s|
    requires SameOutside(s, t, r2.start, r2.end + 1) && SortedRange(t, r2.start, r2.end + 1)
    ensures MergingState(t, X, P, r1, r2)
    ensures Scaled(r1) != Scaled(r2)
  {
    StackTop(s, X, r1);
    AllSortedFrame(s, t, X + [r1], r2.start, r2.end + 1);
  }

  /** The top of X ends right before the current run, which is not empty. */
  lemma {:induction false} StackTop(s: seq<int>, X: seq<Run>, r1: Run)
    requires Tiles(X + [r1], 0, r1.end + 1) || Tiles(X + [r1], 0, |s|)
    ensures 0 <= r1.start <= r1.end
    ensures |X| > 0 ==> 0 <= X[|X| - 1].start <= X[|X| - 1].end && X[|X| - 1].end + 1 == r1.start
    ensures |X| == 0 ==> r1.start == 0
  {
    var u := X + [r1];
    assert u[|X|] == r1;
    if |X| > 0 {
      assert u[|X| - 1] == X[|X| - 1];
    }
  }

  /**
    The top run r0 of X merged in place with the current run r1, so that
    Run(r0.start, r1.end) becomes the current run: the runs still tile
    [0, hi) and are sorted.
   */
  lemma {:induction false} AbsorbTop(s: seq<int>, t: seq<int>, X: seq<Run>, r1: Run, hi: int)
    requires |X| > 0 && Tiles(X + [r1], 0, hi) && AllSorted(s, X + [r1])
    requires var r0 := X[|X| - 1];
      && SameOutside(s, t, r0.start, r1.end + 1)
      && (SortedRange(s, r0.start, r0.end + 1) && SortedRange(s, r0.end + 1, r1.end + 1) ==>
          SortedRange(t, r0.start, r1.end + 1))
    ensures var r0 := X[|X| - 1];
      && Tiles(X[..|X| - 1] + [Run(r0.start, r1.end)], 0, hi)
      && AllSorted(t, X[..|X| - 1] + [Run(r0.start, r1.end)])
  {
    var u := X + [r1];
    var h := |u|;
    assert u[h - 2] == X[|X| - 1] && u[h - 1] == r1;
    StackTop(s, X, r1);
    MergeTopSorted(s, t, u, 0, hi);
    assert MergeTop(u) == X[..|X| - 1] + [Run(X[|X| - 1].start, r1.end)];
  }

  /** One pop-and-merge of the inner loop keeps the merging state. */
  lemma {:induction false} PopMerged(s: seq<int>, t: seq<int>, X: seq<Run>, P: seq<int>, r1: Run, r2: Run)
    requires MergingState(s, X, P, r1, r2) && |X| > 0
    requires var r0 := X[|X| - 1];
      && SameOutside(s, t, r0.start, r1.end + 1)
      && (SortedRange(s, r0.start, r0.end + 1) && SortedRange(s, r0.end + 1, r1.end + 1) ==>
          SortedRange(t, r0.start, r1.end + 1))
    ensures MergingState(t, X[..|X| - 1], P[..|P| - 1], Run(X[|X| - 1].start, r1.end), r2)
  {
    AbsorbTop(s, t, X, r1, r1.end + 1);
    StackTop(s, X, r1);
    SortedRangeFrame(s, t, X[|X| - 1].start, r1.end + 1, r2.start, r2.end + 1);
  }

  /**
    Pushing the current run with power p once no power above p is left on
    P: the next run becomes current, and P stays non-decreasing.
   */
  lemma {:induction false} PushRun(s: seq<int>, X: seq<Run>, P: seq<int>, r1: Run, r2: Run, p: int)
    requires MergingState(s, X, P, r1, r2) && (|P| == 0 || P[|P| - 1] <= p)
    ensures StackState(s, X + [r1], P + [p], r2)
  {
    AllSortedPush(s, s, X + [r1], r2, 0);
  }
}
