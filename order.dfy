/**
  Orderings on integer sequences and the facts about them that every sorting
  routine of the engine relies on: sorted index ranges, "nothing outside this
  range changed", reversal and the stable two-way merge.
 */
module Order {

  /** s[lo..hi) is in non-decreasing order; the bounds are valid for s. */
  predicate SortedRange(s: seq<int>, lo: int, hi: int) {
    0 <= lo <= hi <= |s| && forall i, j :: lo <= i < j < hi ==> s[i] <= s[j]
  }

  predicate Sorted(s: seq<int>) {
    SortedRange(s, 0, |s|)
  }

  /** s[lo..hi) is in non-increasing order. */
  predicate NonIncreasingRange(s: seq<int>, lo: int, hi: int) {
    0 <= lo <= hi <= |s| && forall i, j :: lo <= i < j < hi ==> s[i] >= s[j]
  }

  /** t agrees with s at every index outside [lo, hi). */
  predicate SameOutside(s: seq<int>, t: seq<int>, lo: int, hi: int) {
    |s| == |t| && forall k :: 0 <= k < |s| && !(lo <= k < hi) ==> s[k] == t[k]
  }

  lemma {:induction false} SameOutsideTrans(s: seq<int>, t: seq<int>, u: seq<int>, lo: int, hi: int, lo': int, hi': int)
    requires SameOutside(s, t, lo, hi) && SameOutside(t, u, lo', hi')
    requires lo <= lo' && hi' <= hi
    ensures SameOutside(s, u, lo, hi)
  {
  }

  /** Changes confined to [lo, mid) and then to [mid, hi) are confined to [lo, hi). */
  lemma SameOutsideJoin(s: seq<int>, t: seq<int>, u: seq<int>, lo: int, mid: int, hi: int)
    requires SameOutside(s, t, lo, mid) && SameOutside(t, u, mid, hi) && lo <= mid <= hi
    ensures SameOutside(s, u, lo, hi)
  {
  }

  /** A slice that lies outside the changed range is unchanged. */
  lemma SliceUnchanged(s: seq<int>, t: seq<int>, lo: int, hi: int, i: int, j: int)
    requires SameOutside(s, t, lo, hi) && 0 <= i <= j <= |s| && (j <= lo || hi <= i)
    ensures t[i..j] == s[i..j]
  {
  }

  /** A sorted range that a change outside it does not touch stays sorted. */
  lemma {:induction false} SortedRangeFrame(s: seq<int>, t: seq<int>, lo: int, hi: int, x: int, y: int)
    requires SameOutside(s, t, lo, hi) && SortedRange(s, x, y)
    requires y <= lo || hi <= x || x == y
    ensures SortedRange(t, x, y)
  {
    forall i, j | x <= i < j < y ensures t[i] <= t[j] {
      assert s[i] == t[i] && s[j] == t[j];
    }
  }

  /** Changing only [lo, hi) and permuting it there permutes the whole sequence. */
  lemma {:induction false} MultisetSplice(s: seq<int>, t: seq<int>, lo: int, hi: int)
    requires SameOutside(s, t, lo, hi) && 0 <= lo <= hi <= |s|
    requires multiset(s[lo..hi]) == multiset(t[lo..hi])
    ensures multiset(s) == multiset(t)
  {
    assert s[..lo] == t[..lo];
    assert s[hi..] == t[hi..];
    assert s == s[..lo] + s[lo..hi] + s[hi..];
    assert t == t[..lo] + t[lo..hi] + t[hi..];
  }

  /** Two adjacent sorted ranges whose boundary is in order form one sorted range. */
  lemma {:induction false} SortedRangeJoin(s: seq<int>, lo: int, mid: int, hi: int)
    requires SortedRange(s, lo, mid) && SortedRange(s, mid, hi)
    requires lo < mid < hi ==> s[mid - 1] <= s[mid]
    ensures SortedRange(s, lo, hi)
  {
  }

  // ---------------------------------------------------------------------
  // Reversal

  function Reverse(s: seq<int>): (r: seq<int>)
    ensures |r| == |s|
  {
    if s == [] then [] else Reverse(s[1..]) + [s[0]]
  }

  lemma {:induction false} ReverseAt(s: seq<int>, k: int)
    requires 0 <= k < |s|
    ensures Reverse(s)[k] == s[|s| - 1 - k]
  {
    if k < |s| - 1 {
      ReverseAt(s[1..], k);
    }
  }

  lemma {:induction false} ReverseMultiset(s: seq<int>)
    ensures multiset(Reverse(s)) == multiset(s)
  {
    if s != [] {
      ReverseMultiset(s[1..]);
      assert s == [s[0]] + s[1..];
    }
  }

  /** Reversing a non-increasing sequence yields a sorted one. */
  lemma {:induction false} ReverseNonIncreasing(s: seq<int>)
    requires NonIncreasingRange(s, 0, |s|)
    ensures Sorted(Reverse(s))
  {
    forall i, j | 0 <= i < j < |s| ensures Reverse(s)[i] <= Reverse(s)[j] {
      ReverseAt(s, i);
      ReverseAt(s, j);
    }
  }

  /** s with its slice [lo, hi) reversed in place. */
  function ReverseRange(s: seq<int>, lo: int, hi: int): seq<int>
    requires 0 <= lo <= hi <= |s|
  {
    s[..lo] + Reverse(s[lo..hi]) + s[hi..]
  }

  lemma {:induction false} ReverseRangeAt(s: seq<int>, lo: int, hi: int, k: int)
    requires 0 <= lo <= hi <= |s| && 0 <= k < |s|
    ensures |ReverseRange(s, lo, hi)| == |s|
    ensures ReverseRange(s, lo, hi)[k] == if lo <= k < hi then s[lo + hi - 1 - k] else s[k]
  {
    var r := ReverseRange(s, lo, hi);
    if lo <= k < hi {
      assert r[k] == Reverse(s[lo..hi])[k - lo];
      ReverseAt(s[lo..hi], k - lo);
    } else if k >= hi {
      assert r[k] == s[hi..][k - hi];
    }
  }

  lemma {:induction false} ReverseRangeProperties(s: seq<int>, lo: int, hi: int)
    requires 0 <= lo <= hi <= |s|
    ensures |ReverseRange(s, lo, hi)| == |s|
    ensures SameOutside(s, ReverseRange(s, lo, hi), lo, hi)
    ensures multiset(ReverseRange(s, lo, hi)) == multiset(s)
    ensures NonIncreasingRange(s, lo, hi) ==> SortedRange(ReverseRange(s, lo, hi), lo, hi)
  {
    var r := ReverseRange(s, lo, hi);
    forall k | 0 <= k < |s| && !(lo <= k < hi) ensures r[k] == s[k] {
      ReverseRangeAt(s, lo, hi, k);
    }
    ReverseRangeMultiset(s, lo, hi);
    if NonIncreasingRange(s, lo, hi) {
      ReverseRangeSorted(s, lo, hi);
    }
  }

  lemma {:induction false} ReverseRangeMultiset(s: seq<int>, lo: int, hi: int)
    requires 0 <= lo <= hi <= |s|
    ensures multiset(ReverseRange(s, lo, hi)) == multiset(s)
  {
    var front, mid, back := s[..lo], s[lo..hi], s[hi..];
    assert s == front + mid + back;
    ReverseMultiset(mid);
    calc {
      multiset(ReverseRange(s, lo, hi));
      multiset(front + Reverse(mid) + back);
      multiset(front) + multiset(Reverse(mid)) + multiset(back);
      multiset(front) + multiset(mid) + multiset(back);
      multiset(front + mid + back);
    }
  }

  lemma {:induction false} ReverseRangeSorted(s: seq<int>, lo: int, hi: int)
    requires NonIncreasingRange(s, lo, hi)
    ensures SortedRange(ReverseRange(s, lo, hi), lo, hi)
  {
    var r := ReverseRange(s, lo, hi);
    forall i, j | lo <= i < j < hi ensures r[i] <= r[j] {
      ReverseRangeAt(s, lo, hi, i);
      ReverseRangeAt(s, lo, hi, j);
      assert s[lo + hi - 1 - j] >= s[lo + hi - 1 - i];
    }
  }

  // ---------------------------------------------------------------------
  // The stable two-way merge

  /**
    The left-biased merge of two sequences: the smaller head goes first,
    and on a tie the head of `xs` (the left run) goes first.
   */
  function StableMerge(xs: seq<int>, ys: seq<int>): seq<int>
    decreases |xs| + |ys|
  {
    if xs == [] then ys
    else if ys == [] then xs
    else if xs[0] <= ys[0] then [xs[0]] + StableMerge(xs[1..], ys)
    else [ys[0]] + StableMerge(xs, ys[1..])
  }

  /** The number of head-to-head comparisons the merge performs. */
  function MergeComparisons(xs: seq<int>, ys: seq<int>): nat
    decreases |xs| + |ys|
  {
    if xs == [] || ys == [] then 0
    else if xs[0] <= ys[0] then 1 + MergeComparisons(xs[1..], ys)
    else 1 + MergeComparisons(xs, ys[1..])
  }

  lemma StableMergeMultiset(xs: seq<int>, ys: seq<int>)
    ensures |StableMerge(xs, ys)| == |xs| + |ys|
    ensures multiset(StableMerge(xs, ys)) == multiset(xs) + multiset(ys)
  {
    StableMergeLength(xs, ys);
    StableMergeBag(xs, ys);
  }

  lemma {:induction false} StableMergeLength(xs: seq<int>, ys: seq<int>)
    ensures |StableMerge(xs, ys)| == |xs| + |ys|
    decreases |xs| + |ys|
  {
    if xs != [] && ys != [] {
      if xs[0] <= ys[0] {
        StableMergeLength(xs[1..], ys);
      } else {
        StableMergeLength(xs, ys[1..]);
      }
    }
  }

  lemma {:induction false} StableMergeBag(xs: seq<int>, ys: seq<int>)
    ensures multiset(StableMerge(xs, ys)) == multiset(xs) + multiset(ys)
    decreases |xs| + |ys|
  {
    if xs != [] && ys != [] {
      if xs[0] <= ys[0] {
        StableMergeBag(xs[1..], ys);
        ConsBag(xs, StableMerge(xs[1..], ys), multiset(ys));
      } else {
        StableMergeBag(xs, ys[1..]);
        ConsBag(ys, StableMerge(xs, ys[1..]), multiset(xs));
      }
    }
  }

  /** Putting the head of xs back in front of a merge of its tail with other elements. */
  lemma ConsBag(xs: seq<int>, m: seq<int>, other: multiset<int>)
    requires xs != [] && multiset(m) == multiset(xs[1..]) + other
    ensures multiset([xs[0]] + m) == multiset(xs) + other
  {
    assert xs == [xs[0]] + xs[1..];
  }

  /** The first element of a merge is the head of one of its inputs. */
  lemma {:induction false} StableMergeHead(xs: seq<int>, ys: seq<int>)
    requires xs != [] || ys != []
    ensures StableMerge(xs, ys) != []
    ensures StableMerge(xs, ys)[0] == (if xs == [] then ys[0] else if ys == [] then xs[0] else if xs[0] <= ys[0] then xs[0] else ys[0])
  {
  }

  /** Prepending an element no larger than the head keeps a sequence sorted. */
  lemma {:induction false} SortedCons(h: int, rest: seq<int>)
    requires Sorted(rest) && (rest != [] ==> h <= rest[0])
    ensures Sorted([h] + rest)
  {
    var s := [h] + rest;
    forall i, j | 0 <= i < j < |s| ensures s[i] <= s[j] {
      if i == 0 && j > 1 {
        assert rest[0] <= rest[j - 1];
      }
    }
  }

  lemma {:induction false} StableMergeSorted(xs: seq<int>, ys: seq<int>)
    requires Sorted(xs) && Sorted(ys)
    ensures Sorted(StableMerge(xs, ys))
    decreases |xs| + |ys|
  {
    if xs != [] && ys != [] {
      if xs[0] <= ys[0] {
        var rest := StableMerge(xs[1..], ys);
        StableMergeSorted(xs[1..], ys);
        StableMergeHead(xs[1..], ys);
        SortedCons(xs[0], rest);
      } else {
        var rest := StableMerge(xs, ys[1..]);
        StableMergeSorted(xs, ys[1..]);
        StableMergeHead(xs, ys[1..]);
        SortedCons(ys[0], rest);
      }
    }
  }

  /**
    The merge performs no comparison when a side is empty, and otherwise at
    least one per element of the shorter side and at most one fewer than the
    total length.
   */
  lemma {:induction false} MergeComparisonsBounds(xs: seq<int>, ys: seq<int>)
    ensures xs == [] || ys == [] ==> MergeComparisons(xs, ys) == 0
    ensures xs != [] && ys != [] ==>
      (if |xs| <= |ys| then |xs| else |ys|) <= MergeComparisons(xs, ys) <= |xs| + |ys| - 1
    decreases |xs| + |ys|
  {
    if xs != [] && ys != [] {
      if xs[0] <= ys[0] {
        MergeComparisonsBounds(xs[1..], ys);
      } else {
        MergeComparisonsBounds(xs, ys[1..]);
      }
    }
  }

  /** Merging with an empty side returns the other side unchanged. */
  lemma {:induction false} StableMergeEmpty(xs: seq<int>)
    ensures StableMerge(xs, []) == xs && StableMerge([], xs) == xs
  {
  }

  /** One step of the merge loops, read on the unconsumed suffixes xs[i..] and ys[j..]. */
  lemma {:induction false} StableMergeStep(xs: seq<int>, ys: seq<int>, i: int, j: int)
    requires 0 <= i <= |xs| && 0 <= j <= |ys| && (i < |xs| || j < |ys|)
    ensures StableMerge(xs[i..], ys[j..]) ==
      if j == |ys| || (i < |xs| && xs[i] <= ys[j]) then [xs[i]] + StableMerge(xs[i + 1..], ys[j..])
      else [ys[j]] + StableMerge(xs[i..], ys[j + 1..])
    ensures MergeComparisons(xs[i..], ys[j..]) ==
      if i == |xs| || j == |ys| then 0
      else if xs[i] <= ys[j] then 1 + MergeComparisons(xs[i + 1..], ys[j..])
      else 1 + MergeComparisons(xs[i..], ys[j + 1..])
  {
    if i < |xs| {
      assert xs[i..][1..] == xs[i + 1..];
    }
    if j < |ys| {
      assert ys[j..][1..] == ys[j + 1..];
    }
  }

  /** The merge loop's invariant survives taking the head of the left suffix. */
  lemma {:induction false} TakeLeft(done: seq<int>, xs: seq<int>, ys: seq<int>, i: int, j: int)
    requires 0 <= i < |xs| && 0 <= j <= |ys| && (j == |ys| || xs[i] <= ys[j])
    requires done + StableMerge(xs[i..], ys[j..]) == StableMerge(xs, ys)
    ensures (done + [xs[i]]) + StableMerge(xs[i + 1..], ys[j..]) == StableMerge(xs, ys)
  {
    StableMergeStep(xs, ys, i, j);
  }

  /** The merge loop's invariant survives taking the head of the right suffix. */
  lemma {:induction false} TakeRight(done: seq<int>, xs: seq<int>, ys: seq<int>, i: int, j: int)
    requires 0 <= i <= |xs| && 0 <= j < |ys| && (i == |xs| || xs[i] > ys[j])
    requires done + StableMerge(xs[i..], ys[j..]) == StableMerge(xs, ys)
    ensures (done + [ys[j]]) + StableMerge(xs[i..], ys[j + 1..]) == StableMerge(xs, ys)
  {
    StableMergeStep(xs, ys, i, j);
  }

  /** Once one side is used up, the rest of the merge is the two remaining suffixes in order. */
  lemma {:induction false} MergeExhausted(done: seq<int>, xs: seq<int>, ys: seq<int>, i: int, j: int)
    requires 0 <= i <= |xs| && 0 <= j <= |ys| && (i == |xs| || j == |ys|)
    requires done + StableMerge(xs[i..], ys[j..]) == StableMerge(xs, ys)
    ensures done + xs[i..] + ys[j..] == StableMerge(xs, ys)
  {
    if i == |xs| {
      assert xs[i..] == [];
      StableMergeEmpty(ys[j..]);
    } else {
      assert ys[j..] == [];
      StableMergeEmpty(xs[i..]);
    }
  }

  // ---------------------------------------------------------------------
  // One step of binary insertion: moving s[i] down to position j

  /** s with s[i] moved to index j and s[j..i) shifted one place right. */
  function MoveDown(s: seq<int>, j: int, i: int): seq<int>
    requires 0 <= j <= i < |s|
  {
    s[..j] + [s[i]] + s[j..i] + s[i + 1..]
  }

  lemma {:induction false} MoveDownAt(s: seq<int>, j: int, i: int, k: int)
    requires 0 <= j <= i < |s| && 0 <= k < |s|
    ensures |MoveDown(s, j, i)| == |s|
    ensures MoveDown(s, j, i)[k] == if k < j || k > i then s[k] else if k == j then s[i] else s[k - 1]
  {
    var t := MoveDown(s, j, i);
    if j < k <= i {
      assert t[k] == s[j..i][k - 1 - j];
    } else if k > i {
      assert t[k] == s[i + 1..][k - i - 1];
    }
  }

  /**
    Moving s[i] down to the lower bound j of s[i] within the sorted range
    s[left..i) sorts s[left..i], permutes s, and touches only [j, i].
   */
  lemma {:induction false} MoveDownSorted(s: seq<int>, left: int, j: int, i: int)
    requires 0 <= left <= j <= i < |s| && SortedRange(s, left, i)
    requires forall p :: left <= p < j ==> s[p] < s[i]
    requires forall p :: j <= p < i ==> s[p] >= s[i]
    ensures |MoveDown(s, j, i)| == |s|
    ensures SortedRange(MoveDown(s, j, i), left, i + 1)
    ensures SameOutside(s, MoveDown(s, j, i), j, i + 1)
    ensures multiset(MoveDown(s, j, i)) == multiset(s)
  {
    var t := MoveDown(s, j, i);
    forall k | 0 <= k < |s| ensures t[k] == if k < j || k > i then s[k] else if k == j then s[i] else s[k - 1] {
      MoveDownAt(s, j, i, k);
    }
    MoveDownOrder(s, t, left, j, i);
    MoveDownMultiset(s, j, i);
  }

  lemma {:induction false} MoveDownOrder(s: seq<int>, t: seq<int>, left: int, j: int, i: int)
    requires 0 <= left <= j <= i < |s| == |t| && SortedRange(s, left, i)
    requires forall p :: left <= p < j ==> s[p] < s[i]
    requires forall p :: j <= p < i ==> s[p] >= s[i]
    requires forall k {:trigger t[k]} :: 0 <= k < |s| ==> t[k] == if k < j || k > i then s[k] else if k == j then s[i] else s[k - 1]
    ensures SortedRange(t, left, i + 1)
  {
    forall p, q | left <= p < q < i + 1 ensures t[p] <= t[q] {
      if q == j {
        assert t[p] == s[p] && t[q] == s[i];
      } else if p == j {
        assert t[q] == s[q - 1];
      } else if p > j {
        assert t[p] == s[p - 1] && t[q] == s[q - 1];
      } else if q < j {
        assert t[p] == s[p] && t[q] == s[q];
      } else {
        assert t[p] == s[p] && t[q] == s[q - 1];
        assert s[p] < s[i] <= s[q - 1];
      }
    }
  }

  lemma {:induction false} MoveDownMultiset(s: seq<int>, j: int, i: int)
    requires 0 <= j <= i < |s|
    ensures multiset(MoveDown(s, j, i)) == multiset(s)
  {
    var front, middle, x, back := s[..j], s[j..i], [s[i]], s[i + 1..];
    assert s == front + middle + x + back;
    assert MoveDown(s, j, i) == front + x + middle + back;
    assert multiset(front + x + middle + back) == multiset(front) + multiset(x) + multiset(middle) + multiset(back);
    assert multiset(front + middle + x + back) == multiset(front) + multiset(middle) + multiset(x) + multiset(back);
  }
}
