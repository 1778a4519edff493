/**
  What natural-run detection computes, independently of how a scan loop is
  written: from `start`, the run is the maximal non-decreasing stretch when
  it rises above its first element, and otherwise the maximal non-increasing
  stretch, which is then reversed in place.
 */
module Scan {
  import opened Order

  /** The end of the maximal non-decreasing stretch that begins at i. */
  function AscEnd(s: seq<int>, i: int): (j: int)
    requires 0 <= i < |s|
    ensures i <= j < |s|
    decreases |s| - i
  {
    if i + 1 < |s| && s[i] <= s[i + 1] then AscEnd(s, i + 1) else i
  }

  /** The end of the maximal non-increasing stretch that begins at i. */
  function DescEnd(s: seq<int>, i: int): (j: int)
    requires 0 <= i < |s|
    ensures i <= j < |s|
    decreases |s| - i
  {
    if i + 1 < |s| && s[i] >= s[i + 1] then DescEnd(s, i + 1) else i
  }

  /** The end of the maximal stretch of elements equal to s[i]. */
  function EqEnd(s: seq<int>, i: int): (j: int)
    requires 0 <= i < |s|
    ensures i <= j < |s|
    decreases |s| - i
  {
    if i + 1 < |s| && s[i] == s[i + 1] then EqEnd(s, i + 1) else i
  }

  /** The run starting at `start` is descending: it never rises above s[start]. */
  predicate IsDescending(s: seq<int>, start: int)
    requires 0 <= start < |s|
  {
    s[start] == s[AscEnd(s, start)]
  }

  /** The last index of the natural run that begins at `start`. */
  function NaturalRunEnd(s: seq<int>, start: int): int
    requires 0 <= start < |s|
  {
    if IsDescending(s, start) then DescEnd(s, start) else AscEnd(s, start)
  }

  /** s after the natural run at `start` has been normalised to ascending order. */
  function Normalized(s: seq<int>, start: int): seq<int>
    requires 0 <= start < |s|
  {
    if IsDescending(s, start) then ReverseRange(s, start, NaturalRunEnd(s, start) + 1) else s
  }

  // ---------------------------------------------------------------------
  // What the scan functions mean

  lemma {:induction false} AscEndMaximal(s: seq<int>, i: int)
    requires 0 <= i < |s|
    ensures SortedRange(s, i, AscEnd(s, i) + 1)
    ensures AscEnd(s, i) == |s| - 1 || s[AscEnd(s, i)] > s[AscEnd(s, i) + 1]
    decreases |s| - i
  {
    if i + 1 < |s| && s[i] <= s[i + 1] {
      AscEndMaximal(s, i + 1);
      SortedRangeJoin(s, i, i + 1, AscEnd(s, i) + 1);
    }
  }

  lemma {:induction false} DescEndMaximal(s: seq<int>, i: int)
    requires 0 <= i < |s|
    ensures NonIncreasingRange(s, i, DescEnd(s, i) + 1)
    ensures DescEnd(s, i) == |s| - 1 || s[DescEnd(s, i)] < s[DescEnd(s, i) + 1]
    decreases |s| - i
  {
    if i + 1 < |s| && s[i] >= s[i + 1] {
      DescEndMaximal(s, i + 1);
      var e := DescEnd(s, i);
      forall p, q | i <= p < q < e + 1 ensures s[p] >= s[q] {
        if p == i && q > i + 1 {
          assert s[i + 1] >= s[q];
        }
      }
    }
  }

  lemma {:induction false} EqEndMaximal(s: seq<int>, i: int)
    requires 0 <= i < |s|
    ensures forall k :: i <= k <= EqEnd(s, i) ==> s[k] == s[i]
    ensures EqEnd(s, i) == |s| - 1 || s[EqEnd(s, i)] != s[EqEnd(s, i) + 1]
    decreases |s| - i
  {
    if i + 1 < |s| && s[i] == s[i + 1] {
      EqEndMaximal(s, i + 1);
    }
  }

  /** Ascending from any point of a non-decreasing stretch reaches the same end. */
  lemma {:induction false} AscEndFrom(s: seq<int>, i: int, k: int)
    requires 0 <= i < |s| && i <= k <= AscEnd(s, i)
    ensures AscEnd(s, k) == AscEnd(s, i)
    decreases k - i
  {
    if i < k {
      AscEndFrom(s, i + 1, k);
    }
  }

  /** Descending from any point of a non-increasing stretch reaches the same end. */
  lemma {:induction false} DescEndFrom(s: seq<int>, i: int, k: int)
    requires 0 <= i < |s| && i <= k <= DescEnd(s, i)
    ensures DescEnd(s, k) == DescEnd(s, i)
    decreases k - i
  {
    if i < k {
      DescEndFrom(s, i + 1, k);
    }
  }

  /** A stretch of equal elements is both non-decreasing and non-increasing. */
  lemma {:induction false} EqEndWithinRuns(s: seq<int>, i: int)
    requires 0 <= i < |s|
    ensures EqEnd(s, i) <= AscEnd(s, i) && EqEnd(s, i) <= DescEnd(s, i)
    decreases |s| - i
  {
    if i + 1 < |s| && s[i] == s[i + 1] {
      EqEndWithinRuns(s, i + 1);
    }
  }

  /** A flat ascent consists of equal elements only. */
  lemma {:induction false} FlatAscent(s: seq<int>, start: int)
    requires 0 <= start < |s| && IsDescending(s, start)
    ensures forall k :: start <= k <= AscEnd(s, start) ==> s[k] == s[start]
    ensures AscEnd(s, start) <= DescEnd(s, start)
  {
    AscEndMaximal(s, start);
    var j := AscEnd(s, start);
    forall k | start <= k <= j ensures s[k] == s[start] {
      assert s[start] <= s[k] <= s[j];
    }
    FlatWithinDesc(s, start, j);
  }

  lemma {:induction false} FlatWithinDesc(s: seq<int>, i: int, j: int)
    requires 0 <= i <= j < |s|
    requires forall k :: i <= k <= j ==> s[k] == s[i]
    ensures j <= DescEnd(s, i)
    decreases j - i
  {
    if i < j {
      FlatWithinDesc(s, i + 1, j);
    }
  }

  /**
    The natural run: it lies inside s, normalisation sorts it, permutes s,
    and changes nothing outside it; an ascending run is maximal and rises
    strictly, a descending one is maximal and non-increasing.
   */
  lemma {:induction false} NaturalRunSpec(s: seq<int>, start: int)
    requires 0 <= start < |s|
    ensures start <= NaturalRunEnd(s, start) < |s|
    ensures |Normalized(s, start)| == |s|
    ensures SortedRange(Normalized(s, start), start, NaturalRunEnd(s, start) + 1)
    ensures multiset(Normalized(s, start)) == multiset(s)
    ensures SameOutside(s, Normalized(s, start), start, NaturalRunEnd(s, start) + 1)
    ensures !IsDescending(s, start) ==> AscendingRun(s, start, NaturalRunEnd(s, start))
    ensures IsDescending(s, start) ==> DescendingRun(s, start, NaturalRunEnd(s, start))
  {
    if IsDescending(s, start) {
      DescendingCase(s, start);
    } else {
      AscendingCase(s, start);
    }
  }

  /** NaturalRunSpec, read on a sequence t known to be the normalised one. */
  lemma {:induction false} NormalizedRun(s: seq<int>, t: seq<int>, start: int, end: int)
    requires 0 <= start < |s| && t == Normalized(s, start) && end == NaturalRunEnd(s, start)
    ensures start <= end < |s| == |t|
    ensures SortedRange(t, start, end + 1)
    ensures SameOutside(s, t, start, end + 1)
    ensures multiset(t) == multiset(s)
  {
    NaturalRunSpec(s, start);
  }

  /** s[start..e] is a maximal non-decreasing run that rises above s[start]. */
  predicate AscendingRun(s: seq<int>, start: int, e: int) {
    && 0 <= start <= e < |s|
    && SortedRange(s, start, e + 1)
    && s[start] < s[e]
    && (e == |s| - 1 || s[e] > s[e + 1])
  }

  /** s[start..e] is a maximal non-increasing run. */
  predicate DescendingRun(s: seq<int>, start: int, e: int) {
    && 0 <= start <= e < |s|
    && NonIncreasingRange(s, start, e + 1)
    && (e == |s| - 1 || s[e] < s[e + 1])
  }

  lemma {:induction false} AscendingCase(s: seq<int>, start: int)
    requires 0 <= start < |s| && !IsDescending(s, start)
    ensures Normalized(s, start) == s
    ensures AscendingRun(s, start, NaturalRunEnd(s, start))
  {
    AscEndMaximal(s, start);
  }

  lemma DescendingCase(s: seq<int>, start: int)
    requires 0 <= start < |s| && IsDescending(s, start)
    ensures |Normalized(s, start)| == |s|
    ensures SortedRange(Normalized(s, start), start, NaturalRunEnd(s, start) + 1)
    ensures multiset(Normalized(s, start)) == multiset(s)
    ensures SameOutside(s, Normalized(s, start), start, NaturalRunEnd(s, start) + 1)
    ensures DescendingRun(s, start, NaturalRunEnd(s, start))
  {
    DescendingShape(s, start);
    DescendingEnd(s, start);
  }

  /** A descending run is reversed in place into an ascending one. */
  lemma DescendingShape(s: seq<int>, start: int)
    requires 0 <= start < |s| && IsDescending(s, start)
    ensures |Normalized(s, start)| == |s|
    ensures SortedRange(Normalized(s, start), start, NaturalRunEnd(s, start) + 1)
    ensures multiset(Normalized(s, start)) == multiset(s)
    ensures SameOutside(s, Normalized(s, start), start, NaturalRunEnd(s, start) + 1)
  {
    var e := DescEnd(s, start);
    DescEndMaximal(s, start);
    assert NaturalRunEnd(s, start) == e;
    assert Normalized(s, start) == ReverseRange(s, start, e + 1);
    ReverseRangeProperties(s, start, e + 1);
  }

  /** A descending natural run is maximal: it cannot be extended. */
  lemma DescendingEnd(s: seq<int>, start: int)
    requires 0 <= start < |s| && IsDescending(s, start)
    ensures DescendingRun(s, start, NaturalRunEnd(s, start))
  {
    DescEndMaximal(s, start);
  }

  /**
    The equal-prefix scan rule agrees with the ascend-first one: ascending
    or descending from the end of the equal prefix reaches the same ends,
    and the run is descending exactly when the ascent makes no progress
    beyond the equal prefix.
   */
  lemma {:induction false} EqualPrefixRule(s: seq<int>, start: int)
    requires 0 <= start < |s|
    ensures EqEnd(s, start) <= AscEnd(s, start) && EqEnd(s, start) <= DescEnd(s, start)
    ensures AscEnd(s, EqEnd(s, start)) == AscEnd(s, start)
    ensures DescEnd(s, EqEnd(s, start)) == DescEnd(s, start)
    ensures IsDescending(s, start) <==> AscEnd(s, start) == EqEnd(s, start)
  {
    var e := EqEnd(s, start);
    EqEndWithinRuns(s, start);
    AscEndFrom(s, start, e);
    DescEndFrom(s, start, e);
    EqEndMaximal(s, start);
    if IsDescending(s, start) {
      FlatAscent(s, start);
      FlatWithinEq(s, start, AscEnd(s, start));
    }
  }

  lemma {:induction false} FlatWithinEq(s: seq<int>, i: int, j: int)
    requires 0 <= i <= j < |s|
    requires forall k :: i <= k <= j ==> s[k] == s[i]
    ensures j <= EqEnd(s, i)
    decreases j - i
  {
    if i < j {
      FlatWithinEq(s, i + 1, j);
    }
  }

  // ---------------------------------------------------------------------
  // A scan reads only the array from its start on

  /** The scan ends from i depend only on the elements at or after lo <= i. */
  lemma {:induction false} ScanFrame(s: seq<int>, t: seq<int>, lo: int, i: int)
    requires 0 <= lo <= i < |s| && SameOutside(s, t, 0, lo)
    ensures AscEnd(s, i) == AscEnd(t, i) && DescEnd(s, i) == DescEnd(t, i)
    decreases |s| - i
  {
    if i + 1 < |s| {
      ScanFrame(s, t, lo, i + 1);
    }
  }

  /** The natural run from start depends only on the elements from start on. */
  lemma {:induction false} NaturalRunFrame(s: seq<int>, t: seq<int>, start: int)
    requires 0 <= start < |s| && SameOutside(s, t, 0, start)
    ensures NaturalRunEnd(s, start) == NaturalRunEnd(t, start)
  {
    ScanFrame(s, t, start, start);
  }

  /** On a sorted suffix the natural run reaches the last index. */
  lemma {:induction false} SortedNaturalRun(s: seq<int>, start: int)
    requires 0 <= start < |s| && SortedRange(s, start, |s|)
    ensures NaturalRunEnd(s, start) == |s| - 1
  {
    SortedAscEnd(s, start);
    if IsDescending(s, start) {
      FlatDescEnd(s, start, start);
    }
  }

  lemma {:induction false} SortedAscEnd(s: seq<int>, i: int)
    requires 0 <= i < |s| && SortedRange(s, i, |s|)
    ensures AscEnd(s, i) == |s| - 1
    decreases |s| - i
  {
    if i + 1 < |s| {
      SortedAscEnd(s, i + 1);
    }
  }

  lemma {:induction false} FlatDescEnd(s: seq<int>, start: int, i: int)
    requires 0 <= start <= i < |s| && SortedRange(s, start, |s|) && s[start] == s[|s| - 1]
    ensures DescEnd(s, i) == |s| - 1
    decreases |s| - i
  {
    if i + 1 < |s| {
      assert s[start] <= s[i] <= s[i + 1] <= s[|s| - 1];
      FlatDescEnd(s, start, i + 1);
    }
  }
}
