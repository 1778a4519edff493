/**
  Runs (closed index intervals of the array) and sequences of runs that tile
  an index range from left to right, as produced by run detection and kept on
  the schedulers' stacks.
 */
module Runs {
  import opened Order

  datatype Option<T> = None | Some(value: T)

  /** The run [start, end]; both ends inclusive. */
  datatype Run = Run(start: int, end: int) {
    function Len(): int {
      end - start + 1
    }
  }

  /**
    `runs` tiles [lo, hi): the first run starts at lo, each run starts right
    after its predecessor ends, the last one ends at hi - 1, and none is empty.
   */
  predicate Tiles(runs: seq<Run>, lo: int, hi: int) {
    && (|runs| == 0 ==> lo == hi)
    && (|runs| > 0 ==> runs[0].start == lo && runs[|runs| - 1].end + 1 == hi)
    && (forall k :: 0 <= k < |runs| ==> lo <= runs[k].start <= runs[k].end < hi)
    && (forall k :: 0 <= k < |runs| - 1 ==> runs[k].end + 1 == runs[k + 1].start)
  }

  /** Every run of `runs` is a sorted range of s. */
  predicate AllSorted(s: seq<int>, runs: seq<Run>) {
    forall k :: 0 <= k < |runs| ==> SortedRange(s, runs[k].start, runs[k].end + 1)
  }

  /** Pushing a run that starts where the tiled range ends extends the tiling. */
  lemma {:induction false} TilesPush(runs: seq<Run>, r: Run, lo: int)
    requires Tiles(runs, lo, r.start) && r.start <= r.end
    ensures Tiles(runs + [r], lo, r.end + 1)
  {
  }

  /** The tail of a tiling from index k tiles the rest of the range. */
  lemma {:induction false} TilesSuffix(runs: seq<Run>, lo: int, hi: int, k: int)
    requires Tiles(runs, lo, hi) && 0 <= k < |runs|
    ensures Tiles(runs[k..], runs[k].start, hi)
    ensures k > 0 ==> runs[k].start == runs[k - 1].end + 1
  {
    var t := runs[k..];
    forall q | 0 <= q < |t| - 1 ensures t[q].end + 1 == t[q + 1].start {
      assert t[q] == runs[k + q] && t[q + 1] == runs[k + q + 1];
    }
    forall q | 0 <= q < |t| ensures runs[k].start <= t[q].start {
      RunsIncrease(runs, lo, hi, k, k + q);
    }
  }

  /** Dropping the first run leaves a tiling of the rest. */
  lemma {:induction false} TilesTail(runs: seq<Run>, lo: int, hi: int)
    requires Tiles(runs, lo, hi) && |runs| > 0
    ensures Tiles(runs[1..], runs[0].end + 1, hi)
  {
    if |runs| > 1 {
      TilesSuffix(runs, lo, hi, 1);
    }
  }

  lemma {:induction false} RunsIncrease(runs: seq<Run>, lo: int, hi: int, i: int, j: int)
    requires Tiles(runs, lo, hi) && 0 <= i <= j < |runs|
    ensures runs[i].start <= runs[j].start
    ensures i < j ==> runs[i].end < runs[j].start
    decreases j - i
  {
    if i < j {
      RunsIncrease(runs, lo, hi, i, j - 1);
    }
  }

  /** Replacing the top two runs of a tiling by their union keeps the tiling. */
  lemma {:induction false} TilesMergeTop(runs: seq<Run>, lo: int, hi: int)
    requires Tiles(runs, lo, hi) && |runs| >= 2
    ensures Tiles(MergeTop(runs), lo, hi)
  {
  }

  /** Replacing the second and third runs from the top by their union keeps the tiling. */
  lemma {:induction false} TilesMergeSecond(runs: seq<Run>, lo: int, hi: int)
    requires Tiles(runs, lo, hi) && |runs| >= 3
    ensures Tiles(MergeSecond(runs), lo, hi)
  {
    var h := |runs|;
    var t := MergeSecond(runs);
    assert t[h - 3] == Run(runs[h - 3].start, runs[h - 2].end);
    assert t[h - 2] == runs[h - 1];
  }

  /** The stack with its top two runs r2, r1 replaced by Run(r2.start, r1.end). */
  function MergeTop(runs: seq<Run>): (t: seq<Run>)
    requires |runs| >= 2
    ensures |t| == |runs| - 1
  {
    runs[..|runs| - 2] + [Run(runs[|runs| - 2].start, runs[|runs| - 1].end)]
  }

  /** The stack with r3, r2 replaced by Run(r3.start, r2.end) and r1 kept on top. */
  function MergeSecond(runs: seq<Run>): (t: seq<Run>)
    requires |runs| >= 3
    ensures |t| == |runs| - 1
  {
    runs[..|runs| - 3] + [Run(runs[|runs| - 3].start, runs[|runs| - 2].end), runs[|runs| - 1]]
  }

  /**
    A change confined to [lo, hi) keeps sorted every run that lies outside
    it.
   */
  lemma {:induction false} AllSortedFrame(s: seq<int>, t: seq<int>, runs: seq<Run>, lo: int, hi: int)
    requires SameOutside(s, t, lo, hi) && AllSorted(s, runs)
    requires forall k :: 0 <= k < |runs| ==> runs[k].end < lo || hi <= runs[k].start
    ensures AllSorted(t, runs)
  {
    forall k | 0 <= k < |runs| ensures SortedRange(t, runs[k].start, runs[k].end + 1) {
      SortedRangeFrame(s, t, lo, hi, runs[k].start, runs[k].end + 1);
    }
  }

  /** A one-run tiling of [0, n) that is sorted makes the whole sequence sorted. */
  lemma {:induction false} SingleRunSorted(s: seq<int>, runs: seq<Run>)
    requires Tiles(runs, 0, |s|) && |runs| == 1 && AllSorted(s, runs)
    ensures Sorted(s) && runs == [Run(0, |s| - 1)]
  {
  }

  /**
    Detecting the next run: a change confined to the new run r keeps the
    earlier runs sorted, and with r sorted the extended sequence tiles and is
    sorted.
   */
  lemma {:induction false} AllSortedPush(s: seq<int>, t: seq<int>, runs: seq<Run>, r: Run, lo: int)
    requires Tiles(runs, lo, r.start) && r.start <= r.end && AllSorted(s, runs)
    requires SameOutside(s, t, r.start, r.end + 1)
    requires SortedRange(t, r.start, r.end + 1)
    ensures Tiles(runs + [r], lo, r.end + 1)
    ensures AllSorted(t, runs + [r])
  {
    AllSortedFrame(s, t, runs, r.start, r.end + 1);
    TilesPush(runs, r, lo);
    var u := runs + [r];
    forall k | 0 <= k < |u| ensures SortedRange(t, u[k].start, u[k].end + 1) {
      if k < |runs| {
        assert u[k] == runs[k];
      }
    }
  }

  /**
    Merging the top two runs in place: when the change stays inside their
    union and leaves it sorted, the shortened stack still tiles and is
    sorted.
   */
  lemma {:induction false} MergeTopSorted(s: seq<int>, t: seq<int>, runs: seq<Run>, lo: int, hi: int)
    requires Tiles(runs, lo, hi) && |runs| >= 2 && AllSorted(s, runs)
    requires SameOutside(s, t, runs[|runs| - 2].start, runs[|runs| - 1].end + 1)
    requires SortedRange(t, runs[|runs| - 2].start, runs[|runs| - 1].end + 1)
    ensures Tiles(MergeTop(runs), lo, hi) && AllSorted(t, MergeTop(runs))
  {
    var h := |runs|;
    TilesMergeTop(runs, lo, hi);
    var u := MergeTop(runs);
    forall k | 0 <= k < |u| ensures SortedRange(t, u[k].start, u[k].end + 1) {
      if k < h - 2 {
        assert u[k] == runs[k];
        RunsIncrease(runs, lo, hi, k, h - 2);
        SortedRangeFrame(s, t, runs[h - 2].start, runs[h - 1].end + 1, runs[k].start, runs[k].end + 1);
      }
    }
  }

  /**
    Merging the second and third runs from the top in place: the top run
    lies outside the change and stays sorted, and so do the runs below.
   */
  lemma {:induction false} MergeSecondSorted(s: seq<int>, t: seq<int>, runs: seq<Run>, lo: int, hi: int)
    requires Tiles(runs, lo, hi) && |runs| >= 3 && AllSorted(s, runs)
    requires SameOutside(s, t, runs[|runs| - 3].start, runs[|runs| - 2].end + 1)
    requires SortedRange(t, runs[|runs| - 3].start, runs[|runs| - 2].end + 1)
    ensures Tiles(MergeSecond(runs), lo, hi) && AllSorted(t, MergeSecond(runs))
  {
    var h := |runs|;
    TilesMergeSecond(runs, lo, hi);
    var u := MergeSecond(runs);
    forall k | 0 <= k < |u| ensures SortedRange(t, u[k].start, u[k].end + 1) {
      if k < h - 3 {
        assert u[k] == runs[k];
        RunsIncrease(runs, lo, hi, k, h - 3);
        SortedRangeFrame(s, t, runs[h - 3].start, runs[h - 2].end + 1, runs[k].start, runs[k].end + 1);
      } else if k == h - 2 {
        assert u[k] == runs[h - 1];
        SortedRangeFrame(s, t, runs[h - 3].start, runs[h - 2].end + 1, runs[h - 1].start, runs[h - 1].end + 1);
      }
    }
  }

  /** A tiling of [0, n) with n > 0 has between 1 and n runs. */
  lemma {:induction false} RunCount(runs: seq<Run>, n: int)
    requires Tiles(runs, 0, n) && n > 0
    ensures 1 <= |runs| <= n
  {
    if |runs| > n {
      var k := n;
      RunsIncrease(runs, 0, n, 0, k);
      RunStartsGrow(runs, n, k);
      assert false;
    }
  }

  /** Each run starts at least one index after its predecessor, so run k starts at k or later. */
  lemma {:induction false} RunStartsGrow(runs: seq<Run>, n: int, k: int)
    requires Tiles(runs, 0, n) && 0 <= k < |runs|
    ensures runs[k].start >= k
    decreases k
  {
    if k > 0 {
      RunStartsGrow(runs, n, k - 1);
    }
  }
}
