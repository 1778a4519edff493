/**
  The comparison-counting top-down merge sort: a list is split at
  len // 2, both halves are sorted recursively, and the sorted halves are
  merged by a loop that appends to a new list, taking from the left on
  ties. Every call returns the sorted list with the number of element
  comparisons it made.
 */
module MergeSort {
  import opened Order
  import opened Arith

  /**
    The merge of two lists with its count: the result is the stable merge
    of left and right and the count is one comparison per element placed
    while both lists last (Order proves the merge sorted, a permutation of
    its inputs, and its count bounds).
   */
  method Merge(left: seq<int>, right: seq<int>) returns (merged: seq<int>, comparisons: int)
    ensures merged == StableMerge(left, right)
    ensures comparisons == MergeComparisons(left, right)
  {
    var li, ri;
    merged, comparisons, li, ri := MergeHeads(left, right);
    while li < |left|
      invariant 0 <= li <= |left|
      invariant merged + left[li..] + right[ri..] == StableMerge(left, right)
    {
      AppendNext(merged, left, li);
      merged := merged + [left[li]];
      li := li + 1;
    }
    while ri < |right|
      invariant 0 <= ri <= |right|
      invariant merged + right[ri..] == StableMerge(left, right)
    {
      AppendNext(merged, right, ri);
      merged := merged + [right[ri]];
      ri := ri + 1;
    }
  }

  /**
    The main loop of Merge: while both lists last, the smaller head is
    appended (the left one on ties) at one comparison each; what is still
    to come is one of the lists' rest, appended as it is.
   */
  method MergeHeads(left: seq<int>, right: seq<int>) returns (merged: seq<int>, comparisons: int, li: int, ri: int)
    ensures 0 <= li <= |left| && 0 <= ri <= |right|
    ensures merged + left[li..] + right[ri..] == StableMerge(left, right)
    ensures comparisons == MergeComparisons(left, right)
  {
    comparisons := 0;
    merged := [];
    li, ri := 0, 0;
    while li < |left| && ri < |right|
      invariant 0 <= li <= |left| && 0 <= ri <= |right|
      invariant merged + StableMerge(left[li..], right[ri..]) == StableMerge(left, right)
      invariant comparisons + MergeComparisons(left[li..], right[ri..]) == MergeComparisons(left, right)
      decreases |left| - li + |right| - ri
    {
      StableMergeStep(left, right, li, ri);
      if left[li] <= right[ri] {
        TakeLeft(merged, left, right, li, ri);
        merged := merged + [left[li]];
        li := li + 1;
      } else {
        TakeRight(merged, left, right, li, ri);
        merged := merged + [right[ri]];
        ri := ri + 1;
      }
      comparisons := comparisons + 1;
    }
    assert MergeComparisons(left[li..], right[ri..]) == 0;
    MergeExhausted(merged, left, right, li, ri);
  }

  /** Appending the next element of a tail loop keeps the merged prefix and the rest together. */
  lemma {:induction false} AppendNext(done: seq<int>, xs: seq<int>, i: int)
    requires 0 <= i < |xs|
    ensures (done + [xs[i]]) + xs[i + 1..] == done + xs[i..]
  {
    assert xs[i..] == [xs[i]] + xs[i + 1..];
  }

  /**
    What merge_sort returns: a sorted permutation of s with the number of
    comparisons made; a list of at most one element is returned as it is
    at no cost. The count is bounded in MergeSortedCost.
   */
  function MergeSorted(s: seq<int>): (r: (seq<int>, int))
    ensures Sorted(r.0) && multiset(r.0) == multiset(s) && |r.0| == |s|
    ensures |s| <= 1 ==> r == (s, 0)
    decreases |s|
  {
    if |s| <= 1 then (s, 0)
    else
      var m := |s| / 2;
      var left := MergeSorted(s[..m]);
      var right := MergeSorted(s[m..]);
      MergedHalves(s, m, left.0, right.0);
      (StableMerge(left.0, right.0), left.1 + right.1 + MergeComparisons(left.0, right.0))
  }

  /** Merging sorted permutations of the two halves of s gives a sorted permutation of s. */
  lemma {:induction false} MergedHalves(s: seq<int>, m: int, left: seq<int>, right: seq<int>)
    requires 0 <= m <= |s|
    requires Sorted(left) && multiset(left) == multiset(s[..m]) && |left| == m
    requires Sorted(right) && multiset(right) == multiset(s[m..]) && |right| == |s| - m
    ensures var r := StableMerge(left, right); Sorted(r) && multiset(r) == multiset(s) && |r| == |s|
  {
    StableMergeMultiset(left, right);
    StableMergeSorted(left, right);
    assert s == s[..m] + s[m..];
  }

  /**
    The count of a non-empty list of n elements: each of the n - 1 merges
    costs at least one comparison, and in all there are at most
    n * ceil(log2 n) - n + 1.
   */
  lemma {:induction false} MergeSortedCost(s: seq<int>)
    requires |s| >= 1
    ensures |s| - 1 <= MergeSorted(s).1 <= |s| * Halvings(|s|) - |s| + 1
  {
    MergeSortedBudget(s);
    BudgetIsProduct(Halvings(|s|), |s|);
  }

  /** MergeSortedCost with the product n * ceil(log2 n) written as a Budget. */
  lemma {:induction false} MergeSortedBudget(s: seq<int>)
    requires |s| >= 1
    ensures |s| - 1 <= MergeSorted(s).1 <= Budget(Halvings(|s|), |s|) - |s| + 1
    decreases |s|
  {
    if |s| > 1 {
      var m := |s| / 2;
      var d := MergeSortedStep(s);
      var ls, rs := s[..m], s[m..];
      MergeSortedBudget(ls);
      MergeSortedBudget(rs);
      SplitCost(|s|, |ls|, |rs|, MergeSorted(ls).1, MergeSorted(rs).1, d);
    }
  }

  /**
    One level of the recursion: the count of s is those of its halves plus
    the d comparisons of merging their results, and d is between 1 and
    |s| - 1.
   */
  lemma {:induction false} MergeSortedStep(s: seq<int>) returns (d: int)
    requires |s| > 1
    ensures var fl, ce := |s[..|s| / 2]|, |s[|s| / 2..]|; fl + ce == |s| && 1 <= fl <= ce <= fl + 1
    ensures MergeSorted(s).1 == MergeSorted(s[..|s| / 2]).1 + MergeSorted(s[|s| / 2..]).1 + d
    ensures 1 <= d <= |s| - 1
  {
    var m := |s| / 2;
    var left, right := MergeSorted(s[..m]), MergeSorted(s[m..]);
    d := MergeComparisons(left.0, right.0);
    MergeComparisonsBounds(left.0, right.0);
  }

  /**
    The two recursive costs and the final merge's stay within the bound
    for n = fl + ce: the halves have fl = n / 2 and ce = (n + 1) / 2
    elements, and the larger half needs one halving fewer than n.
   */
  lemma {:induction false} SplitCost(n: int, fl: int, ce: int, cl: int, cr: int, d: int)
    requires n == fl + ce && 1 <= fl <= ce <= fl + 1
    requires fl - 1 <= cl <= Budget(Halvings(fl), fl) - fl + 1
    requires ce - 1 <= cr <= Budget(Halvings(ce), ce) - ce + 1
    requires 1 <= d <= n - 1
    ensures n - 1 <= cl + cr + d <= Budget(Halvings(n), n) - n + 1
  {
    BudgetIsProduct(Halvings(fl), fl);
    BudgetIsProduct(Halvings(ce), ce);
    BudgetIsProduct(Halvings(n), n);
    assert ce == (n + 1) / 2;
    assert Halvings(n) == 1 + Halvings(ce);
    HalvingsMonotone(fl, ce);
    CostArith(n, fl, ce, Halvings(fl), Halvings(ce), Halvings(n), cl, cr, d);
  }

  /** The arithmetic of SplitCost, with the halvings as plain numbers. */
  lemma {:induction false} CostArith(n: int, fl: int, ce: int, hf: int, h: int, hn: int, cl: int, cr: int, d: int)
    requires n == fl + ce && 1 <= fl && hf <= h && hn == h + 1
    requires cl <= hf * fl - fl + 1 && cr <= h * ce - ce + 1 && d <= n - 1
    ensures cl + cr + d <= hn * n - n + 1
  {
    assert hf * fl <= h * fl by {
      assert h * fl - hf * fl == (h - hf) * fl;
    }
    assert hn * n == n * hn;
    assert h * fl == fl * h && h * ce == ce * h;
    assert n * hn == n * h + n;
    assert n * h == fl * h + ce * h;
  }

  /**
    merge_sort itself: the recursion on the two halves, with the merge
    loop, computes MergeSorted.
   */
  method MergeSort(arr: seq<int>) returns (sorted: seq<int>, comparisons: int)
    ensures sorted == MergeSorted(arr).0 && comparisons == MergeSorted(arr).1
    decreases |arr|
  {
    if |arr| <= 1 {
      return arr, 0;
    }
    comparisons := 0;
    var m := |arr| / 2;
    var left, diff := MergeSort(arr[..m]);
    comparisons := comparisons + diff;
    var right, diff2 := MergeSort(arr[m..]);
    comparisons := comparisons + diff2;
    var d;
    sorted, d := Merge(left, right);
    comparisons := comparisons + d;
    MergeSortedSplit(arr);
  }

  /** MergeSorted of a list of two or more elements, in terms of its halves. */
  lemma {:induction false} MergeSortedSplit(s: seq<int>)
    requires |s| > 1
    ensures var left, right := MergeSorted(s[..|s| / 2]), MergeSorted(s[|s| / 2..]);
      MergeSorted(s).0 == StableMerge(left.0, right.0) &&
      MergeSorted(s).1 == left.1 + right.1 + MergeComparisons(left.0, right.0)
  {
  }
}
