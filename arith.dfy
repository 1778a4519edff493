/**
  Integer arithmetic that the schedulers and the comparison bounds rely on:
  powers of two, and division truncated toward zero as Python's int()
  applies it to a quotient.
 */
module Arith {
  function Pow2(k: nat): (r: nat)
    ensures r >= 1
  {
    if k == 0 then 1 else 2 * Pow2(k - 1)
  }

  lemma {:induction false} Pow2Monotone(i: nat, j: nat)
    requires i <= j
    ensures Pow2(i) <= Pow2(j)
    decreases j - i
  {
    if i < j {
      Pow2Monotone(i, j - 1);
    }
  }

  /** 2^k exceeds k. */
  lemma {:induction false} Pow2Exceeds(k: nat)
    ensures k < Pow2(k)
  {
    if k > 0 {
      Pow2Exceeds(k - 1);
    }
  }

  /**
    x / d rounded toward zero, as int() truncates a float quotient: the
    quotient has the sign of x (or is zero), and less than one d of x is
    lost.
   */
  function TruncDiv(x: int, d: int): (q: int)
    requires d > 0
    ensures x >= 0 ==> q >= 0 && 0 <= x - q * d < d
    ensures x < 0 ==> q <= 0 && 0 <= q * d - x < d
  {
    QuotientBounds(x, d);
    QuotientBounds(-x, d);
    if x >= 0 then x / d else -((-x) / d)
  }

  /** Euclidean division of a non-negative x by a positive d loses less than one d. */
  lemma {:induction false} QuotientBounds(x: int, d: int)
    requires d > 0
    ensures x >= 0 ==> x / d >= 0 && 0 <= x - (x / d) * d < d
  {
    if x >= 0 {
      var q, r := x / d, x % d;
      assert x == q * d + r && 0 <= r < d;
      if q < 0 {
        MulBounds(q, d);
      }
    }
  }

  /** Doubling one factor doubles a positive product and makes it grow. */
  lemma Doubling(g: int, p: int, q: int)
    requires g >= 1 && p >= 1 && q == 2 * p
    ensures g * q == 2 * (g * p) && g * p < g * q
  {
    MulMonotone(1, g, p);
  }

  /** Multiplying by a non-negative factor keeps an inequality. */
  lemma {:induction false} MulMonotone(a: int, b: int, c: int)
    requires a <= b && 0 <= c
    ensures a * c <= b * c
  {
    assert b * c - a * c == (b - a) * c;
  }

  /** Quotients of values strictly between -d and d truncate to zero. */
  lemma {:induction false} TruncDivSmall(x: int, d: int)
    requires d > 0 && -d < x < d
    ensures TruncDiv(x, d) == 0
  {
    if x >= 0 {
      DivSmall(x, d);
    } else {
      DivSmall(-x, d);
    }
  }

  /** A non-negative value below d has quotient zero. */
  lemma {:induction false} DivSmall(x: int, d: int)
    requires 0 <= x < d
    ensures x / d == 0
  {
    var q, r := x / d, x % d;
    assert x == q * d + r && 0 <= r < d;
    MulBounds(q, d);
  }

  /** A multiple q * d of a positive d is at least d when q >= 1, and at most -d when q <= -1. */
  lemma {:induction false} MulBounds(q: int, d: int)
    requires d > 0
    ensures q >= 1 ==> q * d >= d
    ensures q <= -1 ==> q * d <= -d
  {
    if q >= 1 {
      MulMonotone(1, q, d);
    } else if q <= -1 {
      MulMonotone(q, -1, d);
    }
  }

  /**
    k scans that together cover hi elements have cost c comparisons: at
    least one per element (less one per scan when `lax`), and at most w per
    element plus two per scan.
   */
  predicate ScanCounted(c: int, hi: nat, k: int, w: int, lax: bool) {
    (if lax then hi - k else hi) <= c <= Budget(hi, w) + 2 * k
  }

  /** One scan of len elements costing at least len (len - 1 when `lax`) and at most w * len + 2. */
  lemma {:induction false} OneScanCounted(c: int, len: nat, w: int, lax: bool)
    requires (if lax then len - 1 else len) <= c <= w * len + 2
    ensures ScanCounted(c, len, 1, w, lax)
  {
    BudgetIsProduct(len, w);
  }

  /** Adding the count d of j more scans over len more elements: hi' elements and k' scans in all. */
  lemma {:induction false} ScanCountStep(c: int, d: int, hi: nat, len: nat, k: int, j: int, w: int, lax: bool, hi': nat, k': int)
    requires ScanCounted(c, hi, k, w, lax) && ScanCounted(d, len, j, w, lax)
    requires hi' == hi + len && k' == k + j
    ensures ScanCounted(c + d, hi', k', w, lax)
  {
    BudgetAdd(hi, len, w);
  }

  /** The count of k scans over hi elements, as a product: at most w * hi + 2 * k. */
  lemma {:induction false} ScanCountedBound(c: int, hi: nat, k: int, w: int, lax: bool)
    requires ScanCounted(c, hi, k, w, lax)
    ensures (if lax then hi - k else hi) <= c <= w * hi + 2 * k
  {
    BudgetIsProduct(hi, w);
    assert hi * w == w * hi;
  }

  /** m merges have cost c comparisons in all, between 1 and w each. */
  predicate Counted(m: nat, c: int, w: int) {
    m <= c <= Budget(m, w)
  }

  lemma {:induction false} CountedAdd(m: nat, c: int, k: nat, d: int, w: int)
    requires Counted(m, c, w) && Counted(k, d, w)
    ensures Counted(m + k, c + d, w)
  {
    BudgetAdd(m, k, w);
  }

  /** The m merges so far and k more, m' in all, cost between m' and m' * w comparisons. */
  lemma {:induction false} CountedTotal(m: nat, c: int, k: nat, d: int, w: int, m': int)
    requires Counted(m, c, w) && Counted(k, d, w) && m' == m + k
    ensures m' <= c + d <= m' * w
  {
    CountedAdd(m, c, k, d, w);
    BudgetIsProduct(m + k, w);
  }

  /** One more merge costing between 1 and w comparisons. */
  lemma {:induction false} CountedStep(m: nat, c: int, d: int, w: int)
    requires Counted(m, c, w) && 1 <= d <= w
    ensures Counted(m + 1, c + d, w)
  {
    assert Budget(m + 1, w) == Budget(m, w) + w;
  }

  /**
    The most that m steps can cost when each costs at most w comparisons,
    written as repeated addition: it is m * w.
   */
  function Budget(m: nat, w: int): (b: int)
  {
    if m == 0 then 0 else Budget(m - 1, w) + w
  }

  lemma {:induction false} BudgetIsProduct(m: nat, w: int)
    ensures Budget(m, w) == m * w
  {
    if m > 0 {
      BudgetIsProduct(m - 1, w);
      assert m * w == (m - 1) * w + w;
    }
  }

  /** The budget of m + k merges is that of m merges plus that of k more. */
  lemma {:induction false} BudgetAdd(m: nat, k: nat, w: int)
    ensures Budget(m + k, w) == Budget(m, w) + Budget(k, w)
    decreases k
  {
    if k > 0 {
      BudgetAdd(m, k - 1, w);
    }
  }

  /**
    How often k must be halved, rounding up, to reach one: the number of
    pairwise merging passes that reduce k runs to one.
   */
  function Halvings(k: nat): nat
    decreases k
  {
    if k <= 1 then 0 else 1 + Halvings((k + 1) / 2)
  }

  /** Halvings(k) is the ceiling of log2 k: k <= 2^h, and 2^(h-1) < k once k > 1. */
  lemma {:induction false} HalvingsIsCeilLog2(k: nat)
    requires k >= 1
    ensures k <= Pow2(Halvings(k))
    ensures k > 1 ==> Halvings(k) >= 1 && Pow2(Halvings(k) - 1) < k
    decreases k
  {
    if k > 1 {
      var j := (k + 1) / 2;
      HalvingsIsCeilLog2(j);
      assert Pow2(Halvings(k)) == 2 * Pow2(Halvings(j));
    }
  }

  /** More runs never need fewer halvings. */
  lemma {:induction false} HalvingsMonotone(j: nat, k: nat)
    requires j <= k
    ensures Halvings(j) <= Halvings(k)
    decreases k
  {
    if j > 1 {
      HalvingsMonotone((j + 1) / 2, (k + 1) / 2);
    }
  }
}
