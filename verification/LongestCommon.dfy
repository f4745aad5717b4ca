/** The longest common substring, by dynamic programming over the ends of common suffixes. */
module LongestCommon {

  /** x occurs in s as a contiguous piece. */
  predicate IsIn(x: string, s: string) {
    exists k :: 0 <= k <= |s| - |x| && OccursAt(x, s, k)
  }

  predicate OccursAt(x: string, s: string, k: nat)
    requires k <= |s| - |x|
  {
    s[k..k + |x|] == x
  }

  /** Length of the longest common suffix of a[..i] and b[..j]. */
  function Suffix(a: string, b: string, i: nat, j: nat): (n: nat)
    requires i <= |a| && j <= |b|
    ensures n <= i && n <= j
    decreases i
  {
    if i == 0 || j == 0 || a[i - 1] != b[j - 1] then 0 else 1 + Suffix(a, b, i - 1, j - 1)
  }

  /** n characters ending at i in a and at j in b agree exactly when n is at most that length. */
  lemma {:induction false} SuffixMeaning(a: string, b: string, i: nat, j: nat, n: nat)
    requires n <= i <= |a| && n <= j <= |b|
    ensures a[i - n..i] == b[j - n..j] <==> n <= Suffix(a, b, i, j)
    decreases i
  {
    if n > 0 {
      var x, y := a[i - n..i], b[j - n..j];
      assert x == a[i - n..i - 1] + [a[i - 1]] && y == b[j - n..j - 1] + [b[j - 1]];
      if a[i - 1] == b[j - 1] {
        SuffixMeaning(a, b, i - 1, j - 1, n - 1);
        assert x[..n - 1] == a[i - n..i - 1] && y[..n - 1] == b[j - n..j - 1];
      } else {
        assert x[n - 1] != y[n - 1];
      }
    } else {
      assert a[i..i] == b[j..j] == "";
    }
  }

  /** Every common substring is a common suffix somewhere. */
  lemma CommonIsSuffix(x: string, a: string, b: string) returns (i: nat, j: nat)
    requires IsIn(x, a) && IsIn(x, b)
    ensures |x| <= i <= |a| && |x| <= j <= |b| && |x| <= Suffix(a, b, i, j)
  {
    var k :| 0 <= k <= |a| - |x| && OccursAt(x, a, k);
    var l :| 0 <= l <= |b| - |x| && OccursAt(x, b, l);
    i, j := k + |x|, l + |x|;
    SuffixMeaning(a, b, i, j, |x|);
  }

  /** No common suffix is longer than n. */
  ghost predicate Longest(a: string, b: string, n: nat) {
    forall i, j :: 0 <= i <= |a| && 0 <= j <= |b| ==> Suffix(a, b, i, j) <= n
  }

  lemma LongestMeaning(a: string, b: string, n: nat)
    requires Longest(a, b, n)
    ensures forall x :: IsIn(x, a) && IsIn(x, b) ==> |x| <= n
  {
    forall x | IsIn(x, a) && IsIn(x, b) ensures |x| <= n {
      var i, j := CommonIsSuffix(x, a, b);
    }
  }

  lemma PieceIsCommon(a: string, b: string, i: nat, j: nat)
    requires i <= |a| && j <= |b|
    ensures var x := a[i - Suffix(a, b, i, j)..i]; IsIn(x, a) && IsIn(x, b)
  {
    var n := Suffix(a, b, i, j);
    SuffixMeaning(a, b, i, j, n);
    var x := a[i - n..i];
    assert OccursAt(x, a, i - n) && OccursAt(x, b, j - n);
  }

  /** Visited before (i, j), row by row. */
  predicate Before(x: int, y: int, i: nat, j: nat) {
    x < i || (x == i && y < j)
  }

  /** Piece number l of n characters of a is not in b. */
  predicate NotShared(a: string, b: string, n: nat, l: nat)
    requires l + n <= |a|
  {
    !IsIn(a[l..l + n], b)
  }

  predicate FirstCommon(a: string, b: string, n: nat, k: nat)
    requires k + n <= |a|
  {
    forall l :: 0 <= l < k ==> NotShared(a, b, n, l)
  }

  /** A common substring, and there is no longer one and none as long that begins earlier in a. */
  method StringLcs(a: string, b: string) returns (r: string)
    ensures IsIn(r, a) && IsIn(r, b)
    ensures forall x :: IsIn(x, a) && IsIn(x, b) ==> |x| <= |r|
    ensures exists k :: 0 <= k <= |a| - |r| && OccursAt(r, a, k) && FirstCommon(a, b, |r|, k)
  {
    if a == "" || b == "" {
      assert OccursAt("", a, 0) && OccursAt("", b, 0) && FirstCommon(a, b, 0, 0);
      return "";
    }
    hide Suffix, Best, IsIn, Before, FirstCommon, OccursAt;
    var dp := new nat[|a| + 1, |b| + 1]((_, _) => 0);
    var bestLen: nat, bestEndA: nat := 0, 0;
    ghost var bestEndB: nat := 0;
    Edges(a, b);
    BestFirst(a, b);
    var i := 1;
    while i <= |a|
      invariant 1 <= i <= |a| + 1
      invariant Filled(dp, a, b, i, 1)
      invariant Best(a, b, i, 1, bestLen, bestEndA, bestEndB)
    {
      var j := 1;
      while j <= |b|
        invariant 1 <= j <= |b| + 1
        invariant Filled(dp, a, b, i, j)
        invariant Best(a, b, i, j, bestLen, bestEndA, bestEndB)
      {
        Cell(a, b, i, j);
        Visits(i, j);
        BestStep(a, b, i, j, bestLen, bestEndA, bestEndB);
        if a[i - 1] == b[j - 1] {
          dp[i, j] := dp[i - 1, j - 1] + 1;
          if dp[i, j] > bestLen {
            bestLen := dp[i, j];
            bestEndA := i;
            bestEndB := j;
          }
        }
        j := j + 1;
      }
      NextRow(|a|, |b|, i, i + 1);
      BestNextRow(a, b, i, bestLen, bestEndA, bestEndB);
      i := i + 1;
    }
    Found(a, b, bestLen, bestEndA, bestEndB);
    r := a[bestEndA - bestLen..bestEndA];
  }

  /** What the filled table shows. */
  lemma Found(a: string, b: string, n: nat, endA: nat, endB: nat)
    requires Best(a, b, |a| + 1, 1, n, endA, endB)
    ensures n <= endA <= |a|
    ensures var r := a[endA - n..endA];
      && IsIn(r, a) && IsIn(r, b) && (forall x :: IsIn(x, a) && IsIn(x, b) ==> |x| <= |r|)
      && exists k :: 0 <= k <= |a| - |r| && OccursAt(r, a, k) && FirstCommon(a, b, |r|, k)
  {
    hide Suffix;
    BestLast(a, b, n, endA, endB);
    PieceIsCommon(a, b, endA, endB);
    LongestMeaning(a, b, n);
    EarliestPiece(a, b, n, endA, endB);
  }

  lemma EarlierDiffers(a: string, b: string, n: nat, endA: nat, endB: nat, l: nat, k: nat)
    requires Best(a, b, |a| + 1, 1, n, endA, endB) && l + n < endA && k + n <= |b|
    ensures b[k..k + n] != a[l..l + n]
  {
    assert Before(l + n, k + n, |a| + 1, 1);
    SuffixMeaning(a, b, l + n, k + n, n);
  }

  lemma EarlierIsShorter(a: string, b: string, n: nat, endA: nat, endB: nat, l: nat)
    requires Best(a, b, |a| + 1, 1, n, endA, endB) && l + n < endA <= |a|
    ensures NotShared(a, b, n, l)
  {
    assert l + n <= |a|;
    hide Best;
    var x := a[l..l + n];
    forall k | 0 <= k <= |b| - |x| ensures !OccursAt(x, b, k) { EarlierDiffers(a, b, n, endA, endB, l, k); }
  }

  lemma EarliestPiece(a: string, b: string, n: nat, endA: nat, endB: nat)
    requires Best(a, b, |a| + 1, 1, n, endA, endB)
    ensures n <= endA <= |a|
    ensures var r := a[endA - n..endA]; exists k :: 0 <= k <= |a| - |r| && OccursAt(r, a, k) && FirstCommon(a, b, |r|, k)
  {
    hide Suffix;
    var r, k := a[endA - n..endA], endA - n;
    forall l | 0 <= l < k ensures NotShared(a, b, n, l) { EarlierIsShorter(a, b, n, endA, endB, l); }
    assert OccursAt(r, a, k) && FirstCommon(a, b, |r|, k);
  }

  /** The visited cells hold the suffix lengths, the others are still zero. */
  ghost predicate Filled(dp: array2<nat>, a: string, b: string, i: nat, j: nat)
    reads dp
  {
    && dp.Length0 == |a| + 1 && dp.Length1 == |b| + 1
    && forall x, y :: 0 <= x <= |a| && 0 <= y <= |b| ==>
         dp[x, y] == if Before(x, y, i, j) then Suffix(a, b, x, y) else 0
  }

  /** The best length so far is reached, no visited cell has more, and none that ends earlier in a has as much. */
  ghost predicate Best(a: string, b: string, i: nat, j: nat, n: nat, endA: nat, endB: nat) {
    && endA <= |a| && endA <= i && endB <= |b| && n == Suffix(a, b, endA, endB)
    && forall x, y :: 0 <= x <= |a| && 0 <= y <= |b| && Before(x, y, i, j) ==>
         Suffix(a, b, x, y) <= n && (x < endA ==> Suffix(a, b, x, y) < n)
  }

  lemma Edges(a: string, b: string)
    ensures forall x, y :: 0 <= x <= |a| && 0 <= y <= |b| && Before(x, y, 1, 1) ==> Suffix(a, b, x, y) == 0
  {}

  lemma Cell(a: string, b: string, i: nat, j: nat)
    requires 1 <= i <= |a| && 1 <= j <= |b|
    ensures Suffix(a, b, i, j) == if a[i - 1] == b[j - 1] then Suffix(a, b, i - 1, j - 1) + 1 else 0
  {}

  /** The cell (i, j) is the only one visited next. */
  lemma Visits(i: nat, j: nat)
    requires i >= 1 && j >= 1
    ensures forall x, y :: Before(x, y, i, j + 1) <==> Before(x, y, i, j) || (x == i && y == j)
    ensures Before(i - 1, j - 1, i, j) && !Before(i, j, i, j)
  {}

  /** Starting a row visits no cell but its zero edge. */
  lemma NextRow(m: nat, n: nat, i: nat, next: nat)
    requires next == i + 1
    ensures forall x, y :: 0 <= x <= m && 0 <= y <= n ==>
      (Before(x, y, next, 1) <==> Before(x, y, i, n + 1) || (x == next && y == 0))
  {}

  lemma BestFirst(a: string, b: string)
    ensures Best(a, b, 1, 1, 0, 0, 0)
  {}

  lemma BestStep(a: string, b: string, i: nat, j: nat, n: nat, endA: nat, endB: nat)
    requires 1 <= i <= |a| && 1 <= j <= |b| && Best(a, b, i, j, n, endA, endB)
    ensures Suffix(a, b, i, j) <= n ==> Best(a, b, i, j + 1, n, endA, endB)
    ensures Suffix(a, b, i, j) > n ==> Best(a, b, i, j + 1, Suffix(a, b, i, j), i, j)
  {
    hide Suffix;
  }

  lemma BestNextRow(a: string, b: string, i: nat, n: nat, endA: nat, endB: nat)
    requires Best(a, b, i, |b| + 1, n, endA, endB)
    ensures Best(a, b, i + 1, 1, n, endA, endB)
  {
    var next := i + 1;
    forall x, y | 0 <= x <= |a| && 0 <= y <= |b| && Before(x, y, next, 1)
      ensures Suffix(a, b, x, y) <= n && (x < endA ==> Suffix(a, b, x, y) < n)
    {
      assert Before(x, y, i, |b| + 1) || y == 0;
    }
  }

  lemma BestLast(a: string, b: string, n: nat, endA: nat, endB: nat)
    requires Best(a, b, |a| + 1, 1, n, endA, endB)
    ensures Longest(a, b, n) && endA <= |a| && endB <= |b| && n == Suffix(a, b, endA, endB)
  {
    hide Suffix;
    forall x, y | 0 <= x <= |a| && 0 <= y <= |b| ensures Suffix(a, b, x, y) <= n { assert Before(x, y, |a| + 1, 1); }
  }
}
