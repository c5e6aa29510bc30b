/** Unit-cost Levenshtein distance (`AiDictationViewModel.editDistance`). */
module EditDistance {

  function Min3(x: int, y: int, z: int): (m: int)
    ensures m <= x && m <= y && m <= z
    ensures m == x || m == y || m == z
  {
    if x <= y && x <= z then x else if y <= z then y else z
  }

  /** The least number of single-character insertions, deletions and
      substitutions turning `a[..i]` into `b[..j]`. */
  function Dist(a: string, b: string, i: nat, j: nat): int
    requires i <= |a| && j <= |b|
    decreases i + j
  {
    if i == 0 then j
    else if j == 0 then i
    else Min3(Dist(a, b, i - 1, j) + 1,
              Dist(a, b, i, j - 1) + 1,
              Dist(a, b, i - 1, j - 1) + (if a[i - 1] == b[j - 1] then 0 else 1))
  }

  /** The distance between two whole strings. */
  function Distance(a: string, b: string): int {
    Dist(a, b, |a|, |b|)
  }

  /** Row `r` of the table holds the distances from `a[..r]` to every prefix of `b`. */
  ghost predicate RowDone(dp: array2<int>, a: string, b: string, r: nat)
    requires r < dp.Length0 && dp.Length0 == |a| + 1 && dp.Length1 == |b| + 1
    reads dp
  {
    forall c :: 0 <= c <= |b| ==> dp[r, c] == Dist(a, b, r, c)
  }

  /** The first `j` cells of row `r` hold the distances from `a[..r]` to `b[..c]`. */
  ghost predicate CellsDone(dp: array2<int>, a: string, b: string, r: nat, j: nat)
    requires r < dp.Length0 && dp.Length0 == |a| + 1 && dp.Length1 == |b| + 1 && j <= |b| + 1
    reads dp
  {
    forall c :: 0 <= c < j ==> dp[r, c] == Dist(a, b, r, c)
  }

  /** One pass of the outer loop of `editDistance`: fills row `i` of the
      table from row `i - 1`, cell by cell, and touches nothing else. */
  method FillRow(dp: array2<int>, a: string, b: string, i: nat)
    requires 1 <= i < dp.Length0 && dp.Length0 == |a| + 1 && dp.Length1 == |b| + 1
    requires RowDone(dp, a, b, i - 1) && dp[i, 0] == i
    modifies dp
    ensures RowDone(dp, a, b, i)
    ensures forall r, c :: 0 <= r < dp.Length0 && 0 <= c < dp.Length1 && r != i ==> dp[r, c] == old(dp[r, c])
  {
    var ca := a[i - 1];
    assert CellsDone(dp, a, b, i, 1);
    for j := 1 to |b| + 1
      invariant RowDone(dp, a, b, i - 1)
      invariant CellsDone(dp, a, b, i, j)
      invariant forall r, c :: 0 <= r < dp.Length0 && 0 <= c < dp.Length1 && r != i ==> dp[r, c] == old(dp[r, c])
    {
      var cb := b[j - 1];
      var cost := if ca == cb then 0 else 1;
      assert dp[i - 1, j] == Dist(a, b, i - 1, j) && dp[i - 1, j - 1] == Dist(a, b, i - 1, j - 1);
      assert dp[i, j - 1] == Dist(a, b, i, j - 1);
      var v := Min3(dp[i - 1, j] + 1, dp[i, j - 1] + 1, dp[i - 1, j - 1] + cost);
      assert v == Dist(a, b, i, j);
      dp[i, j] := v;
      assert CellsDone(dp, a, b, i, j + 1);
    }
  }

  /** `editDistance(a, b)`: early exits for an empty side, otherwise a dynamic
      programme over an `(|a|+1) x (|b|+1)` table. */
  method ComputeEditDistance(a: string, b: string) returns (d: int)
    ensures d == Distance(a, b)
    ensures a == [] ==> d == |b|
    ensures b == [] ==> d == |a|
  {
    var n := |a|;
    var m := |b|;
    if n == 0 {
      return m;
    }
    if m == 0 {
      return n;
    }
    var dp := new int[n + 1, m + 1];
    for i := 0 to n + 1
      invariant forall r :: 0 <= r < i ==> dp[r, 0] == r
    {
      dp[i, 0] := i;
    }
    for j := 0 to m + 1
      invariant forall r :: 1 <= r <= n ==> dp[r, 0] == r
      invariant forall c :: 0 <= c < j ==> dp[0, c] == Dist(a, b, 0, c)
    {
      dp[0, j] := j;
    }
    assert RowDone(dp, a, b, 0);
    for i := 1 to n + 1
      invariant forall r :: 0 <= r < i ==> RowDone(dp, a, b, r)
      invariant forall r :: i <= r <= n ==> dp[r, 0] == r
    {
      label before:
      FillRow(dp, a, b, i);
      forall r | 0 <= r < i
        ensures RowDone(dp, a, b, r)
      {
        assert old@before(RowDone(dp, a, b, r));
      }
    }
    assert RowDone(dp, a, b, n);
    return dp[n, m];
  }

  /** The distance never exceeds the longer length. */
  lemma {:induction false} DistUpperBound(a: string, b: string, i: nat, j: nat)
    requires i <= |a| && j <= |b|
    ensures Dist(a, b, i, j) <= if i >= j then i else j
    decreases i + j
  {
    if i > 0 && j > 0 {
      DistUpperBound(a, b, i - 1, j - 1);
      if i > j {
        DistUpperBound(a, b, i - 1, j);
      } else if j > i {
        DistUpperBound(a, b, i, j - 1);
      }
    }
  }

  /** The distance is at least the difference of the lengths. */
  lemma {:induction false} DistLowerBound(a: string, b: string, i: nat, j: nat)
    requires i <= |a| && j <= |b|
    ensures Dist(a, b, i, j) >= i - j && Dist(a, b, i, j) >= j - i
    decreases i + j
  {
    if i > 0 && j > 0 {
      DistLowerBound(a, b, i - 1, j);
      DistLowerBound(a, b, i, j - 1);
      DistLowerBound(a, b, i - 1, j - 1);
    }
  }

  /** The order of the first two candidates does not matter. */
  lemma Min3Swap(x: int, y: int, z: int)
    ensures Min3(x, y, z) == Min3(y, x, z)
  {
  }

  /** The distance is symmetric. */
  lemma {:induction false} DistSymmetric(a: string, b: string, i: nat, j: nat)
    requires i <= |a| && j <= |b|
    ensures Dist(a, b, i, j) == Dist(b, a, j, i)
    decreases i + j
  {
    if i > 0 && j > 0 {
      DistSymmetric(a, b, i - 1, j);
      DistSymmetric(a, b, i, j - 1);
      DistSymmetric(a, b, i - 1, j - 1);
      var cost := if a[i - 1] == b[j - 1] then 0 else 1;
      Min3Swap(Dist(a, b, i - 1, j) + 1, Dist(a, b, i, j - 1) + 1, Dist(a, b, i - 1, j - 1) + cost);
    }
  }

  /** Two non-empty prefixes are equal exactly when the shorter prefixes and
      the last characters are. */
  lemma PrefixesEqual(a: string, b: string, i: nat, j: nat)
    requires 0 < i <= |a| && 0 < j <= |b|
    ensures a[..i] == b[..j] <==> a[..i - 1] == b[..j - 1] && a[i - 1] == b[j - 1]
  {
    assert a[..i] == a[..i - 1] + [a[i - 1]];
    assert b[..j] == b[..j - 1] + [b[j - 1]];
    if a[..i] == b[..j] {
      assert a[i - 1] == a[..i][i - 1];
      assert a[..i - 1] == a[..i][..i - 1];
      assert b[..j - 1] == b[..j][..j - 1];
    }
  }

  /** The distance is zero exactly when the prefixes are equal. */
  lemma {:induction false} DistZeroIff(a: string, b: string, i: nat, j: nat)
    requires i <= |a| && j <= |b|
    ensures Dist(a, b, i, j) == 0 <==> a[..i] == b[..j]
    decreases i + j
  {
    if i > 0 && j > 0 {
      DistZeroIff(a, b, i - 1, j - 1);
      DistLowerBound(a, b, i - 1, j);
      DistLowerBound(a, b, i, j - 1);
      PrefixesEqual(a, b, i, j);
    }
  }

  /** Whole-string versions: symmetric, zero iff equal, between the length
      difference and the longer length. */
  lemma DistanceProperties(a: string, b: string)
    ensures Distance(a, b) == Distance(b, a)
    ensures Distance(a, b) == 0 <==> a == b
    ensures Distance(a, b) <= if |a| >= |b| then |a| else |b|
    ensures Distance(a, b) >= |a| - |b| && Distance(a, b) >= |b| - |a|
  {
    DistSymmetric(a, b, |a|, |b|);
    DistZeroIff(a, b, |a|, |b|);
    assert a[..|a|] == a && b[..|b|] == b;
    DistUpperBound(a, b, |a|, |b|);
    DistLowerBound(a, b, |a|, |b|);
  }
}
