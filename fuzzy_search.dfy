/**
 * The edit distance behind the storefront's fuzzy product search: the
 * number of single-character insertions, deletions and substitutions that
 * turn one string into the other, computed by filling a matrix row by row.
 */
module FuzzySearch {

  /** `Math.min` of three. */
  function Min3(a: nat, b: nat, c: nat): (m: nat)
    ensures m <= a && m <= b && m <= c
    ensures m == a || m == b || m == c
  {
    if a <= b && a <= c then a else if b <= c then b else c
  }

  /**
   * The edit-distance recurrence between the first `i` characters of `s` and
   * the first `j` characters of `t`: drop the last character of the one, of
   * the other, or of both (free when they are equal).
   */
  function PrefixDistance(s: string, t: string, i: nat, j: nat): nat
    requires i <= |s| && j <= |t|
    decreases i + j
  {
    if i == 0 then j
    else if j == 0 then i
    else
      Min3(PrefixDistance(s, t, i - 1, j) + 1,
           PrefixDistance(s, t, i, j - 1) + 1,
           PrefixDistance(s, t, i - 1, j - 1) + (if s[i - 1] == t[j - 1] then 0 else 1))
  }

  /** The edit distance between two whole strings. */
  function Distance(s: string, t: string): nat {
    PrefixDistance(s, t, |s|, |t|)
  }

  /** Row `j` of the matrix holds the distances from every prefix of `str1` to the first `j` characters of `str2`. */
  ghost predicate RowFilled(matrix: array2<nat>, str1: string, str2: string, j: nat)
    reads matrix
    requires matrix.Length0 == |str2| + 1 && matrix.Length1 == |str1| + 1 && j <= |str2|
  {
    forall ii {:trigger matrix[j, ii]} :: 0 <= ii <= |str1| ==> matrix[j, ii] == PrefixDistance(str1, str2, ii, j)
  }

  /**
   * `levenshteinDistance`: `matrix[j][i]` is the distance between the first
   * `i` characters of `str1` and the first `j` of `str2`.
   */
  method LevenshteinDistance(str1: string, str2: string) returns (d: nat)
    ensures d == Distance(str1, str2)
  {
    var matrix := new nat[|str2| + 1, |str1| + 1];
    for i := 0 to |str1| + 1
      invariant forall k :: 0 <= k < i ==> matrix[0, k] == k
    {
      matrix[0, i] := i;
    }
    for j := 0 to |str2| + 1
      invariant forall k :: 0 <= k <= |str1| ==> matrix[0, k] == k
      invariant forall k :: 0 <= k < j ==> matrix[k, 0] == k
    {
      matrix[j, 0] := j;
    }
    assert RowFilled(matrix, str1, str2, 0);
    for j := 1 to |str2| + 1
      invariant RowFilled(matrix, str1, str2, j - 1)
      invariant forall k :: j <= k <= |str2| ==> matrix[k, 0] == k
    {
      FillRow(matrix, str1, str2, j);
    }
    d := matrix[|str2|, |str1|];
  }

  /** Fills row `j` from row `j - 1`, left to right; the first cells of the rows below keep their values. */
  method FillRow(matrix: array2<nat>, str1: string, str2: string, j: nat)
    requires matrix.Length0 == |str2| + 1 && matrix.Length1 == |str1| + 1 && 1 <= j <= |str2|
    requires RowFilled(matrix, str1, str2, j - 1) && matrix[j, 0] == j
    modifies matrix
    ensures RowFilled(matrix, str1, str2, j)
    ensures forall k :: j < k <= |str2| ==> matrix[k, 0] == old(matrix[k, 0])
  {
    for i := 1 to |str1| + 1
      invariant RowFilled(matrix, str1, str2, j - 1)
      invariant forall ii {:trigger matrix[j, ii]} :: 0 <= ii < i ==> matrix[j, ii] == PrefixDistance(str1, str2, ii, j)
      invariant forall k :: j < k <= |str2| ==> matrix[k, 0] == old(matrix[k, 0])
    {
      var indicator := if str1[i - 1] == str2[j - 1] then 0 else 1;
      matrix[j, i] := Min3(matrix[j, i - 1] + 1, matrix[j - 1, i] + 1, matrix[j - 1, i - 1] + indicator);
    }
  }

  /** The distance is symmetric. */
  lemma {:induction false} PrefixDistanceSymmetric(s: string, t: string, i: nat, j: nat)
    requires i <= |s| && j <= |t|
    ensures PrefixDistance(s, t, i, j) == PrefixDistance(t, s, j, i)
    decreases i + j
  {
    if i > 0 && j > 0 {
      PrefixDistanceSymmetric(s, t, i - 1, j);
      PrefixDistanceSymmetric(s, t, i, j - 1);
      PrefixDistanceSymmetric(s, t, i - 1, j - 1);
    }
  }

  /** The distance from `s` to `t` is the distance from `t` to `s`. */
  lemma DistanceSymmetric(s: string, t: string)
    ensures Distance(s, t) == Distance(t, s)
  {
    PrefixDistanceSymmetric(s, t, |s|, |t|);
  }

  /** Every prefix of a string is at distance 0 from itself. */
  lemma {:induction false} PrefixDistanceToSelf(s: string, i: nat)
    requires i <= |s|
    ensures PrefixDistance(s, s, i, i) == 0
  {
    if i > 0 {
      PrefixDistanceToSelf(s, i - 1);
    }
  }

  /** A string is at distance 0 from itself. */
  lemma DistanceToSelf(s: string)
    ensures Distance(s, s) == 0
  {
    PrefixDistanceToSelf(s, |s|);
  }

  /** Never more edits than the longer prefix has characters. */
  lemma {:induction false} PrefixDistanceAtMostLonger(s: string, t: string, i: nat, j: nat)
    requires i <= |s| && j <= |t|
    ensures PrefixDistance(s, t, i, j) <= if i >= j then i else j
    decreases i + j
  {
    if i > 0 && j > 0 {
      PrefixDistanceAtMostLonger(s, t, i - 1, j - 1);
    }
  }

  /** Never fewer edits than the difference in length. */
  lemma {:induction false} PrefixDistanceAtLeastGap(s: string, t: string, i: nat, j: nat)
    requires i <= |s| && j <= |t|
    ensures PrefixDistance(s, t, i, j) >= i - j && PrefixDistance(s, t, i, j) >= j - i
    decreases i + j
  {
    if i > 0 && j > 0 {
      PrefixDistanceAtLeastGap(s, t, i - 1, j);
      PrefixDistanceAtLeastGap(s, t, i, j - 1);
      PrefixDistanceAtLeastGap(s, t, i - 1, j - 1);
    }
  }

  /** Against the empty string the distance is the other string's length. */
  lemma DistanceToEmpty(s: string)
    ensures Distance(s, "") == |s| && Distance("", s) == |s|
  {
  }

  /** The whole-string bounds. */
  lemma DistanceBounds(s: string, t: string)
    ensures Distance(s, t) <= if |s| >= |t| then |s| else |t|
    ensures Distance(s, t) >= |s| - |t| && Distance(s, t) >= |t| - |s|
  {
    PrefixDistanceAtMostLonger(s, t, |s|, |t|);
    PrefixDistanceAtLeastGap(s, t, |s|, |t|);
  }
}
