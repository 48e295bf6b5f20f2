/** The dynamic program and the backtrace of `longestCommonSubsequenceMatches`. */
module Lcs {
  import opened Utf16

  datatype CharMatch = CharMatch(originalIndex: nat, canonicalIndex: nat)

  /** The recurrence that the table `dp` tabulates, on the prefixes of length `i` and `j`. */
  function Length(a: Text, b: Text, i: nat, j: nat): nat
    requires i <= |a| && j <= |b|
  {
    if i == 0 || j == 0 then 0
    else if a[i - 1] == b[j - 1] then Length(a, b, i - 1, j - 1) + 1
    else Max(Length(a, b, i - 1, j), Length(a, b, i, j - 1))
  }

  function Max(x: nat, y: nat): nat { if x > y then x else y }

  /** `ms` pairs equal characters of `a[..i]` and `b[..j]` and increases strictly in both indices. */
  ghost predicate CommonSubsequence(ms: seq<CharMatch>, a: Text, b: Text, i: nat, j: nat)
    requires i <= |a| && j <= |b|
  {
    && (forall k | 0 <= k < |ms| ::
          ms[k].originalIndex < i && ms[k].canonicalIndex < j && a[ms[k].originalIndex] == b[ms[k].canonicalIndex])
    && (forall k, l | 0 <= k < l < |ms| ::
          ms[k].originalIndex < ms[l].originalIndex && ms[k].canonicalIndex < ms[l].canonicalIndex)
  }

  ghost predicate Longest(ms: seq<CharMatch>, a: Text, b: Text) {
    && CommonSubsequence(ms, a, b, |a|, |b|)
    && forall other | CommonSubsequence(other, a, b, |a|, |b|) :: |other| <= |ms|
  }

  /** No common subsequence beats the recurrence. */
  lemma {:induction false} LengthIsUpperBound(ms: seq<CharMatch>, a: Text, b: Text, i: nat, j: nat)
    requires i <= |a| && j <= |b| && CommonSubsequence(ms, a, b, i, j)
    ensures |ms| <= Length(a, b, i, j)
    decreases i + j
  {
    if ms != [] {
      var front, last := ms[..|ms| - 1], ms[|ms| - 1];
      if a[i - 1] == b[j - 1] {
        LengthIsUpperBound(front, a, b, i - 1, j - 1);
      } else if last.originalIndex < i - 1 {
        assert forall k | 0 <= k < |ms| - 1 :: ms[k].originalIndex < last.originalIndex;
        LengthIsUpperBound(ms, a, b, i - 1, j);
      } else {
        assert last.canonicalIndex < j - 1;
        assert forall k | 0 <= k < |ms| - 1 :: ms[k].canonicalIndex < last.canonicalIndex;
        LengthIsUpperBound(ms, a, b, i, j - 1);
      }
    }
  }

  /** The walk back through the table: on a tie it gives up a character of `a`. */
  function Backtrace(a: Text, b: Text, i: nat, j: nat): seq<CharMatch>
    requires i <= |a| && j <= |b|
  {
    if i == 0 || j == 0 then []
    else if a[i - 1] == b[j - 1] then Backtrace(a, b, i - 1, j - 1) + [CharMatch(i - 1, j - 1)]
    else if Length(a, b, i - 1, j) >= Length(a, b, i, j - 1) then Backtrace(a, b, i - 1, j)
    else Backtrace(a, b, i, j - 1)
  }

  lemma {:induction false} BacktraceReachesLength(a: Text, b: Text, i: nat, j: nat)
    requires i <= |a| && j <= |b|
    ensures |Backtrace(a, b, i, j)| == Length(a, b, i, j)
  {
    if i == 0 || j == 0 {
    } else if a[i - 1] == b[j - 1] {
      BacktraceReachesLength(a, b, i - 1, j - 1);
    } else if Length(a, b, i - 1, j) >= Length(a, b, i, j - 1) {
      BacktraceReachesLength(a, b, i - 1, j);
    } else {
      BacktraceReachesLength(a, b, i, j - 1);
    }
  }

  lemma CommonPush(ms: seq<CharMatch>, a: Text, b: Text, i: nat, j: nat)
    requires i < |a| && j < |b| && a[i] == b[j] && CommonSubsequence(ms, a, b, i, j)
    ensures CommonSubsequence(ms + [CharMatch(i, j)], a, b, i + 1, j + 1)
  {
  }

  lemma CommonWiden(ms: seq<CharMatch>, a: Text, b: Text, i: nat, j: nat, i': nat, j': nat)
    requires i <= i' <= |a| && j <= j' <= |b| && CommonSubsequence(ms, a, b, i, j)
    ensures CommonSubsequence(ms, a, b, i', j')
  {
  }

  lemma {:induction false} BacktraceIsCommon(a: Text, b: Text, i: nat, j: nat)
    requires i <= |a| && j <= |b|
    ensures CommonSubsequence(Backtrace(a, b, i, j), a, b, i, j)
  {
    if i == 0 || j == 0 {
    } else if a[i - 1] == b[j - 1] {
      BacktraceIsCommon(a, b, i - 1, j - 1);
      CommonPush(Backtrace(a, b, i - 1, j - 1), a, b, i - 1, j - 1);
    } else if Length(a, b, i - 1, j) >= Length(a, b, i, j - 1) {
      BacktraceIsCommon(a, b, i - 1, j);
      CommonWiden(Backtrace(a, b, i - 1, j), a, b, i - 1, j, i, j);
    } else {
      BacktraceIsCommon(a, b, i, j - 1);
      CommonWiden(Backtrace(a, b, i, j - 1), a, b, i, j - 1, i, j);
    }
  }

  /** Taking the diagonal whenever characters agree loses nothing. */
  lemma BacktraceIsLongest(a: Text, b: Text)
    ensures Longest(Backtrace(a, b, |a|, |b|), a, b)
    ensures |Backtrace(a, b, |a|, |b|)| == Length(a, b, |a|, |b|)
  {
    BacktraceReachesLength(a, b, |a|, |b|);
    BacktraceIsCommon(a, b, |a|, |b|);
    forall other | CommonSubsequence(other, a, b, |a|, |b|)
      ensures |other| <= |Backtrace(a, b, |a|, |b|)|
    {
      LengthIsUpperBound(other, a, b, |a|, |b|);
    }
  }

  // ----- which of the longest lists -----

  ghost predicate LongestOf(ms: seq<CharMatch>, a: Text, b: Text, i: nat, j: nat)
    requires i <= |a| && j <= |b|
  {
    CommonSubsequence(ms, a, b, i, j) && |ms| == Length(a, b, i, j)
  }

  /** Up to match `t` of one list, then on from match `u` of another. */
  lemma CommonJoin(ms: seq<CharMatch>, ns: seq<CharMatch>, a: Text, b: Text, i: nat, j: nat, t: nat, u: nat)
    requires i <= |a| && j <= |b| && CommonSubsequence(ms, a, b, i, j) && CommonSubsequence(ns, a, b, i, j)
    requires t <= |ms| && u <= |ns|
    requires 0 < t && u < |ns| ==>
      ms[t - 1].originalIndex < ns[u].originalIndex && ms[t - 1].canonicalIndex < ns[u].canonicalIndex
    ensures CommonSubsequence(ms[..t] + ns[u..], a, b, i, j)
  {
    if 0 < t && u < |ns| {
      forall k, l | 0 <= k < t && u <= l < |ns|
        ensures ms[k].originalIndex < ns[l].originalIndex && ms[k].canonicalIndex < ns[l].canonicalIndex
      {
        assert k < t - 1 ==> ms[k].originalIndex < ms[t - 1].originalIndex;
        assert k < t - 1 ==> ms[k].canonicalIndex < ms[t - 1].canonicalIndex;
        assert u < l ==> ns[u].originalIndex < ns[l].originalIndex;
        assert u < l ==> ns[u].canonicalIndex < ns[l].canonicalIndex;
      }
    }
  }

  /** Match `t` of a longest list, once match `t + 1` is known not to lie further right than that of the walk. */
  lemma {:induction false} MatchNotRight(ms: seq<CharMatch>, walk: seq<CharMatch>, a: Text, b: Text, i: nat, j: nat,
                                         t: nat)
    requires 0 < i <= |a| && 0 < j <= |b| && walk == Backtrace(a, b, i - 1, j)
    requires LongestOf(ms, a, b, i, j) && LongestOf(walk, a, b, i - 1, j) && |walk| == |ms|
    requires t < |ms| && (t + 1 < |ms| ==> ms[t + 1].canonicalIndex <= walk[t + 1].canonicalIndex)
    ensures ms[t].canonicalIndex <= walk[t].canonicalIndex
    decreases i + j, 0
  {
    CommonWiden(walk, a, b, i - 1, j, i, j);
    if ms[t].canonicalIndex > walk[t].canonicalIndex && walk[t].originalIndex < ms[t].originalIndex {
      CommonJoin(walk, ms, a, b, i, j, t + 1, t);
      LengthIsUpperBound(walk[..t + 1] + ms[t..], a, b, i, j);
    } else if ms[t].canonicalIndex > walk[t].canonicalIndex {
      MixedFits(ms, walk, a, b, i, j, t, ms[..t + 1] + walk[t + 1..]);
      BacktraceIsRightmost(ms[..t + 1] + walk[t + 1..], a, b, i - 1, j);
    }
  }

  lemma MixedFits(ms: seq<CharMatch>, walk: seq<CharMatch>, a: Text, b: Text, i: nat, j: nat, t: nat,
                  mixed: seq<CharMatch>)
    requires 0 < i <= |a| && j <= |b| && |walk| == |ms| && t < |ms| && mixed == ms[..t + 1] + walk[t + 1..]
    requires CommonSubsequence(ms, a, b, i, j) && CommonSubsequence(walk, a, b, i - 1, j)
    requires walk[t].originalIndex >= ms[t].originalIndex
    requires t + 1 < |ms| ==> ms[t + 1].canonicalIndex <= walk[t + 1].canonicalIndex
    ensures CommonSubsequence(mixed, a, b, i - 1, j) && |mixed| == |ms| && mixed[t] == ms[t]
  {
    CommonWiden(walk, a, b, i - 1, j, i, j);
    CommonJoin(ms, walk, a, b, i, j, t + 1, t + 1);
    CommonNarrow(mixed, a, b, i, j, i - 1, j);
  }

  lemma CommonNarrow(ms: seq<CharMatch>, a: Text, b: Text, i: nat, j: nat, i': nat, j': nat)
    requires i' <= i <= |a| && j' <= j <= |b| && CommonSubsequence(ms, a, b, i, j)
    requires ms != [] ==> ms[|ms| - 1].originalIndex < i' && ms[|ms| - 1].canonicalIndex < j'
    ensures CommonSubsequence(ms, a, b, i', j')
  {
    if ms != [] {
      var last := |ms| - 1;
      forall k | 0 <= k < |ms| ensures ms[k].originalIndex < i' && ms[k].canonicalIndex < j' {
        assert k < last ==> ms[k].originalIndex < ms[last].originalIndex;
        assert k < last ==> ms[k].canonicalIndex < ms[last].canonicalIndex;
      }
    }
  }

  predicate NotRightOf(ms: seq<CharMatch>, walk: seq<CharMatch>) {
    |ms| == |walk| && forall t | 0 <= t < |ms| :: ms[t].canonicalIndex <= walk[t].canonicalIndex
  }

  /** A longest list that uses row `i - 1`, where the walk gives that row up. */
  lemma {:induction false} LastRowNotRight(ms: seq<CharMatch>, walk: seq<CharMatch>, a: Text, b: Text, i: nat, j: nat)
    requires 0 < i <= |a| && 0 < j <= |b| && walk == Backtrace(a, b, i - 1, j)
    requires LongestOf(ms, a, b, i, j) && LongestOf(walk, a, b, i - 1, j) && |walk| == |ms|
    ensures NotRightOf(ms, walk)
    decreases i + j, 1
  {
    var t := |ms|;
    while t > 0
      invariant 0 <= t <= |ms| && forall k | t <= k < |ms| :: ms[k].canonicalIndex <= walk[k].canonicalIndex
    {
      t := t - 1;
      MatchNotRight(ms, walk, a, b, i, j, t);
    }
  }

  /**
   * Of all the longest lists the walk returns the one furthest to the right in the canonical text: no longest list has
   * its match `t` at a greater canonical index, for any `t`.
   */
  lemma {:induction false} BacktraceIsRightmost(ms: seq<CharMatch>, a: Text, b: Text, i: nat, j: nat)
    requires i <= |a| && j <= |b| && LongestOf(ms, a, b, i, j)
    ensures NotRightOf(ms, Backtrace(a, b, i, j))
    decreases i + j, 2
  {
    BacktraceReachesLength(a, b, i, j);
    if ms != [] {
      var last := ms[|ms| - 1];
      if a[i - 1] == b[j - 1] {
        var front := ms[..|ms| - 1];
        CommonFront(ms, a, b, i, j);
        BacktraceIsRightmost(front, a, b, i - 1, j - 1);
      } else if Length(a, b, i - 1, j) >= Length(a, b, i, j - 1) {
        BacktraceReachesLength(a, b, i - 1, j);
        BacktraceIsCommon(a, b, i - 1, j);
        LastRowNotRight(ms, Backtrace(a, b, i - 1, j), a, b, i, j);
      } else {
        if last.canonicalIndex == j - 1 {
          CommonNarrow(ms, a, b, i, j, i - 1, j);
          LengthIsUpperBound(ms, a, b, i - 1, j);
        }
        CommonNarrow(ms, a, b, i, j, i, j - 1);
        BacktraceIsRightmost(ms, a, b, i, j - 1);
      }
    }
  }

  lemma CommonFront(ms: seq<CharMatch>, a: Text, b: Text, i: nat, j: nat)
    requires 0 < i <= |a| && 0 < j <= |b| && ms != [] && CommonSubsequence(ms, a, b, i, j)
    ensures CommonSubsequence(ms[..|ms| - 1], a, b, i - 1, j - 1)
  {
    var last := |ms| - 1;
    forall k | 0 <= k < last ensures ms[k].originalIndex < i - 1 && ms[k].canonicalIndex < j - 1 {
      assert ms[k].originalIndex < ms[last].originalIndex && ms[k].canonicalIndex < ms[last].canonicalIndex;
    }
  }

  /** A common subsequence has no more entries than either text, so a 32-bit cell cannot overflow. */
  lemma {:induction false} LengthFitsTexts(a: Text, b: Text, i: nat, j: nat)
    requires i <= |a| && j <= |b|
    ensures Length(a, b, i, j) <= i && Length(a, b, i, j) <= j
  {
    if i != 0 && j != 0 {
      LengthFitsTexts(a, b, i - 1, j - 1);
      LengthFitsTexts(a, b, i - 1, j);
      LengthFitsTexts(a, b, i, j - 1);
    }
  }

  ghost predicate RowFilled(dp: array2<nat>, a: Text, b: Text, i: nat)
    requires i <= |a| && dp.Length0 == |a| + 1 && dp.Length1 == |b| + 1
    reads dp
  {
    forall y | 0 <= y <= |b| :: dp[i, y] == Length(a, b, i, y)
  }

  /** The inner loop: row `i` from row `i - 1`, no other row touched. */
  method FillRow(dp: array2<nat>, a: Text, b: Text, i: nat)
    requires 1 <= i <= |a| && dp.Length0 == |a| + 1 && dp.Length1 == |b| + 1
    requires RowFilled(dp, a, b, i - 1)
    requires dp[i, 0] == 0
    modifies dp
    ensures RowFilled(dp, a, b, i)
    ensures forall x, y | 0 <= x <= |a| && x != i && 0 <= y <= |b| :: dp[x, y] == old(dp[x, y])
  {
    for j := 1 to |b| + 1
      invariant forall x, y | 0 <= x <= |a| && x != i && 0 <= y <= |b| :: dp[x, y] == old(dp[x, y])
      invariant forall y | 0 <= y < j :: dp[i, y] == Length(a, b, i, y)
    {
      var cell := if a[i - 1] == b[j - 1] then dp[i - 1, j - 1] + 1 else Max(dp[i - 1, j], dp[i, j - 1]);
      assert cell == Length(a, b, i, j);
      dp[i, j] := cell;
    }
  }

  method FillTable(a: Text, b: Text) returns (dp: array2<nat>)
    ensures fresh(dp) && dp.Length0 == |a| + 1 && dp.Length1 == |b| + 1
    ensures forall x, y | 0 <= x <= |a| && 0 <= y <= |b| :: dp[x, y] == Length(a, b, x, y)
  {
    dp := new nat[|a| + 1, |b| + 1]((_, _) => 0);
    for i := 1 to |a| + 1
      invariant forall x, y | 0 <= x < i && 0 <= y <= |b| :: dp[x, y] == Length(a, b, x, y)
      invariant forall x | i <= x <= |a| :: dp[x, 0] == 0
    {
      FillRow(dp, a, b, i);
    }
  }

  function Reversed(ms: seq<CharMatch>): (r: seq<CharMatch>)
    ensures |r| == |ms| && forall k | 0 <= k < |r| :: r[k] == ms[|ms| - 1 - k]
  {
    if ms == [] then [] else Reversed(ms[1..]) + [ms[0]]
  }

  method LongestCommonSubsequenceMatches(original: Text, canonical: Text) returns (matches: seq<CharMatch>)
    ensures matches == Backtrace(original, canonical, |original|, |canonical|)
  {
    var n, m := |original|, |canonical|;
    var dp := FillTable(original, canonical);
    var pushed: seq<CharMatch> := [];
    var i, j := n, m;
    while i > 0 && j > 0
      invariant 0 <= i <= n && 0 <= j <= m
      invariant Backtrace(original, canonical, n, m) == Backtrace(original, canonical, i, j) + Reversed(pushed)
      decreases i + j
    {
      if original[i - 1] == canonical[j - 1] {
        var next := CharMatch(i - 1, j - 1);
        assert Reversed(pushed + [next]) == [next] + Reversed(pushed);
        pushed := pushed + [next];
        i, j := i - 1, j - 1;
      } else if dp[i - 1, j] >= dp[i, j - 1] {
        i := i - 1;
      } else {
        j := j - 1;
      }
    }
    matches := Reversed(pushed);
  }
}
