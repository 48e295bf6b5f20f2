/** The alignment of an original text with its canonical form, as `computeCanonicalMap` builds it. */
module CanonicalMap {
  import opened Utf16
  import opened Lcs

  datatype Segment = Segment(originalStart: nat, originalEnd: nat, canonicalStart: nat, canonicalEnd: nat)

  datatype Alignment = Alignment(ruleVersion: int, segments: seq<Segment>)

  /** The segment is inside both texts, not empty, and copies its text unchanged. */
  predicate IsRun(s: Segment, a: Text, b: Text) {
    && s.originalStart < s.originalEnd <= |a|
    && s.canonicalStart < s.canonicalEnd <= |b|
    && a[s.originalStart..s.originalEnd] == b[s.canonicalStart..s.canonicalEnd]
  }

  /** The segment is inside both texts, not empty on both sides, and its two sides share no character. */
  ghost predicate IsGap(s: Segment, a: Text, b: Text) {
    && s.originalStart <= s.originalEnd <= |a|
    && s.canonicalStart <= s.canonicalEnd <= |b|
    && (s.originalStart < s.originalEnd || s.canonicalStart < s.canonicalEnd)
    && forall p, q | s.originalStart <= p < s.originalEnd && s.canonicalStart <= q < s.canonicalEnd :: a[p] != b[q]
  }

  /**
   * The segments tile `a[..originalEnd]` and `b[..canonicalEnd]` in step, without overlap or hole; every segment
   * is a run or a gap, and neighbours are of different kinds.
   */
  ghost predicate Aligned(segments: seq<Segment>, originalEnd: nat, canonicalEnd: nat, a: Text, b: Text) {
    if segments == [] then originalEnd == 0 && canonicalEnd == 0 else
    var last := segments[|segments| - 1];
    && last.originalEnd == originalEnd && last.canonicalEnd == canonicalEnd
    && (IsRun(last, a, b) || IsGap(last, a, b))
    && (|segments| > 1 ==> IsRun(segments[|segments| - 2], a, b) != IsRun(last, a, b))
    && Aligned(segments[..|segments| - 1], last.originalStart, last.canonicalStart, a, b)
  }

  /** The `length` matches of a run that starts at `(o, c)`. */
  function Diagonal(o: nat, c: nat, length: nat): (ms: seq<CharMatch>)
    ensures |ms| == length
    ensures forall t | 0 <= t < length :: ms[t] == CharMatch(o + t, c + t)
  {
    if length == 0 then [] else Diagonal(o, c, length - 1) + [CharMatch(o + length - 1, c + length - 1)]
  }

  /** All character matches that the runs of the segments stand for. */
  function RunPairs(segments: seq<Segment>, a: Text, b: Text): seq<CharMatch> {
    if segments == [] then [] else
    var last := segments[|segments| - 1];
    RunPairs(segments[..|segments| - 1], a, b)
    + if IsRun(last, a, b)
      then Diagonal(last.originalStart, last.canonicalStart, last.originalEnd - last.originalStart)
      else []
  }

  lemma InsertKeepsOrder(ms: seq<CharMatch>, a: Text, b: Text, k: nat, p: nat, q: nat)
    requires CommonSubsequence(ms, a, b, |a|, |b|) && k <= |ms|
    requires k > 0 ==> ms[k - 1].originalIndex < p && ms[k - 1].canonicalIndex < q
    requires k < |ms| ==> p < ms[k].originalIndex && q < ms[k].canonicalIndex
    ensures var longer := ms[..k] + [CharMatch(p, q)] + ms[k..];
      forall x, y | 0 <= x < y < |longer| ::
        longer[x].originalIndex < longer[y].originalIndex && longer[x].canonicalIndex < longer[y].canonicalIndex
  {
    var longer := ms[..k] + [CharMatch(p, q)] + ms[k..];
    forall x, y | 0 <= x < y < |longer|
      ensures longer[x].originalIndex < longer[y].originalIndex && longer[x].canonicalIndex < longer[y].canonicalIndex
    {
      var u := if x < k then x else if x == k then k else x - 1;
      var v := if y < k then y else if y == k then k else y - 1;
      if x < k {
        assert longer[x] == ms[u] && (u < k - 1 ==>
          ms[u].originalIndex < ms[k - 1].originalIndex && ms[u].canonicalIndex < ms[k - 1].canonicalIndex);
      }
      if y > k {
        assert longer[y] == ms[v] &&
          (k < v ==> ms[k].originalIndex < ms[v].originalIndex && ms[k].canonicalIndex < ms[v].canonicalIndex);
      }
    }
  }

  /** A further agreeing pair strictly between two neighbouring matches would give a longer list. */
  lemma InsertKeepsCommon(ms: seq<CharMatch>, a: Text, b: Text, k: nat, p: nat, q: nat)
    requires CommonSubsequence(ms, a, b, |a|, |b|) && k <= |ms| && p < |a| && q < |b| && a[p] == b[q]
    requires k > 0 ==> ms[k - 1].originalIndex < p && ms[k - 1].canonicalIndex < q
    requires k < |ms| ==> p < ms[k].originalIndex && q < ms[k].canonicalIndex
    ensures CommonSubsequence(ms[..k] + [CharMatch(p, q)] + ms[k..], a, b, |a|, |b|)
  {
    InsertKeepsOrder(ms, a, b, k, p, q);
    var longer := ms[..k] + [CharMatch(p, q)] + ms[k..];
    forall x | 0 <= x < |longer|
      ensures && longer[x].originalIndex < |a| && longer[x].canonicalIndex < |b|
              && a[longer[x].originalIndex] == b[longer[x].canonicalIndex]
    {
      assert longer[x] == if x < k then ms[x] else if x == k then CharMatch(p, q) else ms[x - 1];
    }
  }

  /** Between two consecutive matches of a longest common subsequence the two texts share no character. */
  lemma GapSharesNothing(ms: seq<CharMatch>, a: Text, b: Text, k: nat, p: nat, q: nat)
    requires Longest(ms, a, b) && k <= |ms| && p < |a| && q < |b|
    requires k > 0 ==> ms[k - 1].originalIndex < p && ms[k - 1].canonicalIndex < q
    requires k < |ms| ==> p < ms[k].originalIndex && q < ms[k].canonicalIndex
    ensures a[p] != b[q]
  {
    if a[p] == b[q] {
      InsertKeepsCommon(ms, a, b, k, p, q);
    }
  }

  lemma GapSegment(ms: seq<CharMatch>, a: Text, b: Text, k: nat, s: Segment)
    requires Longest(ms, a, b) && k <= |ms|
    requires s.originalStart <= s.originalEnd && s.canonicalStart <= s.canonicalEnd
    requires s.originalStart < s.originalEnd || s.canonicalStart < s.canonicalEnd
    requires s.originalStart == if k == 0 then 0 else ms[k - 1].originalIndex + 1
    requires s.canonicalStart == if k == 0 then 0 else ms[k - 1].canonicalIndex + 1
    requires s.originalEnd == if k == |ms| then |a| else ms[k].originalIndex
    requires s.canonicalEnd == if k == |ms| then |b| else ms[k].canonicalIndex
    ensures IsGap(s, a, b)
  {
    forall p, q | s.originalStart <= p < s.originalEnd && s.canonicalStart <= q < s.canonicalEnd
      ensures a[p] != b[q]
    {
      GapSharesNothing(ms, a, b, k, p, q);
    }
  }

  /** A run has the same length on both sides and agrees position by position. */
  lemma RunCopies(s: Segment, a: Text, b: Text, t: nat)
    requires IsRun(s, a, b) && t < s.originalEnd - s.originalStart
    ensures s.originalEnd - s.originalStart == s.canonicalEnd - s.canonicalStart
    ensures a[s.originalStart + t] == b[s.canonicalStart + t]
  {
    var left, right := a[s.originalStart..s.originalEnd], b[s.canonicalStart..s.canonicalEnd];
    assert |left| == |right| && left[t] == right[t];
  }

  lemma GapIsNotRun(s: Segment, a: Text, b: Text)
    requires IsGap(s, a, b)
    ensures !IsRun(s, a, b)
  {
    if IsRun(s, a, b) {
      RunCopies(s, a, b, 0);
    }
  }

  lemma RunPairsSnoc(segments: seq<Segment>, s: Segment, a: Text, b: Text)
    ensures RunPairs(segments + [s], a, b) == RunPairs(segments, a, b)
      + if IsRun(s, a, b) then Diagonal(s.originalStart, s.canonicalStart, s.originalEnd - s.originalStart) else []
  {
    assert (segments + [s])[..|segments|] == segments;
  }

  /** The state of the segment loop between two of its rounds. */
  ghost predicate Progress(segments: seq<Segment>, ms: seq<CharMatch>, k: nat, originalCursor: nat,
                           canonicalCursor: nat, a: Text, b: Text)
  {
    && k <= |ms|
    && Aligned(segments, originalCursor, canonicalCursor, a, b)
    && RunPairs(segments, a, b) == ms[..k]
    && (k == 0 ==> segments == [])
    && (k > 0 ==>
          && segments != [] && IsRun(segments[|segments| - 1], a, b)
          && originalCursor == ms[k - 1].originalIndex + 1 && canonicalCursor == ms[k - 1].canonicalIndex + 1)
    && (0 < k < |ms| ==> ms[k] != CharMatch(originalCursor, canonicalCursor))
  }

  lemma AlignedSnoc(segments: seq<Segment>, s: Segment, a: Text, b: Text)
    requires Aligned(segments, s.originalStart, s.canonicalStart, a, b)
    requires IsRun(s, a, b) || IsGap(s, a, b)
    requires segments != [] ==> IsRun(segments[|segments| - 1], a, b) != IsRun(s, a, b)
    ensures Aligned(segments + [s], s.originalEnd, s.canonicalEnd, a, b)
  {
    assert (segments + [s])[..|segments|] == segments;
  }

  /** The matches from `k0` to `k` lie on one diagonal. */
  ghost predicate OneDiagonal(ms: seq<CharMatch>, k0: nat, k: nat)
    requires k0 <= k < |ms|
  {
    forall t | k0 <= t <= k :: ms[t] == CharMatch(ms[k0].originalIndex + (t - k0), ms[k0].canonicalIndex + (t - k0))
  }

  /** A stretch of matches along one diagonal is a run segment standing for exactly those matches. */
  lemma RunSegment(ms: seq<CharMatch>, a: Text, b: Text, k0: nat, k: nat)
    requires CommonSubsequence(ms, a, b, |a|, |b|) && k0 <= k < |ms|
    requires OneDiagonal(ms, k0, k)
    ensures IsRun(
      Segment(ms[k0].originalIndex, ms[k].originalIndex + 1, ms[k0].canonicalIndex, ms[k].canonicalIndex + 1), a, b)
    ensures Diagonal(ms[k0].originalIndex, ms[k0].canonicalIndex, ms[k].originalIndex + 1 - ms[k0].originalIndex) ==
      ms[k0..k + 1]
  {
    var o, c := ms[k0].originalIndex, ms[k0].canonicalIndex;
    assert ms[k] == CharMatch(o + (k - k0), c + (k - k0));
    var left, right := a[o..ms[k].originalIndex + 1], b[c..ms[k].canonicalIndex + 1];
    forall t | 0 <= t < |left| ensures left[t] == right[t] {
      assert ms[k0 + t] == CharMatch(o + t, c + t);
    }
    assert left == right;
  }

  /** Segments that reach `(o, c)`, stand for the first `k` matches and do not end in a run. */
  ghost predicate ReadyForRun(segments: seq<Segment>, ms: seq<CharMatch>, k: nat, o: nat, c: nat, a: Text, b: Text) {
    && k <= |ms|
    && Aligned(segments, o, c, a, b) && RunPairs(segments, a, b) == ms[..k]
    && (segments != [] ==> !IsRun(segments[|segments| - 1], a, b))
  }

  lemma PushGap(segments: seq<Segment>, ms: seq<CharMatch>, k: nat, gap: Segment, a: Text, b: Text)
    requires ms == Backtrace(a, b, |a|, |b|)
    requires Progress(segments, ms, k, gap.originalStart, gap.canonicalStart, a, b)
    requires gap.originalEnd == if k == |ms| then |a| else ms[k].originalIndex
    requires gap.canonicalEnd == if k == |ms| then |b| else ms[k].canonicalIndex
    requires gap.originalStart < gap.originalEnd || gap.canonicalStart < gap.canonicalEnd
    ensures ReadyForRun(segments + [gap], ms, k, gap.originalEnd, gap.canonicalEnd, a, b)
  {
    BacktraceIsLongest(a, b);
    assert gap.originalStart <= gap.originalEnd && gap.canonicalStart <= gap.canonicalEnd;
    GapSegment(ms, a, b, k, gap);
    GapIsNotRun(gap, a, b);
    RunPairsSnoc(segments, gap, a, b);
    AlignedSnoc(segments, gap, a, b);
  }

  lemma NoGap(segments: seq<Segment>, ms: seq<CharMatch>, k: nat, originalCursor: nat, canonicalCursor: nat, a: Text,
              b: Text)
    requires ms == Backtrace(a, b, |a|, |b|) && k < |ms|
    requires Progress(segments, ms, k, originalCursor, canonicalCursor, a, b)
    requires ms[k].originalIndex <= originalCursor && ms[k].canonicalIndex <= canonicalCursor
    ensures ReadyForRun(segments, ms, k, ms[k].originalIndex, ms[k].canonicalIndex, a, b)
  {
    BacktraceIsLongest(a, b);
  }

  /** After the last match only a closing gap can be missing. */
  lemma Closing(segments: seq<Segment>, ms: seq<CharMatch>, originalCursor: nat, canonicalCursor: nat, a: Text, b: Text)
    requires ms == Backtrace(a, b, |a|, |b|) && Progress(segments, ms, |ms|, originalCursor, canonicalCursor, a, b)
    ensures originalCursor <= |a| && canonicalCursor <= |b|
    ensures var tail := Segment(originalCursor, |a|, canonicalCursor, |b|);
      var all := if originalCursor < |a| || canonicalCursor < |b| then segments + [tail] else segments;
      Aligned(all, |a|, |b|, a, b) && RunPairs(all, a, b) == ms
  {
    BacktraceIsLongest(a, b);
    assert ms[..|ms|] == ms;
    if originalCursor < |a| || canonicalCursor < |b| {
      PushGap(segments, ms, |ms|, Segment(originalCursor, |a|, canonicalCursor, |b|), a, b);
    }
  }

  lemma PushRun(segments: seq<Segment>, ms: seq<CharMatch>, k0: nat, k: nat, run: Segment, a: Text, b: Text)
    requires ms == Backtrace(a, b, |a|, |b|) && k0 <= k < |ms|
    requires ReadyForRun(segments, ms, k0, ms[k0].originalIndex, ms[k0].canonicalIndex, a, b)
    requires OneDiagonal(ms, k0, k)
    requires k + 1 < |ms| ==> ms[k + 1] != CharMatch(ms[k].originalIndex + 1, ms[k].canonicalIndex + 1)
    requires run ==
      Segment(ms[k0].originalIndex, ms[k].originalIndex + 1, ms[k0].canonicalIndex, ms[k].canonicalIndex + 1)
    ensures Progress(segments + [run], ms, k + 1, run.originalEnd, run.canonicalEnd, a, b)
  {
    BacktraceIsLongest(a, b);
    RunSegment(ms, a, b, k0, k);
    RunPairsSnoc(segments, run, a, b);
    AlignedSnoc(segments, run, a, b);
    assert ms[..k0] + ms[k0..k + 1] == ms[..k + 1];
  }

  /** The inner loop: the last match on the diagonal that match `k0` starts. */
  method LastOfRun(matches: seq<CharMatch>, k0: nat) returns (k: nat)
    requires k0 < |matches|
    ensures k0 <= k < |matches| && OneDiagonal(matches, k0, k)
    ensures k + 1 < |matches| ==>
      matches[k + 1] != CharMatch(matches[k].originalIndex + 1, matches[k].canonicalIndex + 1)
  {
    k := k0;
    while && k + 1 < |matches|
          && matches[k + 1].originalIndex == matches[k].originalIndex + 1
          && matches[k + 1].canonicalIndex == matches[k].canonicalIndex + 1
      invariant k0 <= k < |matches| && OneDiagonal(matches, k0, k)
    {
      k := k + 1;
    }
  }

  /** The pushes of one round: the gap before the run from match `k0` to match `k`, if there is one, and the run. */
  method PushGapAndRun(segments: seq<Segment>, matches: seq<CharMatch>, k0: nat, k: nat,
                       originalCursor: nat, canonicalCursor: nat, ghost a: Text, ghost b: Text)
    returns (grown: seq<Segment>)
    requires matches == Backtrace(a, b, |a|, |b|) && k0 <= k < |matches|
    requires Progress(segments, matches, k0, originalCursor, canonicalCursor, a, b)
    requires OneDiagonal(matches, k0, k)
    requires k + 1 < |matches| ==>
      matches[k + 1] != CharMatch(matches[k].originalIndex + 1, matches[k].canonicalIndex + 1)
    ensures Progress(grown, matches, k + 1, matches[k].originalIndex + 1, matches[k].canonicalIndex + 1, a, b)
  {
    var runStart, runEnd := matches[k0], matches[k];
    grown := segments;
    if runStart.originalIndex > originalCursor || runStart.canonicalIndex > canonicalCursor {
      var gap := Segment(originalCursor, runStart.originalIndex, canonicalCursor, runStart.canonicalIndex);
      PushGap(segments, matches, k0, gap, a, b);
      grown := grown + [gap];
    } else {
      NoGap(segments, matches, k0, originalCursor, canonicalCursor, a, b);
    }
    var run := Segment(runStart.originalIndex, runEnd.originalIndex + 1,
                       runStart.canonicalIndex, runEnd.canonicalIndex + 1);
    PushRun(grown, matches, k0, k, run, a, b);
    grown := grown + [run];
  }

  method PushRound(segments: seq<Segment>, matches: seq<CharMatch>, k: nat,
                   originalCursor: nat, canonicalCursor: nat, ghost a: Text, ghost b: Text)
    returns (grown: seq<Segment>, end: nat)
    requires matches == Backtrace(a, b, |a|, |b|) && k < |matches|
    requires Progress(segments, matches, k, originalCursor, canonicalCursor, a, b)
    ensures k <= end < |matches|
    ensures Progress(grown, matches, end + 1, matches[end].originalIndex + 1, matches[end].canonicalIndex + 1, a, b)
  {
    end := LastOfRun(matches, k);
    grown := PushGapAndRun(segments, matches, k, end, originalCursor, canonicalCursor, a, b);
  }

  /** The outer loop: all matches are turned into runs, with the gaps between them. */
  method PushRounds(matches: seq<CharMatch>, ghost a: Text, ghost b: Text)
    returns (segments: seq<Segment>, originalCursor: nat, canonicalCursor: nat)
    requires matches == Backtrace(a, b, |a|, |b|)
    ensures Progress(segments, matches, |matches|, originalCursor, canonicalCursor, a, b)
  {
    segments, originalCursor, canonicalCursor := [], 0, 0;
    var k := 0;
    while k < |matches|
      invariant Progress(segments, matches, k, originalCursor, canonicalCursor, a, b)
    {
      var end;
      segments, end := PushRound(segments, matches, k, originalCursor, canonicalCursor, a, b);
      originalCursor, canonicalCursor, k := matches[end].originalIndex + 1, matches[end].canonicalIndex + 1, end + 1;
    }
  }

  method ComputeCanonicalMap(original: Text, canonical: Text, ruleVersion: int) returns (alignment: Alignment)
    ensures alignment.ruleVersion == ruleVersion
    ensures Aligned(alignment.segments, |original|, |canonical|, original, canonical)
    ensures RunPairs(alignment.segments, original, canonical) == Backtrace(original, canonical, |original|, |canonical|)
  {
    var matches := LongestCommonSubsequenceMatches(original, canonical);
    var segments, originalCursor, canonicalCursor := PushRounds(matches, original, canonical);
    Closing(segments, matches, originalCursor, canonicalCursor, original, canonical);
    if originalCursor < |original| || canonicalCursor < |canonical| {
      segments := segments + [Segment(originalCursor, |original|, canonicalCursor, |canonical|)];
    }
    alignment := Alignment(ruleVersion, segments);
  }

  /** Runs never cover more than either text, and a gap makes them cover strictly less of one of them. */
  lemma {:induction false} RunPairsBound(segments: seq<Segment>, a: Text, b: Text, originalEnd: nat, canonicalEnd: nat)
    requires Aligned(segments, originalEnd, canonicalEnd, a, b)
    ensures |RunPairs(segments, a, b)| <= originalEnd && |RunPairs(segments, a, b)| <= canonicalEnd
    ensures (exists s | s in segments :: !IsRun(s, a, b)) ==>
      |RunPairs(segments, a, b)| < originalEnd || |RunPairs(segments, a, b)| < canonicalEnd
  {
    if segments != [] {
      var front, last := segments[..|segments| - 1], segments[|segments| - 1];
      assert segments == front + [last];
      RunPairsBound(front, a, b, last.originalStart, last.canonicalStart);
      if IsRun(last, a, b) {
        assert |a[last.originalStart..last.originalEnd]| == |b[last.canonicalStart..last.canonicalEnd]|;
      }
    }
  }

  /** A text aligned with itself is one run. */
  lemma IdenticalTextsGiveOneRun(segments: seq<Segment>, a: Text)
    requires a != [] && Aligned(segments, |a|, |a|, a, a)
    requires RunPairs(segments, a, a) == Backtrace(a, a, |a|, |a|)
    ensures segments == [Segment(0, |a|, 0, |a|)]
  {
    BacktraceIsLongest(a, a);
    assert CommonSubsequence(Diagonal(0, 0, |a|), a, a, |a|, |a|);
    RunPairsBound(segments, a, a, |a|, |a|);
    assert |segments| < 2;
  }

}
