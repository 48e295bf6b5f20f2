/** Which spans of the original text are copied unchanged: exactly those inside a run. */
module CopiedSpans {
  import opened Common
  import opened Utf16
  import opened Lcs
  import opened CanonicalMap
  import opened Projection

  // ----- matches on either side of an endpoint -----

  lemma {:induction false} PairsInside(segments: seq<Segment>, o: nat, c: nat, a: Text, b: Text, m: CharMatch)
    requires Aligned(segments, o, c, a, b) && m in RunPairs(segments, a, b)
    ensures m.originalIndex < o && m.canonicalIndex < c
  {
    var front, last := segments[..|segments| - 1], segments[|segments| - 1];
    if m in RunPairs(front, a, b) {
      PairsInside(front, last.originalStart, last.canonicalStart, a, b, m);
    } else {
      RunCopies(last, a, b, 0);
    }
  }

  /** A match in the last segment, which is then a run, lies on the diagonal of the run. */
  lemma PairOfLast(segments: seq<Segment>, o: nat, c: nat, a: Text, b: Text, m: CharMatch)
    requires Aligned(segments, o, c, a, b) && segments != [] && m in RunPairs(segments, a, b)
    requires m !in RunPairs(segments[..|segments| - 1], a, b)
    ensures var last := segments[|segments| - 1];
      && IsRun(last, a, b) && last.originalStart <= m.originalIndex < last.originalEnd
      && m.canonicalIndex - last.canonicalStart == m.originalIndex - last.originalStart
      && last.originalEnd - last.originalStart == last.canonicalEnd - last.canonicalStart
  {
    var last := segments[|segments| - 1];
    RunCopies(last, a, b, 0);
  }

  /** A match lies before a start offset of the original exactly when it lies before the offset's image. */
  lemma {:induction false} StartSeparates(segments: seq<Segment>, o: nat, c: nat, a: Text, b: Text, s: int,
                                          m: CharMatch)
    requires Aligned(segments, o, c, a, b) && 0 <= s < o && m in RunPairs(segments, a, b)
    ensures m.originalIndex < s <==> m.canonicalIndex < StartImage(segments, s)
  {
    var front, last := segments[..|segments| - 1], segments[|segments| - 1];
    InterpolateInside(last, s, CanonicalStart);
    ImagesInside(front, last.originalStart, last.canonicalStart, a, b, s);
    if m in RunPairs(front, a, b) {
      PairsInside(front, last.originalStart, last.canonicalStart, a, b, m);
      if s < last.originalStart {
        StartSeparates(front, last.originalStart, last.canonicalStart, a, b, s, m);
      }
    } else {
      PairOfLast(segments, o, c, a, b, m);
      if last.originalStart <= s {
        InterpolateInRun(last, s, CanonicalStart);
      }
    }
  }

  lemma {:induction false} EndSeparates(segments: seq<Segment>, o: nat, c: nat, a: Text, b: Text, e: int, m: CharMatch)
    requires Aligned(segments, o, c, a, b) && 0 < e <= o && m in RunPairs(segments, a, b)
    ensures m.originalIndex < e <==> m.canonicalIndex < EndImage(segments, e)
  {
    var front, last := segments[..|segments| - 1], segments[|segments| - 1];
    InterpolateInside(last, e, CanonicalEnd);
    ImagesInside(front, last.originalStart, last.canonicalStart, a, b, e);
    if m in RunPairs(front, a, b) {
      PairsInside(front, last.originalStart, last.canonicalStart, a, b, m);
      if e <= last.originalStart {
        EndSeparates(front, last.originalStart, last.canonicalStart, a, b, e, m);
      }
    } else {
      PairOfLast(segments, o, c, a, b, m);
      if last.originalStart < e {
        InterpolateInRun(last, e, CanonicalEnd);
      }
    }
  }

  // ----- a copied span is matched along its diagonal -----

  /** The first `i` matches are those before offset `x` of the original. */
  predicate CutAt(ms: seq<CharMatch>, x: int, i: nat) {
    && i <= |ms|
    && (forall k | 0 <= k < i :: ms[k].originalIndex < x)
    && (forall k | i <= k < |ms| :: x <= ms[k].originalIndex)
  }

  lemma {:induction false} FindCut(ms: seq<CharMatch>, a: Text, b: Text, x: int) returns (i: nat)
    requires CommonSubsequence(ms, a, b, |a|, |b|)
    ensures CutAt(ms, x, i)
  {
    if ms == [] || ms[|ms| - 1].originalIndex < x {
      i := |ms|;
    } else {
      i := FindCut(ms[..|ms| - 1], a, b, x);
    }
  }

  /** The matches before `s` and after `e` with the whole diagonal of the span between them. */
  function Spliced(ms: seq<CharMatch>, i: nat, j: nat, s: nat, s': nat, n: nat): (spliced: seq<CharMatch>)
    requires i <= j <= |ms|
    ensures |spliced| == i + n + (|ms| - j)
    ensures forall k | 0 <= k < |spliced| ::
      spliced[k] ==
        if k < i then ms[k] else if k < i + n then CharMatch(s + (k - i), s' + (k - i)) else ms[k - i - n + j]
  {
    ms[..i] + Diagonal(s, s', n) + ms[j..]
  }

  /** The images of the endpoints separate the matches in both texts alike. */
  ghost predicate Separated(ms: seq<CharMatch>, i: nat, j: nat, s: int, e: int, s': int, e': int) {
    && i <= j <= |ms|
    && (forall k | 0 <= k < i :: ms[k].originalIndex < s && ms[k].canonicalIndex < s')
    && (forall k | i <= k < j :: s <= ms[k].originalIndex < e && s' <= ms[k].canonicalIndex < e')
    && (forall k | j <= k < |ms| :: e <= ms[k].originalIndex && e' <= ms[k].canonicalIndex)
  }

  predicate PairsEqual(m: CharMatch, a: Text, b: Text) {
    m.originalIndex < |a| && m.canonicalIndex < |b| && a[m.originalIndex] == b[m.canonicalIndex]
  }

  lemma SplicedPairsEqual(ms: seq<CharMatch>, a: Text, b: Text, i: nat, j: nat, s: nat, e: nat, s': nat, e': nat,
                          k: nat)
    requires CommonSubsequence(ms, a, b, |a|, |b|) && i <= j <= |ms|
    requires s <= e <= |a| && s' <= e' <= |b| && a[s..e] == b[s'..e'] && k < |Spliced(ms, i, j, s, s', e - s)|
    ensures PairsEqual(Spliced(ms, i, j, s, s', e - s)[k], a, b)
  {
    if i <= k < i + (e - s) {
      assert a[s..e][k - i] == b[s'..e'][k - i];
    }
  }

  lemma SplicedIsCommon(ms: seq<CharMatch>, a: Text, b: Text, i: nat, j: nat, s: nat, e: nat, s': nat, e': nat)
    requires CommonSubsequence(ms, a, b, |a|, |b|) && Separated(ms, i, j, s, e, s', e')
    requires s <= e <= |a| && s' <= e' <= |b| && a[s..e] == b[s'..e']
    ensures CommonSubsequence(Spliced(ms, i, j, s, s', e - s), a, b, |a|, |b|)
  {
    var all := Spliced(ms, i, j, s, s', e - s);
    assert |a[s..e]| == |b[s'..e']|;
    forall k | 0 <= k < |all| ensures PairsEqual(all[k], a, b) {
      SplicedPairsEqual(ms, a, b, i, j, s, e, s', e', k);
    }
    forall k, l | 0 <= k < l < |all|
      ensures all[k].originalIndex < all[l].originalIndex && all[k].canonicalIndex < all[l].canonicalIndex
    {
      SplicedInOrder(ms, a, b, i, j, s, e, s', e', k, l);
    }
  }

  lemma SplicedInOrder(ms: seq<CharMatch>, a: Text, b: Text, i: nat, j: nat, s: nat, e: nat, s': nat, e': nat, k: nat,
                       l: nat)
    requires CommonSubsequence(ms, a, b, |a|, |b|) && Separated(ms, i, j, s, e, s', e')
    requires s <= e && s' <= e' && e - s == e' - s' && k < l < |Spliced(ms, i, j, s, s', e - s)|
    ensures var x, y := Spliced(ms, i, j, s, s', e - s)[k], Spliced(ms, i, j, s, s', e - s)[l];
      x.originalIndex < y.originalIndex && x.canonicalIndex < y.canonicalIndex
  {
    var n := e - s;
    if l < i || i + n <= k {
      var u, v := if l < i then k else k - i - n + j, if l < i then l else l - i - n + j;
      assert ms[u].originalIndex < ms[v].originalIndex;
    } else if k < i && i + n <= l {
      assert ms[k].originalIndex < ms[l - i - n + j].originalIndex;
    }
  }

  /** Offset `x` of the original is matched with `x + shift`. */
  predicate MatchedAt(ms: seq<CharMatch>, x: int, shift: int) {
    0 <= x && 0 <= x + shift && CharMatch(x, x + shift) in ms
  }

  predicate Matched(ms: seq<CharMatch>, s: int, e: int, shift: int) {
    forall x | s <= x < e :: MatchedAt(ms, x, shift)
  }

  /** Matches increase by at least one in either text. */
  lemma {:induction false} Climb(ms: seq<CharMatch>, a: Text, b: Text, k: nat, l: nat)
    requires CommonSubsequence(ms, a, b, |a|, |b|) && k <= l < |ms|
    ensures ms[k].originalIndex + (l - k) <= ms[l].originalIndex
    ensures ms[k].canonicalIndex + (l - k) <= ms[l].canonicalIndex
  {
    if k < l {
      Climb(ms, a, b, k, l - 1);
      assert ms[l - 1].originalIndex < ms[l].originalIndex;
    }
  }

  /** A list of matches that no other beats matches a copied span completely, along its diagonal. */
  lemma CopiedIsMatched(ms: seq<CharMatch>, a: Text, b: Text, i: nat, j: nat, s: nat, e: nat, s': nat, e': nat,
                        shift: int)
    requires Longest(ms, a, b) && Separated(ms, i, j, s, e, s', e') && shift == s' - s
    requires s <= e <= |a| && s' <= e' <= |b| && a[s..e] == b[s'..e']
    ensures Matched(ms, s, e, shift)
  {
    SplicedIsCommon(ms, a, b, i, j, s, e, s', e');
    assert |Spliced(ms, i, j, s, s', e - s)| <= |ms|;
    assert |a[s..e]| == |b[s'..e']|;
    forall x | s <= x < e ensures MatchedAt(ms, x, shift) {
      var k := i + (x - s);
      Climb(ms, a, b, i, k);
      Climb(ms, a, b, k, j - 1);
      assert ms[k] == CharMatch(x, x + shift);
    }
  }

  lemma ImagesSeparate(segments: seq<Segment>, a: Text, b: Text, s: nat, e: nat) returns (i: nat, j: nat)
    requires Aligned(segments, |a|, |b|, a, b) && s < e <= |a|
    requires CommonSubsequence(RunPairs(segments, a, b), a, b, |a|, |b|)
    ensures Separated(RunPairs(segments, a, b), i, j, s, e, StartImage(segments, s), EndImage(segments, e))
  {
    var ms, s', e' := RunPairs(segments, a, b), StartImage(segments, s), EndImage(segments, e);
    i := FindCut(ms, a, b, s);
    j := FindCut(ms, a, b, e);
    forall m | m in ms ensures SameSide(m, s, s') && SameSide(m, e, e') {
      StartSeparates(segments, |a|, |b|, a, b, s, m);
      EndSeparates(segments, |a|, |b|, a, b, e, m);
    }
    CutsSeparate(ms, i, j, s, e, s', e');
  }

  predicate SameSide(m: CharMatch, x: int, x': int) { m.originalIndex < x <==> m.canonicalIndex < x' }

  lemma CutsSeparate(ms: seq<CharMatch>, i: nat, j: nat, s: int, e: int, s': int, e': int)
    requires CutAt(ms, s, i) && CutAt(ms, e, j) && s <= e
    requires forall m | m in ms :: SameSide(m, s, s') && SameSide(m, e, e')
    ensures Separated(ms, i, j, s, e, s', e')
  {
    if j < |ms| {
      assert e <= ms[j].originalIndex;
    }
    forall k | 0 <= k < |ms| ensures SameSide(ms[k], s, s') && SameSide(ms[k], e, e') {
      assert ms[k] in ms;
    }
  }

  // ----- a matched diagonal lies in one run -----

  ghost predicate InRun(segments: seq<Segment>, a: Text, b: Text, s: int, e: int) {
    exists run :: run in segments && IsRun(run, a, b) && run.originalStart <= s && e <= run.originalEnd
  }

  /** Two runs are never joined on one diagonal: the gap between them would have to be empty. */
  lemma RunsAreApart(segments: seq<Segment>, o: nat, c: nat, a: Text, b: Text, x: int, shift: int)
    requires Aligned(segments, o, c, a, b) && segments != [] && IsRun(segments[|segments| - 1], a, b)
    requires x == segments[|segments| - 1].originalStart - 1 && x + shift == segments[|segments| - 1].canonicalStart - 1
    ensures !MatchedAt(RunPairs(segments[..|segments| - 1], a, b), x, shift)
  {
    var front := segments[..|segments| - 1];
    if MatchedAt(RunPairs(front, a, b), x, shift) {
      var gap := front[|front| - 1];
      assert gap == segments[|segments| - 2] && !IsRun(gap, a, b);
      PairsInside(front[..|front| - 1], gap.originalStart, gap.canonicalStart, a, b, CharMatch(x, x + shift));
    }
  }

  /** A matched offset is matched by the last segment or by the segments before it, depending on where it lies. */
  lemma MatchedBySide(segments: seq<Segment>, o: nat, c: nat, a: Text, b: Text, x: int, shift: int)
    requires Aligned(segments, o, c, a, b) && segments != [] && MatchedAt(RunPairs(segments, a, b), x, shift)
    ensures var front, last := segments[..|segments| - 1], segments[|segments| - 1];
      && (x < last.originalStart ==> MatchedAt(RunPairs(front, a, b), x, shift))
      && (last.originalStart <= x ==> IsRun(last, a, b) && last.originalStart + shift == last.canonicalStart)
  {
    var front, last := segments[..|segments| - 1], segments[|segments| - 1];
    var m := CharMatch(x, x + shift);
    if m in RunPairs(front, a, b) {
      PairsInside(front, last.originalStart, last.canonicalStart, a, b, m);
    } else {
      PairOfLast(segments, o, c, a, b, m);
    }
  }

  /** A matched diagonal that reaches into the last segment starts there. */
  lemma MatchedStaysInLast(segments: seq<Segment>, o: nat, c: nat, a: Text, b: Text, s: nat, e: nat, shift: int)
    requires Aligned(segments, o, c, a, b) && segments != [] && segments[|segments| - 1].originalStart < e <= o
    requires s < e && Matched(RunPairs(segments, a, b), s, e, shift)
    ensures IsRun(segments[|segments| - 1], a, b) && segments[|segments| - 1].originalStart <= s
  {
    var x: int, y: int := segments[|segments| - 1].originalStart - 1, e - 1;
    assert MatchedAt(RunPairs(segments, a, b), y, shift);
    MatchedBySide(segments, o, c, a, b, y, shift);
    RunsAreApart(segments, o, c, a, b, x, shift);
    assert s <= x ==> MatchedAt(RunPairs(segments, a, b), x, shift);
    if s <= x {
      MatchedBySide(segments, o, c, a, b, x, shift);
    }
  }

  lemma {:induction false} MatchedLiesInRun(segments: seq<Segment>, o: nat, c: nat, a: Text, b: Text, s: nat, e: nat,
                                            shift: int)
    requires Aligned(segments, o, c, a, b) && s < e <= o && Matched(RunPairs(segments, a, b), s, e, shift)
    ensures InRun(segments, a, b, s, e)
  {
    var front, last := segments[..|segments| - 1], segments[|segments| - 1];
    var start := last.originalStart;
    if e <= start {
      forall x | s <= x < e ensures MatchedAt(RunPairs(front, a, b), x, shift) {
        assert MatchedAt(RunPairs(segments, a, b), x, shift);
        MatchedBySide(segments, o, c, a, b, x, shift);
      }
      MatchedLiesInRun(front, start, last.canonicalStart, a, b, s, e, shift);
      var run :| run in front && IsRun(run, a, b) && run.originalStart <= s && e <= run.originalEnd;
      assert run in segments;
    } else {
      MatchedStaysInLast(segments, o, c, a, b, s, e, shift);
      assert last in segments;
    }
  }

  // ----- the result -----

  /** The projected slice of the canonical text is the span of the original. */
  ghost predicate Copied(segments: seq<Segment>, a: Text, b: Text, s: int, e: int)
    requires 0 <= s < e <= |a|
  {
    var x := ProjectSpanOntoCanonical(segments, s, e);
    && x.Some? && 0 <= x.value.charStart <= x.value.charEnd <= |b|
    && b[x.value.charStart..x.value.charEnd] == a[s..e]
  }

  lemma CopiedSlice(segments: seq<Segment>, a: Text, b: Text, s: nat, e: nat) returns (s': nat, e': nat)
    requires Aligned(segments, |a|, |b|, a, b) && s < e <= |a| && Copied(segments, a, b, s, e)
    ensures s' == StartImage(segments, s) && e' == EndImage(segments, e) && s' <= e' <= |b| && b[s'..e'] == a[s..e]
  {
    ProjectionInRange(segments, a, b, s, e);
    s', e' := StartImage(segments, s), EndImage(segments, e);
  }

  lemma CopiedLiesInRun(segments: seq<Segment>, a: Text, b: Text, s: nat, e: nat)
    requires Aligned(segments, |a|, |b|, a, b) && Longest(RunPairs(segments, a, b), a, b)
    requires s < e <= |a| && Copied(segments, a, b, s, e)
    ensures InRun(segments, a, b, s, e)
  {
    var s', e' := CopiedSlice(segments, a, b, s, e);
    var shift := s' - s;
    SliceIsMatched(segments, a, b, s, e, s', e', RunPairs(segments, a, b), shift);
    MatchedLiesInRun(segments, |a|, |b|, a, b, s, e, shift);
  }

  lemma SliceIsMatched(segments: seq<Segment>, a: Text, b: Text, s: nat, e: nat, s': nat, e': nat, ms: seq<CharMatch>,
                       shift: int)
    requires Aligned(segments, |a|, |b|, a, b) && ms == RunPairs(segments, a, b) && Longest(ms, a, b)
    requires s < e <= |a| && s' == StartImage(segments, s) && e' == EndImage(segments, e)
    requires s' <= e' <= |b| && b[s'..e'] == a[s..e] && shift == s' - s
    ensures Matched(ms, s, e, shift)
  {
    var i, j := ImagesSeparate(segments, a, b, s, e);
    CopiedIsMatched(ms, a, b, i, j, s, e, s', e', shift);
  }

  /** Projection copies the text of a span exactly when the span lies in a run. */
  lemma CopiedExactlyInRuns(segments: seq<Segment>, a: Text, b: Text, s: nat, e: nat)
    requires Aligned(segments, |a|, |b|, a, b) && Longest(RunPairs(segments, a, b), a, b)
    requires s < e <= |a|
    ensures Copied(segments, a, b, s, e) <==> InRun(segments, a, b, s, e)
  {
    if Copied(segments, a, b, s, e) {
      CopiedLiesInRun(segments, a, b, s, e);
    }
    if InRun(segments, a, b, s, e) {
      var run :| run in segments && IsRun(run, a, b) && run.originalStart <= s && e <= run.originalEnd;
      ProjectionCopiesRuns(segments, a, b, run, s, e);
    }
  }
}
