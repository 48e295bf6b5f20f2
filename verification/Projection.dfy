/** Carrying a span of the original text over to the canonical text, rounding included. */
module Projection {
  import opened Utf16
  import opened CanonicalMap
  import opened Common

  datatype Span = Span(charStart: int, charEnd: int)
  datatype Bound = CanonicalStart | CanonicalEnd

  /** `Math.round`: halves go up. */
  function Round(x: real): int { (x + 0.5).Floor }

  function Clamp01(x: real): real { if x < 0.0 then 0.0 else if x > 1.0 then 1.0 else x }

  function Interpolate(s: Segment, originalOffset: int, bound: Bound): int {
    var originalLength := s.originalEnd - s.originalStart;
    if originalLength <= 0 then
      match bound case CanonicalStart => s.canonicalStart case CanonicalEnd => s.canonicalEnd
    else
      var canonicalLength := s.canonicalEnd - s.canonicalStart;
      var ratio := Clamp01((originalOffset - s.originalStart) as real / originalLength as real);
      Round(s.canonicalStart as real + ratio * canonicalLength as real)
  }

  predicate Overlaps(s: Segment, charStart: int, charEnd: int) {
    s.originalEnd > charStart && s.originalStart < charEnd
  }

  function Overlapping(segments: seq<Segment>, charStart: int, charEnd: int): seq<Segment> {
    if segments == [] then [] else
    var last := segments[|segments| - 1];
    Overlapping(segments[..|segments| - 1], charStart, charEnd)
    + if Overlaps(last, charStart, charEnd) then [last] else []
  }

  function ProjectSpanOntoCanonical(segments: seq<Segment>, charStart: int, charEnd: int): Option<Span> {
    var overlapping := Overlapping(segments, charStart, charEnd);
    if overlapping == [] then None
    else
      var first, last := overlapping[0], overlapping[|overlapping| - 1];
      Some(Span(Interpolate(first, charStart, CanonicalStart), Interpolate(last, charEnd, CanonicalEnd)))
  }

  // ----- interpolation inside one segment -----

  lemma RatioOrder(x: int, y: int, length: int)
    requires length > 0 && x <= y
    ensures x as real / length as real <= y as real / length as real
  {
  }

  lemma ScaleOrder(r: real, t: real, width: int)
    requires r <= t && width >= 0
    ensures r * width as real <= t * width as real
  {
  }

  lemma RoundOrder(x: real, y: real)
    requires x <= y
    ensures Round(x) <= Round(y)
  {
  }

  lemma RoundBetween(low: int, x: real, high: int)
    requires low as real <= x <= high as real
    ensures low <= Round(x) <= high
  {
  }

  ghost function Ratio(s: Segment, x: int): real
    requires s.originalStart < s.originalEnd
  {
    (x - s.originalStart) as real / (s.originalEnd - s.originalStart) as real
  }

  lemma InterpolateAt(s: Segment, x: int, bound: Bound, r: real)
    requires s.originalStart < s.originalEnd && r == Ratio(s, x)
    ensures Interpolate(s, x, bound)
         == Round(s.canonicalStart as real + Clamp01(r) * (s.canonicalEnd - s.canonicalStart) as real)
  {
  }

  lemma InterpolateInside(s: Segment, x: int, bound: Bound)
    requires s.originalStart <= s.originalEnd && s.canonicalStart <= s.canonicalEnd
    ensures s.canonicalStart <= Interpolate(s, x, bound) <= s.canonicalEnd
  {
    if s.originalStart < s.originalEnd {
      InterpolateAt(s, x, bound, Ratio(s, x));
      ClampedInside(s.canonicalStart, Ratio(s, x), s.canonicalEnd - s.canonicalStart);
    }
  }

  lemma UnitProducts(w: real)
    ensures 0.0 * w == 0.0 && 1.0 * w == w
  {
  }

  lemma ClampedInside(start: int, r: real, width: int)
    requires width >= 0
    ensures start <= Round(start as real + Clamp01(r) * width as real) <= start + width
  {
    ScaleOrder(0.0, Clamp01(r), width);
    ScaleOrder(Clamp01(r), 1.0, width);
    UnitProducts(width as real);
    assert (start + width) as real == start as real + width as real;
    RoundBetween(start, start as real + Clamp01(r) * width as real, start + width);
  }

  lemma ClampedMonotone(start: int, r: real, t: real, width: int)
    requires r <= t && width >= 0
    ensures Round(start as real + Clamp01(r) * width as real) <= Round(start as real + Clamp01(t) * width as real)
  {
    ScaleOrder(Clamp01(r), Clamp01(t), width);
    RoundOrder(start as real + Clamp01(r) * width as real, start as real + Clamp01(t) * width as real);
  }

  lemma InterpolateMonotone(s: Segment, x: int, y: int, left: Bound, right: Bound)
    requires s.originalStart < s.originalEnd && s.canonicalStart <= s.canonicalEnd && x <= y
    ensures Interpolate(s, x, left) <= Interpolate(s, y, right)
  {
    var r, t := Ratio(s, x), Ratio(s, y);
    RatioOrder(x - s.originalStart, y - s.originalStart, s.originalEnd - s.originalStart);
    InterpolateAt(s, x, left, r);
    InterpolateAt(s, y, right, t);
    ClampedMonotone(s.canonicalStart, r, t, s.canonicalEnd - s.canonicalStart);
  }

  lemma ProductSigns(q: real, y: real)
    requires y > 0.0
    ensures q < 0.0 ==> q * y < 0.0
    ensures q > 1.0 ==> q * y > y
  {
    if q > 1.0 {
      assert (q - 1.0) * y > 0.0;
    }
  }

  lemma RatioOfRun(offset: int, length: int)
    requires 0 <= offset <= length && length > 0
    ensures Clamp01(offset as real / length as real) * length as real == offset as real
  {
    var x, y := offset as real, length as real;
    var q := x / y;
    QuotientTimes(x, y);
    ProductSigns(q, y);
    assert 0.0 <= q <= 1.0;
  }

  lemma InterpolateInRun(s: Segment, x: int, bound: Bound)
    requires s.originalStart < s.originalEnd && s.originalEnd - s.originalStart == s.canonicalEnd - s.canonicalStart
    requires s.originalStart <= x <= s.originalEnd
    ensures Interpolate(s, x, bound) == s.canonicalStart + (x - s.originalStart)
  {
    RatioOfRun(x - s.originalStart, s.originalEnd - s.originalStart);
  }

  // ----- the piecewise maps that the two endpoints follow -----

  /** Where a start offset `p` goes: into the segment that contains position `p`. */
  ghost function StartImage(segments: seq<Segment>, p: int): int {
    if segments == [] then 0 else
    var last := segments[|segments| - 1];
    if last.originalStart <= p then Interpolate(last, p, CanonicalStart) else StartImage(segments[..|segments| - 1], p)
  }

  /** Where an end offset `p` goes: into the segment that contains position `p - 1`. */
  ghost function EndImage(segments: seq<Segment>, p: int): int {
    if segments == [] then 0 else
    var last := segments[|segments| - 1];
    if last.originalStart < p then Interpolate(last, p, CanonicalEnd) else EndImage(segments[..|segments| - 1], p)
  }

  lemma {:induction false} SegmentsInside(segments: seq<Segment>, o: nat, c: nat, a: Text, b: Text, s: Segment)
    requires Aligned(segments, o, c, a, b) && s in segments
    ensures s.originalStart <= s.originalEnd <= o && s.canonicalStart <= s.canonicalEnd <= c
  {
    var last := segments[|segments| - 1];
    if s != last {
      SegmentsInside(segments[..|segments| - 1], last.originalStart, last.canonicalStart, a, b, s);
    }
  }

  lemma {:induction false} NothingOverlaps(segments: seq<Segment>, o: nat, c: nat, a: Text, b: Text, s: int, e: int)
    requires Aligned(segments, o, c, a, b) && (o <= s || e <= 0)
    ensures Overlapping(segments, s, e) == []
  {
    if segments != [] {
      var last := segments[|segments| - 1];
      NothingOverlaps(segments[..|segments| - 1], last.originalStart, last.canonicalStart, a, b, s, e);
    }
  }

  lemma {:induction false} FirstOverlapping(segments: seq<Segment>, o: nat, c: nat, a: Text, b: Text, s: int, e: int)
    requires Aligned(segments, o, c, a, b) && 0 <= s < e && s < o
    ensures Overlapping(segments, s, e) != []
    ensures Interpolate(Overlapping(segments, s, e)[0], s, CanonicalStart) == StartImage(segments, s)
  {
    var front, last := segments[..|segments| - 1], segments[|segments| - 1];
    if last.originalStart <= s {
      NothingOverlaps(front, last.originalStart, last.canonicalStart, a, b, s, e);
    } else {
      FirstOverlapping(front, last.originalStart, last.canonicalStart, a, b, s, e);
    }
  }

  lemma {:induction false} LastOverlapping(segments: seq<Segment>, o: nat, c: nat, a: Text, b: Text, s: int, e: int)
    requires Aligned(segments, o, c, a, b) && s < e && 0 < e <= o
    ensures var found := Overlapping(segments, s, e);
      found != [] && Interpolate(found[|found| - 1], e, CanonicalEnd) == EndImage(segments, e)
  {
    var front, last := segments[..|segments| - 1], segments[|segments| - 1];
    if last.originalStart >= e {
      LastOverlapping(front, last.originalStart, last.canonicalStart, a, b, s, e);
    }
  }

  lemma {:induction false} ImagesInside(segments: seq<Segment>, o: nat, c: nat, a: Text, b: Text, p: int)
    requires Aligned(segments, o, c, a, b)
    ensures 0 <= StartImage(segments, p) <= c && 0 <= EndImage(segments, p) <= c
  {
    if segments != [] {
      var last := segments[|segments| - 1];
      InterpolateInside(last, p, CanonicalStart);
      InterpolateInside(last, p, CanonicalEnd);
      ImagesInside(segments[..|segments| - 1], last.originalStart, last.canonicalStart, a, b, p);
    }
  }

  /** The three comparisons behind every ordering statement, all by walking the segments from the right. */
  lemma {:induction false} ImagesOrdered(segments: seq<Segment>, o: nat, c: nat, a: Text, b: Text, p: int, q: int)
    requires Aligned(segments, o, c, a, b) && 0 <= p <= q <= o
    ensures q < o ==> StartImage(segments, p) <= StartImage(segments, q)
    ensures 0 < p ==> EndImage(segments, p) <= EndImage(segments, q)
    ensures 0 < p && q < o ==> EndImage(segments, p) <= StartImage(segments, q)
    ensures p < q ==> StartImage(segments, p) <= EndImage(segments, q)
  {
    if segments != [] {
      var front, last := segments[..|segments| - 1], segments[|segments| - 1];
      ImagesInside(front, last.originalStart, last.canonicalStart, a, b, p);
      InterpolateInside(last, q, CanonicalStart);
      InterpolateInside(last, q, CanonicalEnd);
      if q <= last.originalStart {
        ImagesOrdered(front, last.originalStart, last.canonicalStart, a, b, p, q);
      }
      if last.originalStart < last.originalEnd {
        InterpolateMonotone(last, p, q, CanonicalStart, CanonicalStart);
        InterpolateMonotone(last, p, q, CanonicalStart, CanonicalEnd);
        InterpolateMonotone(last, p, q, CanonicalEnd, CanonicalStart);
        InterpolateMonotone(last, p, q, CanonicalEnd, CanonicalEnd);
      }
    }
  }

  // ----- where an endpoint lands -----

  /** `i` is the integer nearest to `p * w / n`; halves go up. */
  predicate NearestHalfUp(i: int, p: int, w: int, n: int) {
    2 * n * i <= 2 * p * w + n < 2 * n * (i + 1)
  }

  lemma DoubledProduct(q: real, n: real, w: real, p: real)
    requires q * n == p
    ensures 2.0 * n * (q * w) == 2.0 * p * w
  {
    assert n * (q * w) == (q * n) * w;
  }

  lemma Scaled(m: real, x: real, y: real)
    requires m > 0.0
    ensures x <= y ==> m * x <= m * y
    ensures x < y ==> m * x < m * y
  {
  }

  lemma IntegerProducts(m: int, i: int)
    ensures (m * i) as real == m as real * i as real
  {
  }

  lemma ScaledFloor(i: int, y: real, n: int, doubled: int)
    requires n > 0 && i as real <= y + 0.5 < (i + 1) as real && 2.0 * n as real * y == doubled as real
    ensures 2 * n * i <= doubled + n < 2 * n * (i + 1)
  {
    var m := (2 * n) as real;
    Scaled(m, i as real, y + 0.5);
    Scaled(m, y + 0.5, (i + 1) as real);
    Distributes(m, y);
    HalfOf(n);
    IntegerProducts(2 * n, i);
    IntegerProducts(2 * n, i + 1);
    assert m * y == doubled as real;
    assert m * (y + 0.5) == (doubled + n) as real;
    assert (2 * n * i) as real <= (doubled + n) as real < (2 * n * (i + 1)) as real;
  }

  lemma HalfOf(n: int)
    ensures (2 * n) as real * 0.5 == n as real && (2 * n) as real == 2.0 * n as real
  {
  }

  lemma Distributes(m: real, y: real)
    ensures m * (y + 0.5) == m * y + m * 0.5
  {
  }

  /** An offset inside a segment keeps its proportion, to the nearest offset of the canonical side. */
  lemma InterpolateNearest(s: Segment, x: int, bound: Bound)
    requires s.originalStart <= x <= s.originalEnd && s.originalStart < s.originalEnd
    requires s.canonicalStart <= s.canonicalEnd
    ensures NearestHalfUp(Interpolate(s, x, bound) - s.canonicalStart, x - s.originalStart,
                          s.canonicalEnd - s.canonicalStart, s.originalEnd - s.originalStart)
  {
    var p, n, w := x - s.originalStart, s.originalEnd - s.originalStart, s.canonicalEnd - s.canonicalStart;
    var q, i := Ratio(s, x), Interpolate(s, x, bound) - s.canonicalStart;
    InterpolateAt(s, x, bound, q);
    RatioOfPart(p, n, q);
    var y := q * w as real;
    assert (i + s.canonicalStart) as real <= s.canonicalStart as real + y + 0.5 < (i + s.canonicalStart + 1) as real;
    DoubledProduct(q, n as real, w as real, p as real);
    IntegerProducts(2 * p, w);
    ScaledFloor(i, y, n, 2 * p * w);
  }

  lemma RatioOfPart(p: int, n: int, q: real)
    requires 0 <= p <= n && n > 0 && q == p as real / n as real
    ensures q * n as real == p as real && Clamp01(q) == q
  {
    QuotientTimes(p as real, n as real);
    ProductSigns(q, n as real);
    assert 0.0 <= p as real <= n as real;
  }

  /** The segment that holds the character after a start offset, or before an end offset. */
  predicate HoldsStart(s: Segment, p: int) { s.originalStart <= p < s.originalEnd }

  predicate HoldsEnd(s: Segment, p: int) { s.originalStart < p <= s.originalEnd }

  /** The image keeps the proportion in which the offset divides its segment. */
  predicate Proportional(s: Segment, p: int, image: int) {
    NearestHalfUp(image - s.canonicalStart, p - s.originalStart,
                  s.canonicalEnd - s.canonicalStart, s.originalEnd - s.originalStart)
  }

  lemma {:induction false} StartIsProportional(segments: seq<Segment>, o: nat, c: nat, a: Text, b: Text, p: int)
    returns (k: nat)
    requires Aligned(segments, o, c, a, b) && 0 <= p < o
    ensures k < |segments| && HoldsStart(segments[k], p) && Proportional(segments[k], p, StartImage(segments, p))
    ensures forall j | 0 <= j < |segments| && j != k :: !HoldsStart(segments[j], p)
  {
    var front, last := segments[..|segments| - 1], segments[|segments| - 1];
    if last.originalStart <= p {
      k := |front|;
      InterpolateNearest(last, p, CanonicalStart);
      forall j | 0 <= j < |front| ensures !HoldsStart(segments[j], p) {
        SegmentsInside(front, last.originalStart, last.canonicalStart, a, b, front[j]);
      }
    } else {
      k := StartIsProportional(front, last.originalStart, last.canonicalStart, a, b, p);
    }
  }

  lemma {:induction false} EndIsProportional(segments: seq<Segment>, o: nat, c: nat, a: Text, b: Text, p: int)
    returns (k: nat)
    requires Aligned(segments, o, c, a, b) && 0 < p <= o
    ensures k < |segments| && HoldsEnd(segments[k], p) && Proportional(segments[k], p, EndImage(segments, p))
    ensures forall j | 0 <= j < |segments| && j != k :: !HoldsEnd(segments[j], p)
  {
    var front, last := segments[..|segments| - 1], segments[|segments| - 1];
    if last.originalStart < p {
      k := |front|;
      InterpolateNearest(last, p, CanonicalEnd);
      forall j | 0 <= j < |front| ensures !HoldsEnd(segments[j], p) {
        SegmentsInside(front, last.originalStart, last.canonicalStart, a, b, front[j]);
      }
    } else {
      k := EndIsProportional(front, last.originalStart, last.canonicalStart, a, b, p);
    }
  }

  // ----- what callers get -----

  /** For a non-empty span, projection fails exactly when the span misses the original text or there is no segment. */
  lemma ProjectionDefinedIff(segments: seq<Segment>, a: Text, b: Text, s: int, e: int)
    requires Aligned(segments, |a|, |b|, a, b) && s < e
    ensures ProjectSpanOntoCanonical(segments, s, e) == None <==> |a| <= s || e <= 0 || segments == []
  {
    if |a| <= s || e <= 0 {
      NothingOverlaps(segments, |a|, |b|, a, b, s, e);
    } else if segments != [] {
      if 0 <= s {
        FirstOverlapping(segments, |a|, |b|, a, b, s, e);
      } else {
        FirstSegmentOverlaps(segments, |a|, |b|, a, b, s, e);
      }
    }
  }

  lemma {:induction false} FirstSegmentOverlaps(segments: seq<Segment>, o: nat, c: nat, a: Text, b: Text, s: int,
                                                e: int)
    requires Aligned(segments, o, c, a, b) && segments != [] && s < 0 < e
    ensures Overlapping(segments, s, e) != []
  {
    if |segments| > 1 {
      var last := segments[|segments| - 1];
      FirstSegmentOverlaps(segments[..|segments| - 1], last.originalStart, last.canonicalStart, a, b, s, e);
    }
  }

  /** A non-empty span of the original projects to a span of the canonical text. */
  lemma ProjectionInRange(segments: seq<Segment>, a: Text, b: Text, s: int, e: int)
    requires Aligned(segments, |a|, |b|, a, b) && 0 <= s < e <= |a|
    ensures ProjectSpanOntoCanonical(segments, s, e) == Some(Span(StartImage(segments, s), EndImage(segments, e)))
    ensures 0 <= StartImage(segments, s) <= EndImage(segments, e) <= |b|
  {
    FirstOverlapping(segments, |a|, |b|, a, b, s, e);
    LastOverlapping(segments, |a|, |b|, a, b, s, e);
    ImagesInside(segments, |a|, |b|, a, b, s);
    ImagesInside(segments, |a|, |b|, a, b, e);
    ImagesOrdered(segments, |a|, |b|, a, b, s, e);
  }

  /**
   * Each end of a span lies in exactly one segment, and its image divides the canonical side of that segment in the
   * same proportion, to the nearest offset, halves going up.
   */
  lemma ProjectionKeepsProportion(segments: seq<Segment>, a: Text, b: Text, s: int, e: int)
    returns (first: nat, last: nat)
    requires Aligned(segments, |a|, |b|, a, b) && 0 <= s < e <= |a|
    ensures ProjectSpanOntoCanonical(segments, s, e).Some?
    ensures var x := ProjectSpanOntoCanonical(segments, s, e).value;
      && first < |segments| && HoldsStart(segments[first], s) && Proportional(segments[first], s, x.charStart)
      && last < |segments| && HoldsEnd(segments[last], e) && Proportional(segments[last], e, x.charEnd)
    ensures forall k | 0 <= k < |segments| && k != first :: !HoldsStart(segments[k], s)
    ensures forall k | 0 <= k < |segments| && k != last :: !HoldsEnd(segments[k], e)
  {
    ProjectionInRange(segments, a, b, s, e);
    first := StartIsProportional(segments, |a|, |b|, a, b, s);
    last := EndIsProportional(segments, |a|, |b|, a, b, e);
  }

  lemma InterpolateBeyond(s: Segment, x: int, bound: Bound)
    requires s.originalStart <= s.originalEnd && s.canonicalStart <= s.canonicalEnd
    ensures x <= s.originalStart && bound == CanonicalStart ==> Interpolate(s, x, bound) == s.canonicalStart
    ensures s.originalEnd <= x && bound == CanonicalEnd ==> Interpolate(s, x, bound) == s.canonicalEnd
  {
    if s.originalStart < s.originalEnd {
      var n, q := s.originalEnd - s.originalStart, Ratio(s, x);
      InterpolateAt(s, x, bound, q);
      RatioBeyond(x - s.originalStart, n, q);
      UnitProducts((s.canonicalEnd - s.canonicalStart) as real);
      RoundWhole(s.canonicalStart);
      RoundWhole(s.canonicalEnd);
    }
  }

  lemma RatioBeyond(p: int, n: int, q: real)
    requires n > 0 && q == p as real / n as real
    ensures p <= 0 ==> Clamp01(q) == 0.0
    ensures n <= p ==> Clamp01(q) == 1.0
  {
    QuotientTimes(p as real, n as real);
    ProductGrows(q, n as real);
  }

  lemma ProductGrows(q: real, y: real)
    requires y > 0.0
    ensures q > 0.0 ==> q * y > 0.0
    ensures q < 1.0 ==> q * y < y
  {
  }

  lemma RoundWhole(i: int)
    ensures Round(i as real) == i
  {
  }

  lemma {:induction false} StartsAtZero(segments: seq<Segment>, o: nat, c: nat, a: Text, b: Text, s: int, e: int)
    requires Aligned(segments, o, c, a, b) && segments != [] && s < 0 < e
    ensures segments[0].originalStart == 0 && segments[0].canonicalStart == 0
    ensures Overlapping(segments, s, e) != [] && Overlapping(segments, s, e)[0] == segments[0]
  {
    if |segments| > 1 {
      var last := segments[|segments| - 1];
      StartsAtZero(segments[..|segments| - 1], last.originalStart, last.canonicalStart, a, b, s, e);
    }
  }

  /** What sticks out of the text is cut off: such an end goes to the end of the canonical text. */
  lemma ProjectionCutsOff(segments: seq<Segment>, a: Text, b: Text, s: int, e: int)
    requires Aligned(segments, |a|, |b|, a, b) && segments != [] && s < e && s < |a| && 0 < e
    ensures ProjectSpanOntoCanonical(segments, s, e).Some?
    ensures s < 0 ==> ProjectSpanOntoCanonical(segments, s, e).value.charStart == 0
    ensures |a| < e ==> ProjectSpanOntoCanonical(segments, s, e).value.charEnd == |b|
  {
    ProjectionDefinedIff(segments, a, b, s, e);
    if s < 0 {
      StartsAtZero(segments, |a|, |b|, a, b, s, e);
      SegmentsInside(segments, |a|, |b|, a, b, segments[0]);
      InterpolateBeyond(segments[0], s, CanonicalStart);
    }
    if |a| < e {
      InterpolateBeyond(segments[|segments| - 1], e, CanonicalEnd);
    }
  }

  /** Moving an endpoint to the right never moves its image to the left. */
  lemma ProjectionMonotone(segments: seq<Segment>, a: Text, b: Text, s: int, e: int, s': int, e': int)
    requires Aligned(segments, |a|, |b|, a, b)
    requires 0 <= s < e <= |a| && 0 <= s' < e' <= |a| && s <= s' && e <= e'
    ensures var x, y := ProjectSpanOntoCanonical(segments, s, e), ProjectSpanOntoCanonical(segments, s', e');
      x.Some? && y.Some? && x.value.charStart <= y.value.charStart && x.value.charEnd <= y.value.charEnd
  {
    ProjectionInRange(segments, a, b, s, e);
    ProjectionInRange(segments, a, b, s', e');
    ImagesOrdered(segments, |a|, |b|, a, b, s, s');
    ImagesOrdered(segments, |a|, |b|, a, b, e, e');
  }

  /** Disjoint spans in order project to disjoint spans in the same order: rounding never makes them overlap. */
  lemma ProjectionKeepsDisjoint(segments: seq<Segment>, a: Text, b: Text, s: int, e: int, s': int, e': int)
    requires Aligned(segments, |a|, |b|, a, b) && 0 <= s < e <= s' < e' <= |a|
    ensures var x, y := ProjectSpanOntoCanonical(segments, s, e), ProjectSpanOntoCanonical(segments, s', e');
      x.Some? && y.Some? && x.value.charStart <= x.value.charEnd <= y.value.charStart <= y.value.charEnd
  {
    ProjectionInRange(segments, a, b, s, e);
    ProjectionInRange(segments, a, b, s', e');
    ImagesOrdered(segments, |a|, |b|, a, b, e, s');
  }

  lemma {:induction false} ImagesInRun(segments: seq<Segment>, o: nat, c: nat, a: Text, b: Text, run: Segment, s: int,
                                       e: int)
    requires Aligned(segments, o, c, a, b) && run in segments && IsRun(run, a, b)
    requires run.originalStart <= s < e <= run.originalEnd
    ensures StartImage(segments, s) == run.canonicalStart + (s - run.originalStart)
    ensures EndImage(segments, e) == run.canonicalStart + (e - run.originalStart)
  {
    var front, last := segments[..|segments| - 1], segments[|segments| - 1];
    RunCopies(run, a, b, 0);
    if run == last {
      InterpolateInRun(run, s, CanonicalStart);
      InterpolateInRun(run, e, CanonicalEnd);
    } else {
      SegmentsInside(front, last.originalStart, last.canonicalStart, a, b, run);
      ImagesInRun(front, last.originalStart, last.canonicalStart, a, b, run, s, e);
    }
  }

  lemma RunSliceCopies(run: Segment, a: Text, b: Text, s: nat, e: nat)
    requires IsRun(run, a, b) && run.originalStart <= s < e <= run.originalEnd
    ensures run.canonicalStart + (e - run.originalStart) <= |b|
    ensures b[run.canonicalStart + (s - run.originalStart)..run.canonicalStart + (e - run.originalStart)] == a[s..e]
  {
    RunCopies(run, a, b, 0);
    var right := b[run.canonicalStart + (s - run.originalStart)..run.canonicalStart + (e - run.originalStart)];
    forall t | 0 <= t < e - s ensures a[s..e][t] == right[t] {
      RunCopies(run, a, b, s - run.originalStart + t);
    }
  }

  /** A span inside a run projects to a span of the same text. */
  lemma ProjectionCopiesRuns(segments: seq<Segment>, a: Text, b: Text, run: Segment, s: int, e: int)
    requires Aligned(segments, |a|, |b|, a, b) && run in segments && IsRun(run, a, b)
    requires run.originalStart <= s < e <= run.originalEnd
    ensures var x := ProjectSpanOntoCanonical(segments, s, e);
      x.Some? && 0 <= x.value.charStart <= x.value.charEnd <= |b| && b[x.value.charStart..x.value.charEnd] == a[s..e]
  {
    ProjectionInRange(segments, a, b, s, e);
    ImagesInRun(segments, |a|, |b|, a, b, run, s, e);
    RunSliceCopies(run, a, b, s, e);
  }
}
