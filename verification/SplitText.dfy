/** Splitting a text on paragraph and sentence breaks, trimming the pieces and dropping the empty ones. */
module SplitText {
  import opened Utf16
  import Whitespace

  /** A piece together with its position in the text it was cut from. */
  datatype Piece = Piece(start: nat, text: Text)

  datatype Pattern = ParagraphBreak | SentenceEnd

  function SpaceEnd(text: Text, i: nat): (e: nat)
    requires i <= |text|
    ensures i <= e <= |text| && SpaceBetween(text, i, e) && (e < |text| ==> !IsSpace(text[e]))
    decreases |text| - i
  {
    if i < |text| && IsSpace(text[i]) then
      SpaceEnd(text, i + 1)
    else i
  }

  /** One past the last line feed of `text[i..e]`, or `i` when it has none. */
  function PastLastLineFeed(text: Text, i: nat, e: nat): (r: nat)
    requires i <= e <= |text|
    ensures i <= r <= e
    ensures i < r ==> text[r - 1] == LINE_FEED
    ensures forall k | r <= k < e :: text[k] != LINE_FEED
    decreases e - i
  {
    if i == e then i else if text[e - 1] == LINE_FEED then e else PastLastLineFeed(text, i, e - 1)
  }

  predicate IsTerminator(u: CodeUnit) { u == 0x2E || u == 0x21 || u == 0x3F || u == 0x061F }

  /**
   * How much of `text` the separator pattern takes at `i`, zero for no match. A paragraph break takes a line feed,
   * then white space up to its last line feed; a sentence end takes all the white space between a terminator and
   * the next character.
   */
  function MatchLength(pattern: Pattern, text: Text, i: nat): (length: nat)
    requires i < |text|
    ensures i + length <= |text| && SpaceBetween(text, i, i + length)
  {
    match pattern
    case ParagraphBreak =>
      if text[i] != LINE_FEED then 0 else
      var e := SpaceEnd(text, i + 1);
      var past := PastLastLineFeed(text, i + 1, e);
      if past == i + 1 then 0 else past - i
    case SentenceEnd =>
      var e := SpaceEnd(text, i);
      if i > 0 && IsTerminator(text[i - 1]) && e < |text| then e - i else 0
  }

  /** What the pattern takes at every position of `text`. */
  function MatchLengths(pattern: Pattern, text: Text): (cuts: seq<nat>)
    ensures Fits(cuts, text) && forall i | 0 <= i < |text| :: cuts[i] == MatchLength(pattern, text, i)
  {
    seq(|text|, i requires 0 <= i < |text| => MatchLength(pattern, text, i))
  }

  predicate Fits(cuts: seq<nat>, text: Text) {
    |cuts| == |text| && forall i | 0 <= i < |text| :: i + cuts[i] <= |text| && SpaceBetween(text, i, i + cuts[i])
  }

  /** `String.prototype.split`: the current piece starts at `p`, the next place to try the pattern is `q`. */
  function SplitFrom(cuts: seq<nat>, text: Text, p: nat, q: nat): seq<Piece>
    requires Fits(cuts, text) && p <= q <= |text|
    decreases |text| - q
  {
    if q == |text| then [Piece(p, text[p..])]
    else if cuts[q] == 0 then SplitFrom(cuts, text, p, q + 1)
    else [Piece(p, text[p..q])] + SplitFrom(cuts, text, q + cuts[q], q + cuts[q])
  }

  predicate IsSpaceUnit(u: CodeUnit) { IsSpace(u) }

  function TrimEnd(text: Text): (r: Text)
    ensures r <= text && SpaceBetween(text, |r|, |text|) && (r != [] ==> !IsSpace(r[|r| - 1]))
  {
    TrimRightEnds(text);
    Whitespace.TrimRight(IsSpaceUnit, text)
  }

  lemma {:induction false} TrimRightEnds(text: Text)
    ensures var r := Whitespace.TrimRight(IsSpaceUnit, text);
      r <= text && SpaceBetween(text, |r|, |text|) && (r != [] ==> !IsSpace(r[|r| - 1]))
  {
    if text != [] && IsSpace(text[|text| - 1]) {
      TrimRightEnds(text[..|text| - 1]);
    }
  }

  function Trim(piece: Piece): Piece {
    var lead := SpaceEnd(piece.text, 0);
    Piece(piece.start + lead, TrimEnd(piece.text[lead..]))
  }

  function TrimmedNonEmpty(pieces: seq<Piece>): seq<Piece> {
    if pieces == [] then [] else Keep(Trim(pieces[0]), TrimmedNonEmpty(pieces[1..]))
  }

  function Keep(first: Piece, rest: seq<Piece>): seq<Piece> {
    if first.text == [] then rest else [first] + rest
  }

  function Split(pattern: Pattern, text: Text): seq<Piece> {
    TrimmedNonEmpty(SplitFrom(MatchLengths(pattern, text), text, 0, 0))
  }

  /**
   * From position `from` on, `text` consists of the pieces, each at its own position and trimmed, with nothing
   * but white space before, between and after them.
   */
  ghost predicate Covers(text: Text, pieces: seq<Piece>, from: nat) {
    from <= |text| &&
    if pieces == [] then SpaceBetween(text, from, |text|) else
    var first := pieces[0];
    && from <= first.start && OccursAt(text, first.text, first.start) && SpaceBetween(text, from, first.start)
    && first.text != [] && !IsSpace(first.text[0]) && !IsSpace(first.text[|first.text| - 1])
    && Covers(text, pieces[1..], first.start + |first.text|)
  }

  /** White space before the first piece may start further left. */
  lemma CoversFromSpace(text: Text, pieces: seq<Piece>, from: nat, next: nat)
    requires from <= next <= |text| && SpaceBetween(text, from, next) && Covers(text, pieces, next)
    ensures Covers(text, pieces, from)
  {
  }

  lemma CoversPush(text: Text, first: Piece, rest: seq<Piece>, from: nat)
    requires from <= first.start && OccursAt(text, first.text, first.start) && SpaceBetween(text, from, first.start)
    requires first.text != [] && !IsSpace(first.text[0]) && !IsSpace(first.text[|first.text| - 1])
    requires Covers(text, rest, first.start + |first.text|)
    ensures Covers(text, [first] + rest, from)
  {
    assert ([first] + rest)[1..] == rest;
  }

  lemma InSlice(text: Text, p: nat, q: nat, i: nat, j: nat)
    requires p <= q <= |text| && i <= j <= q - p
    ensures text[p..q][i..j] == text[p + i..p + j]
    ensures SpaceBetween(text[p..q], i, j) ==> SpaceBetween(text, p + i, p + j)
  {
    assert forall k | 0 <= k < j - i :: text[p..q][i..j][k] == text[p + i..p + j][k];
    if SpaceBetween(text[p..q], i, j) {
      forall k | p + i <= k < p + j ensures IsSpace(text[k]) {
        assert IsSpace(text[p..q][k - p]) && text[p..q][k - p] == text[k];
      }
    }
  }

  /** Trimming `text[p..q]` leaves white space on both sides. */
  lemma TrimLocates(text: Text, p: nat, q: nat)
    requires p <= q <= |text|
    ensures var t := Trim(Piece(p, text[p..q]));
      && p <= t.start && t.start + |t.text| <= q && OccursAt(text, t.text, t.start)
      && SpaceBetween(text, p, t.start) && SpaceBetween(text, t.start + |t.text|, q)
      && (t.text != [] ==> !IsSpace(t.text[0]) && !IsSpace(t.text[|t.text| - 1]))
  {
    var raw := text[p..q];
    var lead := SpaceEnd(raw, 0);
    InSlice(text, p, q, 0, lead);
    TrimEndLocates(text, p + lead, q, raw[lead..]);
    TrimmedEnds(raw, lead);
  }

  lemma TrimmedEnds(raw: Text, lead: nat)
    requires lead == SpaceEnd(raw, 0)
    ensures var body := TrimEnd(raw[lead..]); body != [] ==> !IsSpace(body[0]) && !IsSpace(body[|body| - 1])
  {
    var body := TrimEnd(raw[lead..]);
    assert body != [] ==> body[0] == raw[lead];
  }

  lemma TrimEndLocates(text: Text, p: nat, q: nat, raw: Text)
    requires p <= q <= |text| && raw == text[p..q]
    ensures var body := TrimEnd(raw);
      p + |body| <= q && OccursAt(text, body, p) && SpaceBetween(text, p + |body|, q)
  {
    var body := TrimEnd(raw);
    InSlice(text, p, q, 0, |body|);
    assert body == raw[0..|body|];
    InSlice(text, p, q, |body|, q - p);
  }

  /** One more piece in front. */
  lemma CoversCons(text: Text, p: nat, q: nat, next: nat, rest: seq<Piece>)
    requires p <= q <= next <= |text| && SpaceBetween(text, q, next) && Covers(text, TrimmedNonEmpty(rest), next)
    ensures Covers(text, TrimmedNonEmpty([Piece(p, text[p..q])] + rest), p)
  {
    var pieces, kept := [Piece(p, text[p..q])] + rest, TrimmedNonEmpty(rest);
    assert pieces[1..] == rest;
    TrimLocates(text, p, q);
    var t := Trim(pieces[0]);
    if t.text == [] {
      CoversFromSpace(text, kept, p, next);
    } else {
      CoversFromSpace(text, kept, t.start + |t.text|, next);
      CoversPush(text, t, kept, p);
    }
  }

  /** Consecutive slices of `text` from `p` to its end: cut at every match and nowhere else. */
  ghost predicate Slices(cuts: seq<nat>, text: Text, pieces: seq<Piece>, p: nat)
    requires Fits(cuts, text)
  {
    && pieces != [] && pieces[0].start == p && OccursAt(text, pieces[0].text, p)
    && var q := p + |pieces[0].text|;
       && (forall r | p <= r < q :: cuts[r] == 0)
       && if |pieces| == 1 then q == |text|
          else
            && q < |text| && 0 < cuts[q] && pieces[1].start == q + cuts[q]
            && Slices(cuts, text, pieces[1..], pieces[1].start)
  }

  lemma {:induction false} SplitFromSlices(cuts: seq<nat>, text: Text, p: nat, q: nat)
    requires Fits(cuts, text) && p <= q <= |text| && forall r | p <= r < q :: cuts[r] == 0
    ensures Slices(cuts, text, SplitFrom(cuts, text, p, q), p)
    decreases |text| - q
  {
    if q < |text| {
      if cuts[q] == 0 {
        SplitFromSlices(cuts, text, p, q + 1);
      } else {
        var rest := SplitFrom(cuts, text, q + cuts[q], q + cuts[q]);
        SplitFromSlices(cuts, text, q + cuts[q], q + cuts[q]);
        assert ([Piece(p, text[p..q])] + rest)[1..] == rest;
      }
    }
  }

  lemma {:induction false} SlicesCover(cuts: seq<nat>, text: Text, pieces: seq<Piece>, p: nat)
    requires Fits(cuts, text) && Slices(cuts, text, pieces, p)
    ensures Covers(text, TrimmedNonEmpty(pieces), p)
  {
    var q := p + |pieces[0].text|;
    var rest, next := pieces[1..], if |pieces| == 1 then q else pieces[1].start;
    if |pieces| > 1 {
      SlicesCover(cuts, text, rest, next);
    }
    assert pieces[0] == Piece(p, text[p..q]);
    assert pieces == [Piece(p, text[p..q])] + rest;
    CoversCons(text, p, q, next, rest);
  }

  /** What `split`, `trim` and `filter` keep is the whole text up to white space, every piece at its position. */
  lemma SplitCovers(pattern: Pattern, text: Text)
    ensures Covers(text, Split(pattern, text), 0)
  {
    var cuts := MatchLengths(pattern, text);
    SplitFromSlices(cuts, text, 0, 0);
    SlicesCover(cuts, text, SplitFrom(cuts, text, 0, 0), 0);
  }

  // ----- reading `Covers` position by position -----

  lemma {:induction false} CoversAt(text: Text, pieces: seq<Piece>, from: nat, k: nat)
    requires Covers(text, pieces, from) && k < |pieces|
    ensures from <= pieces[k].start && OccursAt(text, pieces[k].text, pieces[k].start) && pieces[k].text != []
    ensures !IsSpace(pieces[k].text[0])
  {
    if k > 0 {
      CoversAt(text, pieces[1..], pieces[0].start + |pieces[0].text|, k - 1);
    }
  }

  /** Pieces are disjoint and in text order. */
  lemma {:induction false} CoversOrder(text: Text, pieces: seq<Piece>, from: nat, k: nat, l: nat)
    requires Covers(text, pieces, from) && k < l < |pieces|
    ensures pieces[k].start + |pieces[k].text| <= pieces[l].start
  {
    var next := pieces[0].start + |pieces[0].text|;
    if k == 0 {
      CoversAt(text, pieces[1..], next, l - 1);
    } else {
      CoversOrder(text, pieces[1..], next, k - 1, l - 1);
    }
  }

  /** Every character that is not white space lies in a piece. */
  lemma {:induction false} CoversFinds(text: Text, pieces: seq<Piece>, from: nat, i: nat)
    requires Covers(text, pieces, from) && from <= i < |text| && !IsSpace(text[i])
    ensures exists k :: 0 <= k < |pieces| && pieces[k].start <= i < pieces[k].start + |pieces[k].text|
  {
    var next := pieces[0].start + |pieces[0].text|;
    if i < next {
      assert pieces[0].start <= i < next;
    } else {
      CoversFinds(text, pieces[1..], next, i);
      var k :| 0 <= k < |pieces[1..]| && pieces[1..][k].start <= i < pieces[1..][k].start + |pieces[1..][k].text|;
      assert pieces[k + 1] == pieces[1..][k];
    }
  }

  ghost predicate InExactlyOne(pieces: seq<Piece>, i: nat) {
    exists k :: 0 <= k < |pieces| && pieces[k].start <= i < pieces[k].start + |pieces[k].text|
      && forall l | 0 <= l < |pieces| && l != k :: !(pieces[l].start <= i < pieces[l].start + |pieces[l].text|)
  }

  lemma CoversOnce(text: Text, pieces: seq<Piece>, i: nat)
    requires Covers(text, pieces, 0) && i < |text| && !IsSpace(text[i])
    ensures InExactlyOne(pieces, i)
  {
    CoversFinds(text, pieces, 0, i);
    var k :| 0 <= k < |pieces| && pieces[k].start <= i < pieces[k].start + |pieces[k].text|;
    forall l | 0 <= l < |pieces| && l != k ensures !(pieces[l].start <= i < pieces[l].start + |pieces[l].text|) {
      if l < k { CoversOrder(text, pieces, 0, l, k); } else { CoversOrder(text, pieces, 0, k, l); }
    }
  }

  // ----- where the cuts are -----

  /** The white space `text[i..j]` separates: it holds a blank line, or it follows a sentence terminator. */
  ghost predicate Separates(pattern: Pattern, text: Text, i: nat, j: nat)
    requires i <= j <= |text|
  {
    match pattern
    case ParagraphBreak => exists x, y :: i <= x < y < j && text[x] == LINE_FEED && text[y] == LINE_FEED
    case SentenceEnd => 0 < i < j && IsTerminator(text[i - 1])
  }

  lemma {:induction false} SpaceEndReaches(text: Text, i: nat, j: nat)
    requires i <= j <= |text| && SpaceBetween(text, i, j)
    ensures SpaceEnd(text, i) >= j
    decreases j - i
  {
    if i < j {
      SpaceEndReaches(text, i + 1, j);
    }
  }

  /** The pattern matches somewhere in a separating stretch of white space that does not end the text. */
  lemma SeparatorMatches(pattern: Pattern, text: Text, i: nat, j: nat)
    requires i < j < |text| && SpaceBetween(text, i, j) && !IsSpace(text[j]) && Separates(pattern, text, i, j)
    ensures exists r :: i <= r < j && MatchLength(pattern, text, r) > 0
  {
    match pattern
    case ParagraphBreak =>
      var x, y :| i <= x < y < j && text[x] == LINE_FEED && text[y] == LINE_FEED;
      SpaceEndReaches(text, x + 1, j);
      assert MatchLength(pattern, text, x) > 0;
    case SentenceEnd =>
      SpaceEndReaches(text, i, j);
      assert MatchLength(pattern, text, i) > 0;
  }

  /** White space runs from the end of `x` to `q`, a match was cut out at `q`, and it lies before `y`. */
  ghost predicate CutBetween(cuts: seq<nat>, text: Text, x: Piece, q: nat, y: Piece)
    requires Fits(cuts, text)
  {
    var end := x.start + |x.text|;
    end <= q < |text| && SpaceBetween(text, end, q) && 0 < cuts[q] && q + cuts[q] <= y.start <= |text|
  }

  /** Where the pattern matches, the white space taken separates, also when it is part of a longer stretch. */
  lemma MatchSeparates(pattern: Pattern, text: Text, x: Piece, q: nat, y: Piece)
    requires CutBetween(MatchLengths(pattern, text), text, x, q, y)
    ensures Separates(pattern, text, x.start + |x.text|, y.start)
  {
    match pattern
    case ParagraphBreak =>
      assert text[q] == LINE_FEED && text[q + MatchLength(pattern, text, q) - 1] == LINE_FEED;
    case SentenceEnd =>
      assert IsTerminator(text[q - 1]) && x.start + |x.text| == q;
  }

  lemma FirstCut(cuts: seq<nat>, text: Text, pieces: seq<Piece>, p: nat)
    requires Fits(cuts, text) && Slices(cuts, text, pieces, p)
    requires |pieces| > 1 && TrimmedNonEmpty(pieces[1..]) != []
    ensures CutBetween(cuts, text, Trim(pieces[0]), p + |pieces[0].text|, TrimmedNonEmpty(pieces[1..])[0])
  {
    var q := p + |pieces[0].text|;
    assert pieces[0] == Piece(p, text[p..q]);
    TrimLocates(text, p, q);
    SlicesCover(cuts, text, pieces[1..], pieces[1].start);
    CoversAt(text, TrimmedNonEmpty(pieces[1..]), pieces[1].start, 0);
  }

  ghost predicate CutApart(cuts: seq<nat>, text: Text, kept: seq<Piece>)
    requires Fits(cuts, text)
  {
    |kept| < 2 ||
    ( && (exists q :: CutBetween(cuts, text, kept[0], q, kept[1]))
      && CutApart(cuts, text, kept[1..]))
  }

  lemma {:induction false} SlicesCutApart(cuts: seq<nat>, text: Text, pieces: seq<Piece>, p: nat)
    requires Fits(cuts, text) && Slices(cuts, text, pieces, p)
    ensures CutApart(cuts, text, TrimmedNonEmpty(pieces))
  {
    if |pieces| > 1 {
      var first, kept := Trim(pieces[0]), TrimmedNonEmpty(pieces[1..]);
      SlicesCutApart(cuts, text, pieces[1..], pieces[1].start);
      if first.text != [] && kept != [] {
        FirstCut(cuts, text, pieces, p);
        var all := [first] + kept;
        assert TrimmedNonEmpty(pieces) == all && all[1..] == kept;
        assert CutBetween(cuts, text, all[0], p + |pieces[0].text|, all[1]);
      }
    }
  }

  lemma {:induction false} CutApartAt(cuts: seq<nat>, text: Text, kept: seq<Piece>, k: nat) returns (q: nat)
    requires Fits(cuts, text) && CutApart(cuts, text, kept) && k + 1 < |kept|
    ensures CutBetween(cuts, text, kept[k], q, kept[k + 1])
  {
    if k == 0 {
      q :| CutBetween(cuts, text, kept[0], q, kept[1]);
    } else {
      q := CutApartAt(cuts, text, kept[1..], k - 1);
    }
  }

  lemma KeptAt(first: Piece, rest: seq<Piece>, k: nat)
    requires k < |Keep(first, rest)|
    ensures
      if first.text != [] && k == 0 then Keep(first, rest)[k] == first
      else
        var l := if first.text == [] then k else k - 1;
        l < |rest| && Keep(first, rest)[k] == rest[l]
  {
  }

  lemma FirstUnbroken(cuts: seq<nat>, text: Text, pieces: seq<Piece>, p: nat, r: nat)
    requires Fits(cuts, text) && Slices(cuts, text, pieces, p)
    requires Trim(pieces[0]).start <= r < Trim(pieces[0]).start + |Trim(pieces[0]).text|
    ensures r < |text| && cuts[r] == 0
  {
    var q := p + |pieces[0].text|;
    assert pieces[0] == Piece(p, text[p..q]);
    TrimLocates(text, p, q);
  }

  lemma {:induction false} SlicesUnbroken(cuts: seq<nat>, text: Text, pieces: seq<Piece>, p: nat, k: nat, r: nat)
    requires Fits(cuts, text) && Slices(cuts, text, pieces, p)
    requires k < |TrimmedNonEmpty(pieces)|
    requires var x := TrimmedNonEmpty(pieces)[k]; x.start <= r < x.start + |x.text| <= |text|
    ensures cuts[r] == 0
  {
    var t := Trim(pieces[0]);
    KeptAt(t, TrimmedNonEmpty(pieces[1..]), k);
    if t.text != [] && k == 0 {
      FirstUnbroken(cuts, text, pieces, p, r);
    } else if t.text == [] {
      SlicesUnbroken(cuts, text, pieces[1..], pieces[1].start, k, r);
    } else {
      SlicesUnbroken(cuts, text, pieces[1..], pieces[1].start, k - 1, r);
    }
  }

  /** Neighbouring pieces are cut apart at a separator: a blank line, or white space after a terminator. */
  lemma SplitOnlyAtSeparators(pattern: Pattern, text: Text, k: nat)
    requires k + 1 < |Split(pattern, text)|
    ensures var x, y := Split(pattern, text)[k], Split(pattern, text)[k + 1];
      x.start + |x.text| <= y.start <= |text| && Separates(pattern, text, x.start + |x.text|, y.start)
  {
    var cuts := MatchLengths(pattern, text);
    SplitFromSlices(cuts, text, 0, 0);
    SlicesCutApart(cuts, text, SplitFrom(cuts, text, 0, 0), 0);
    var q := CutApartAt(cuts, text, Split(pattern, text), k);
    MatchSeparates(pattern, text, Split(pattern, text)[k], q, Split(pattern, text)[k + 1]);
  }

  /** No stretch of white space inside a piece is a separator. */
  lemma SplitAtEverySeparator(pattern: Pattern, text: Text, k: nat, i: nat, j: nat)
    requires k < |Split(pattern, text)|
    requires var x := Split(pattern, text)[k]; x.start <= i < j < x.start + |x.text| <= |text|
    requires SpaceBetween(text, i, j) && !IsSpace(text[j])
    ensures !Separates(pattern, text, i, j)
  {
    if Separates(pattern, text, i, j) {
      var cuts := MatchLengths(pattern, text);
      SeparatorMatches(pattern, text, i, j);
      var r :| i <= r < j && MatchLength(pattern, text, r) > 0;
      SplitFromSlices(cuts, text, 0, 0);
      SlicesUnbroken(cuts, text, SplitFrom(cuts, text, 0, 0), 0, k, r);
    }
  }
}
