/** Maximal word spans of a text, and their projection onto the canonical form. */
module Tokenize {
  import opened Utf16
  import opened CanonicalMap
  import opened Projection

  datatype TokenSpan = TokenSpan(charStart: nat, charEnd: nat, surfaceText: Text)

  /** The unit at `i` belongs to a word code point; the Unicode classes L, M and N are the parameter. */
  predicate WordUnit(isWord: int -> bool, text: Text, i: nat)
    requires i < |text|
  {
    isWord(CodePointAround(text, i))
  }

  /** The spans are words of `text`, in order and never touching, that reach up to `end`. */
  ghost predicate Words(isWord: int -> bool, text: Text, spans: seq<TokenSpan>, end: nat)
    requires end <= |text|
  {
    && (forall k | 0 <= k < |spans| ::
          && spans[k].charStart < spans[k].charEnd <= end
          && spans[k].surfaceText == text[spans[k].charStart..spans[k].charEnd]
          && forall i | spans[k].charStart <= i < spans[k].charEnd :: WordUnit(isWord, text, i))
    && (forall k, l | 0 <= k < l < |spans| :: spans[k].charEnd < spans[l].charStart)
    && (forall i | 0 <= i < end && WordUnit(isWord, text, i) ::
          exists k :: 0 <= k < |spans| && spans[k].charStart <= i < spans[k].charEnd)
  }

  lemma WordsSkip(isWord: int -> bool, text: Text, spans: seq<TokenSpan>, i: nat)
    requires i < |text| && Words(isWord, text, spans, i) && !WordUnit(isWord, text, i)
    ensures Words(isWord, text, spans, i + 1)
  {
  }

  lemma WordsPush(isWord: int -> bool, text: Text, spans: seq<TokenSpan>, start: nat, i: nat)
    requires start < i <= |text| && Words(isWord, text, spans, start)
    requires spans != [] ==> spans[|spans| - 1].charEnd < start
    requires forall j | start <= j < i :: WordUnit(isWord, text, j)
    ensures Words(isWord, text, spans + [TokenSpan(start, i, text[start..i])], i)
  {
    var grown := spans + [TokenSpan(start, i, text[start..i])];
    forall j | 0 <= j < i && WordUnit(isWord, text, j)
      ensures exists k :: 0 <= k < |grown| && grown[k].charStart <= j < grown[k].charEnd
    {
      if j < start {
        var k :| 0 <= k < |spans| && spans[k].charStart <= j < spans[k].charEnd;
        assert grown[k] == spans[k];
      } else {
        assert grown[|spans|].charStart <= j < grown[|spans|].charEnd;
      }
    }
    forall k, l | 0 <= k < l < |grown| ensures grown[k].charEnd < grown[l].charStart {
      if l == |spans| && k < |spans| - 1 {
        assert spans[k].charEnd < spans[|spans| - 1].charStart;
      }
    }
  }

  function WordEnd(isWord: int -> bool, text: Text, i: nat): (e: nat)
    requires i <= |text|
    ensures i <= e <= |text| && forall j | i <= j < e :: WordUnit(isWord, text, j)
    ensures e < |text| ==> !WordUnit(isWord, text, e)
    decreases |text| - i
  {
    if i < |text| && WordUnit(isWord, text, i) then WordEnd(isWord, text, i + 1) else i
  }

  /** The words of `text` from position `i` on. */
  function Tokens(isWord: int -> bool, text: Text, i: nat): seq<TokenSpan>
    requires i <= |text|
    decreases |text| - i
  {
    if i == |text| then []
    else if !WordUnit(isWord, text, i) then Tokens(isWord, text, i + 1)
    else var e := WordEnd(isWord, text, i); [TokenSpan(i, e, text[i..e])] + Tokens(isWord, text, e)
  }

  lemma {:induction false} TokensExtendWords(isWord: int -> bool, text: Text, spans: seq<TokenSpan>, i: nat,
                                             all: seq<TokenSpan>)
    requires i <= |text| && Words(isWord, text, spans, i) && all == spans + Tokens(isWord, text, i)
    requires spans != [] && i < |text| && WordUnit(isWord, text, i) ==> spans[|spans| - 1].charEnd < i
    ensures Words(isWord, text, all, |text|)
    decreases |text| - i
  {
    if i == |text| {
      assert all == spans;
    } else if !WordUnit(isWord, text, i) {
      WordsSkip(isWord, text, spans, i);
      TokensExtendWords(isWord, text, spans, i + 1, all);
    } else {
      var e := WordEnd(isWord, text, i);
      WordsPush(isWord, text, spans, i, e);
      TokensExtendWords(isWord, text, spans + [TokenSpan(i, e, text[i..e])], e, all);
    }
  }

  /** Every word unit lies in a token span and nothing else does, so the spans are exactly the maximal words. */
  lemma TokensAreWords(isWord: int -> bool, text: Text)
    ensures Words(isWord, text, Tokens(isWord, text, 0), |text|)
  {
    var all := Tokens(isWord, text, 0);
    assert Words(isWord, text, [], 0) && all == [] + all;
    TokensExtendWords(isWord, text, [], 0, all);
  }

  method Tokenize(isWord: int -> bool, text: Text) returns (spans: seq<TokenSpan>)
    ensures spans == Tokens(isWord, text, 0) && Words(isWord, text, spans, |text|)
  {
    spans := [];
    var i: nat := 0;
    while i < |text|
      invariant i <= |text| && spans + Tokens(isWord, text, i) == Tokens(isWord, text, 0)
    {
      if WordUnit(isWord, text, i) {
        var end := WordEnd(isWord, text, i);
        spans := spans + [TokenSpan(i, end, text[i..end])];
        i := end;
      } else {
        i := i + 1;
      }
    }
    TokensAreWords(isWord, text);
  }

  /** The token spans of a text project to disjoint spans in token order. */
  lemma TokensProjectInOrder(isWord: int -> bool, a: Text, b: Text, segments: seq<Segment>, spans: seq<TokenSpan>,
                             k: nat, l: nat)
    requires Aligned(segments, |a|, |b|, a, b) && spans == Tokens(isWord, a, 0) && k < l < |spans|
    ensures var x := ProjectSpanOntoCanonical(segments, spans[k].charStart, spans[k].charEnd);
      var y := ProjectSpanOntoCanonical(segments, spans[l].charStart, spans[l].charEnd);
      x.Some? && y.Some? && 0 <= x.value.charStart <= x.value.charEnd <= y.value.charStart <= y.value.charEnd <= |b|
  {
    TokensAreWords(isWord, a);
    var s, t := spans[k], spans[l];
    assert s.charEnd < t.charStart;
    ProjectionKeepsDisjoint(segments, a, b, s.charStart, s.charEnd, t.charStart, t.charEnd);
    ProjectionInRange(segments, a, b, s.charStart, s.charEnd);
    ProjectionInRange(segments, a, b, t.charStart, t.charEnd);
  }
}
