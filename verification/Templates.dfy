/** Removing balanced `{{ ... }}` templates from wikitext. */
module Templates {

  /** The loop of `stripBalanced` from its current position: text is kept at depth 0 only. */
  function Strip(text: string, depth: nat, left: string, right: string): string
    requires left != [] && right != []
    decreases |text|
  {
    if text == [] then []
    else if left <= text then Strip(text[|left|..], depth + 1, left, right)
    else if depth > 0 && right <= text then Strip(text[|right|..], depth - 1, left, right)
    else (if depth == 0 then [text[0]] else []) + Strip(text[1..], depth, left, right)
  }

  /** `text.startsWith(mark, i)`. */
  predicate StartsAt(text: string, mark: string, i: nat)
    requires i <= |text|
  {
    i + |mark| <= |text| && text[i..i + |mark|] == mark
  }

  lemma Regroup(a: string, b: string, c: string)
    ensures a + (b + c) == (a + b) + c
  {
  }

  /** One step of the loop. */
  lemma StripFrom(text: string, i: nat, depth: nat, left: string, right: string)
    requires left != [] && right != [] && i < |text|
    ensures Strip(text[i..], depth, left, right) ==
      if StartsAt(text, left, i) then Strip(text[i + |left|..], depth + 1, left, right)
      else if depth > 0 && StartsAt(text, right, i) then Strip(text[i + |right|..], depth - 1, left, right)
      else (if depth == 0 then [text[i]] else []) + Strip(text[i + 1..], depth, left, right)
  {
    var rest := text[i..];
    assert left <= rest <==> StartsAt(text, left, i);
    assert right <= rest <==> StartsAt(text, right, i);
    assert StartsAt(text, left, i) ==> rest[|left|..] == text[i + |left|..];
    assert StartsAt(text, right, i) ==> rest[|right|..] == text[i + |right|..];
    assert rest[1..] == text[i + 1..];
  }

  /** The same step with the text kept so far; `answer` is what the loop ends with. */
  lemma StripStep(answer: string, result: string, text: string, i: nat, depth: nat, left: string, right: string)
    requires left != [] && right != [] && i < |text|
    requires answer == result + Strip(text[i..], depth, left, right)
    ensures answer ==
      if StartsAt(text, left, i) then result + Strip(text[i + |left|..], depth + 1, left, right)
      else if depth > 0 && StartsAt(text, right, i) then result + Strip(text[i + |right|..], depth - 1, left, right)
      else (if depth == 0 then result + [text[i]] else result) + Strip(text[i + 1..], depth, left, right)
  {
    StripFrom(text, i, depth, left, right);
    if depth == 0 {
      Regroup(result, [text[i]], Strip(text[i + 1..], depth, left, right));
    }
  }

  method StripBalanced(text: string, left: string, right: string) returns (result: string)
    requires left != [] && right != []
    ensures result == Strip(text, 0, left, right)
  {
    result := "";
    var depth, i := 0, 0;
    ghost var answer := Strip(text, 0, left, right);
    assert text[0..] == text;
    while i < |text|
      invariant 0 <= i <= |text| && depth >= 0
      invariant answer == result + Strip(text[i..], depth, left, right)
    {
      StripStep(answer, result, text, i, depth, left, right);
      if StartsAt(text, left, i) {
        depth, i := depth + 1, i + |left|;
      } else if depth > 0 && StartsAt(text, right, i) {
        depth, i := depth - 1, i + |right|;
      } else {
        if depth == 0 {
          result := result + [text[i]];
        }
        i := i + 1;
      }
    }
  }

  // ----- printing and stripping -----

  const OPENING := "{{"
  const CLOSING := "}}"

  predicate IsBrace(c: char) { c == '{' || c == '}' }

  /** A document: characters and templates, whose bodies are documents again. */
  datatype Doc =
    | End
    | Char(c: char, rest: Doc)
    | Template(body: Doc, rest: Doc)

  predicate BraceFree(doc: Doc) {
    match doc
    case End => true
    case Char(c, rest) => !IsBrace(c) && BraceFree(rest)
    case Template(body, rest) => BraceFree(body) && BraceFree(rest)
  }

  function Print(doc: Doc): string {
    match doc
    case End => []
    case Char(c, rest) => [c] + Print(rest)
    case Template(body, rest) => OPENING + Print(body) + CLOSING + Print(rest)
  }

  /** The text outside all templates. */
  function TopText(doc: Doc): string {
    match doc
    case End => []
    case Char(c, rest) => [c] + TopText(rest)
    case Template(_, rest) => TopText(rest)
  }

  lemma StripMark(rest: string, depth: nat)
    ensures Strip(OPENING + rest, depth, OPENING, CLOSING) == Strip(rest, depth + 1, OPENING, CLOSING)
    ensures Strip(CLOSING + rest, depth + 1, OPENING, CLOSING) == Strip(rest, depth, OPENING, CLOSING)
  {
    assert (OPENING + rest)[2..] == rest;
    assert (CLOSING + rest)[0] != OPENING[0] && (CLOSING + rest)[2..] == rest;
  }

  lemma {:induction false} StripPrinted(doc: Doc, tail: string, depth: nat)
    requires BraceFree(doc)
    ensures Strip(Print(doc) + tail, depth, OPENING, CLOSING) ==
            (if depth == 0 then TopText(doc) else []) + Strip(tail, depth, OPENING, CLOSING)
  {
    var text := Print(doc) + tail;
    match doc
    case End =>
      assert text == tail;
    case Char(c, rest) =>
      assert text[0] == c && text[1..] == Print(rest) + tail;
      StripPrinted(rest, tail, depth);
    case Template(body, rest) =>
      var after := Print(rest) + tail;
      assert text == OPENING + (Print(body) + (CLOSING + after));
      StripPrinted(body, CLOSING + after, depth + 1);
      StripPrinted(rest, tail, depth);
      StripTemplate(Print(body), after, depth);
  }

  lemma StripTemplate(body: string, after: string, depth: nat)
    requires var inner := body + (CLOSING + after);
      Strip(inner, depth + 1, OPENING, CLOSING) == Strip(CLOSING + after, depth + 1, OPENING, CLOSING)
    ensures Strip(OPENING + (body + (CLOSING + after)), depth, OPENING, CLOSING)
         == Strip(after, depth, OPENING, CLOSING)
  {
    StripMark(body + (CLOSING + after), depth);
    StripMark(after, depth);
  }

  /** Stripping undoes printing: exactly the text outside all templates is left, however deep they nest. */
  lemma StripUndoesPrint(doc: Doc)
    requires BraceFree(doc)
    ensures Strip(Print(doc), 0, OPENING, CLOSING) == TopText(doc)
  {
    StripPrinted(doc, [], 0);
    assert Print(doc) + [] == Print(doc) && TopText(doc) + [] == TopText(doc);
  }

  /** A closing mark without an opening one is text. */
  lemma StripKeepsStrayClosing(doc: Doc, rest: string)
    requires BraceFree(doc)
    ensures Strip(Print(doc) + (CLOSING + rest), 0, OPENING, CLOSING)
         == TopText(doc) + (CLOSING + Strip(rest, 0, OPENING, CLOSING))
  {
    StripPrinted(doc, CLOSING + rest, 0);
    assert (CLOSING + rest)[1..] == [CLOSING[1]] + rest;
    assert ([CLOSING[1]] + rest)[1..] == rest;
    assert Strip(CLOSING + rest, 0, OPENING, CLOSING) == CLOSING + Strip(rest, 0, OPENING, CLOSING);
  }

  /** An opening mark without a closing one takes everything after it along. */
  lemma StripDropsUnclosed(doc: Doc, body: Doc)
    requires BraceFree(doc) && BraceFree(body)
    ensures Strip(Print(doc) + (OPENING + Print(body)), 0, OPENING, CLOSING) == TopText(doc)
  {
    StripPrinted(doc, OPENING + Print(body), 0);
    StripMark(Print(body), 0);
    StripPrinted(body, [], 1);
    assert Print(body) + [] == Print(body) && TopText(doc) + [] == TopText(doc);
  }

  // ----- every input -----

  /** `text` contains no `mark`. */
  predicate Without(text: string, mark: string) {
    forall i | 0 <= i <= |text| :: !StartsAt(text, mark, i)
  }

  lemma StartsAtFront(text: string, mark: string)
    ensures StartsAt(text, mark, 0) <==> mark <= text
  {
  }

  lemma OpeningAhead(text: string)
    ensures OPENING <= text <==> |text| > 1 && text[0] == '{' && text[1] == '{'
  {
  }

  lemma WithoutTail(text: string, mark: string)
    requires text != [] && Without(text, mark)
    ensures Without(text[1..], mark) && !(mark <= text)
  {
    forall i | 0 <= i <= |text| - 1 ensures !StartsAt(text[1..], mark, i) {
      assert !StartsAt(text, mark, i + 1);
      if i + 1 + |mark| <= |text| {
        assert text[1..][i..i + |mark|] == text[i + 1..i + 1 + |mark|];
      }
    }
    StartsAtFront(text, mark);
    assert !StartsAt(text, mark, 0);
  }

  lemma WithoutPair(c: char, text: string)
    requires Without(text, OPENING) && (c == '{' ==> text == [] || text[0] != '{')
    ensures Without([c] + text, OPENING)
  {
    var all := [c] + text;
    forall i | 0 <= i <= |all| ensures !StartsAt(all, OPENING, i) {
      if i > 0 {
        assert !StartsAt(text, OPENING, i - 1);
        if i + 2 <= |all| {
          assert all[i..i + 2] == text[i - 1..i + 1];
        }
      } else if |all| >= 2 {
        assert all[0..2] == [c, text[0]];
      }
    }
  }

  /** Whatever the input, balanced or not, nothing that opens a template is left. */
  lemma {:induction false} StripLeavesNoOpening(text: string, depth: nat)
    ensures Without(Strip(text, depth, OPENING, CLOSING), OPENING)
    decreases |text|
  {
    if text == [] {
    } else if OPENING <= text {
      StripLeavesNoOpening(text[2..], depth + 1);
    } else if depth > 0 && CLOSING <= text {
      StripLeavesNoOpening(text[2..], depth - 1);
    } else {
      StripLeavesNoOpening(text[1..], depth);
      if depth == 0 {
        OpeningAhead(text);
        WithoutPair(text[0], Strip(text[1..], 0, OPENING, CLOSING));
      } else {
        assert Strip(text, depth, OPENING, CLOSING) == Strip(text[1..], depth, OPENING, CLOSING);
      }
    }
  }

  /** Text that opens no template is returned unchanged. */
  lemma {:induction false} StripKeepsPlainText(text: string)
    requires Without(text, OPENING)
    ensures Strip(text, 0, OPENING, CLOSING) == text
  {
    if text != [] {
      WithoutTail(text, OPENING);
      StripKeepsPlainText(text[1..]);
      assert text == [text[0]] + text[1..];
    }
  }

  /** Stripping changes a text exactly when it contains an opening, and a second time changes nothing. */
  lemma StripIsIdempotent(text: string)
    ensures var once := Strip(text, 0, OPENING, CLOSING);
      Strip(once, 0, OPENING, CLOSING) == once && (once == text <==> Without(text, OPENING))
  {
    StripLeavesNoOpening(text, 0);
    StripKeepsPlainText(Strip(text, 0, OPENING, CLOSING));
    if Without(text, OPENING) {
      StripKeepsPlainText(text);
    }
  }
}
