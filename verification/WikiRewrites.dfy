/** The replace-until-stable loops of the wikitext cleaner: links and HTML comments. */
module WikiRewrites {
  import opened Common
  import opened TextReplace

  const LINK_START := "[["
  const LINK_END := "]]"
  const COMMENT_START := "<!--"
  const COMMENT_END := "-->"

  /** `[[` and `]]` at the start of a string. */
  predicate OpensLink(s: string) { |s| >= 2 && s[0] == '[' && s[1] == '[' }

  predicate ClosesLink(s: string) { |s| >= 2 && s[0] == ']' && s[1] == ']' }

  predicate IsBracket(c: char) { c == '[' || c == ']' }

  predicate Plain(s: string) { forall k | 0 <= k < |s| :: !IsBracket(s[k]) }

  /** The greedy run of `[^[\]]*`, or of `[^[\]|]*` when bars stop it too. */
  function RunLength(s: string, bars: bool): (n: nat)
    ensures n <= |s|
  {
    if s == [] || IsBracket(s[0]) || (bars && s[0] == '|') then 0 else 1 + RunLength(s[1..], bars)
  }

  lemma {:induction false} RunIs(s: string, bars: bool)
    ensures var n := RunLength(s, bars);
      && Plain(s[..n]) && (bars ==> '|' !in s[..n])
      && (n < |s| ==> IsBracket(s[n]) || (bars && s[n] == '|'))
  {
    if s != [] && !IsBracket(s[0]) && !(bars && s[0] == '|') {
      RunIs(s[1..], bars);
      assert s[..RunLength(s, bars)] == [s[0]] + s[1..][..RunLength(s[1..], bars)];
    }
  }

  /** `indexOf`. */
  function FirstAt(s: string, mark: string): (at: Option<nat>)
    ensures at.Some? ==> at.value + |mark| <= |s|
  {
    if mark <= s then Some(0)
    else if s == [] then None
    else
      match FirstAt(s[1..], mark)
      case None => None
      case Some(k) => Some(k + 1)
  }

  /** `[^[\]]*` up to the closing brackets, at the start of `s`; `skipped` characters come before it in the match. */
  function CloseLink(s: string, skipped: nat): Option<Match> {
    var n := RunLength(s, false);
    if ClosesLink(s[n..]) then Some(Match(s[..n], skipped + n + 2)) else None
  }

  /** `[[target|shown]]`. Neither run can match in two ways, so the pattern is never retried with a shorter run. */
  function FindPiped(s: string): (m: Option<Match>)
    ensures m.Some? ==> |m.value.text| < m.value.length <= |s|
  {
    if !OpensLink(s) then None else
    var n := 2 + RunLength(s[2..], true);
    if n < |s| && s[n] == '|' then CloseLink(s[n + 1..], n + 1) else None
  }

  /** `[[shown]]`. */
  function FindBare(s: string): (m: Option<Match>)
    ensures m.Some? ==> |m.value.text| < m.value.length <= |s|
  {
    if OpensLink(s) then CloseLink(s[2..], 2) else None
  }

  /** `<!-- ... -->`, up to the nearest end mark. */
  function FindComment(s: string): (m: Option<Match>)
    ensures m.Some? ==> |m.value.text| < m.value.length <= |s|
  {
    if !(COMMENT_START <= s) then None else
    match FirstAt(s[4..], COMMENT_END)
    case None => None
    case Some(n) => Some(Match([], 4 + n + 3))
  }

  const PIPED: Matcher := FindPiped
  const BARE: Matcher := FindBare
  const COMMENTS: Matcher := FindComment

  // ----- the link loop -----

  function LinkRound(s: string): (r: string)
    ensures |r| <= |s|
  {
    ReplaceAll(BARE, ReplaceAll(PIPED, s))
  }

  lemma LinkRoundShortens(s: string)
    ensures LinkRound(s) == s || |LinkRound(s)| < |s|
    ensures LinkRound(s) == s <==> NoMatch(PIPED, s) && NoMatch(BARE, s)
  {
    TwoReplacesShorten(PIPED, BARE, s);
  }

  /** The text that the loop ends with. */
  function Unlinked(s: string): string
    decreases |s|
  {
    LinkRoundShortens(s);
    if LinkRound(s) == s then s else Unlinked(LinkRound(s))
  }

  /** Every round that changes the text shortens it, so the loop ends. */
  method ReplaceWikiLinks(text: string) returns (current: string)
    ensures current == Unlinked(text)
  {
    var previous := text;
    current := LinkRound(previous);
    while current != previous
      invariant current == LinkRound(previous) && Unlinked(previous) == Unlinked(text)
      decreases |previous|
    {
      LinkRoundShortens(previous);
      previous := current;
      current := LinkRound(previous);
    }
  }

  /** `s[i..j]` is a link: `[[`, characters that are not brackets, `]]`. */
  predicate LinkBetween(s: string, i: nat, j: nat)
    requires i <= j <= |s|
  {
    j - i >= 4 && OpensLink(s[i..]) && ClosesLink(s[j - 2..]) && Plain(s[i + 2..j - 2])
  }

  predicate NoLink(s: string) {
    forall i, j | 0 <= i <= j <= |s| :: !LinkBetween(s, i, j)
  }

  lemma {:induction false} RunStopsAt(a: string, rest: string)
    requires Plain(a) && rest != [] && IsBracket(rest[0])
    ensures RunLength(a + rest, false) == |a|
  {
    if a == [] {
      assert a + rest == rest;
    } else {
      assert (a + rest)[1..] == a[1..] + rest;
      assert (a + rest)[0] == a[0];
      RunStopsAt(a[1..], rest);
    }
  }

  lemma LinkIsFound(s: string, i: nat, j: nat)
    requires i <= j <= |s| && LinkBetween(s, i, j)
    ensures FindBare(s[i..]) == Some(Match(s[i + 2..j - 2], j - i))
  {
    var from, shown, rest := s[i..], s[i + 2..j - 2], s[j - 2..];
    assert from[2..] == shown + rest;
    RunStopsAt(shown, rest);
    assert (shown + rest)[|shown|..] == rest;
  }

  lemma FoundIsLink(s: string, i: nat)
    requires i <= |s| && FindBare(s[i..]).Some?
    ensures var m := FindBare(s[i..]).value; i + m.length <= |s| && LinkBetween(s, i, i + m.length)
  {
    var from := s[i..];
    var inner := from[2..];
    var n := RunLength(inner, false);
    RunIs(inner, false);
    assert s[i + 2 + n..] == inner[n..];
    assert s[i + 2..i + 2 + n] == inner[..n];
  }

  lemma NoBareMatchIff(s: string)
    ensures NoMatch(BARE, s) <==> NoLink(s)
  {
    if NoMatch(BARE, s) {
      forall i, j | 0 <= i <= j <= |s| ensures !LinkBetween(s, i, j) {
        assert FindBare(s[i..]) == None;
        if LinkBetween(s, i, j) {
          LinkIsFound(s, i, j);
        }
      }
    }
    if NoLink(s) {
      forall i | 0 <= i <= |s| ensures FindBare(s[i..]) == None {
        if FindBare(s[i..]).Some? {
          FoundIsLink(s, i);
        }
      }
    }
  }

  lemma BareIsFound(s: string, inner: string, rest: string)
    requires OpensLink(s) && s[2..] == inner + rest && Plain(inner) && ClosesLink(rest)
    ensures FindBare(s).Some?
  {
    RunStopsAt(inner, rest);
    assert (inner + rest)[|inner|..] == rest;
  }

  lemma PlainJoin(target: string, shown: string)
    requires Plain(target) && Plain(shown)
    ensures Plain(target + ['|'] + shown)
  {
  }

  lemma CutTwice(s: string, n: nat, k: nat)
    requires n < |s| && n + 1 + k <= |s|
    ensures s == (s[..n] + [s[n]] + s[n + 1..][..k]) + s[n + 1..][k..]
  {
  }

  /** A piped match is a bare match with a longer text. */
  lemma PipedIsBare(s: string)
    requires FindPiped(s).Some?
    ensures FindBare(s).Some?
  {
    var inside := s[2..];
    var n := RunLength(inside, true);
    var after := inside[n + 1..];
    assert s[n + 3..] == after && s[n + 2] == inside[n];
    var k := RunLength(after, false);
    RunIs(inside, true);
    RunIs(after, false);
    CutTwice(inside, n, k);
    PlainJoin(inside[..n], after[..k]);
    BareIsFound(s, inside[..n] + ['|'] + after[..k], after[k..]);
  }

  lemma LinkRoundKeepsIff(s: string)
    ensures LinkRound(s) == s <==> NoLink(s)
  {
    LinkRoundShortens(s);
    NoBareMatchIff(s);
    if NoMatch(BARE, s) {
      forall i | 0 <= i <= |s| ensures FindPiped(s[i..]) == None {
        assert FindBare(s[i..]) == None;
        if FindPiped(s[i..]).Some? {
          PipedIsBare(s[i..]);
        }
      }
    }
  }

  /** When the loop ends no link is left, and only texts without links are returned unchanged. */
  lemma {:induction false} UnlinkedHasNoLink(s: string)
    ensures NoLink(Unlinked(s))
    ensures Unlinked(s) == s <==> NoLink(s)
    decreases |s|
  {
    LinkRoundShortens(s);
    LinkRoundKeepsIff(s);
    if LinkRound(s) != s {
      UnlinkedHasNoLink(LinkRound(s));
      UnlinkedIsNoLonger(LinkRound(s));
    }
  }

  lemma {:induction false} UnlinkedIsNoLonger(s: string)
    ensures |Unlinked(s)| <= |s|
    decreases |s|
  {
    LinkRoundShortens(s);
    if LinkRound(s) != s {
      UnlinkedIsNoLonger(LinkRound(s));
    }
  }

  // ----- the comment loop -----

  function Uncommented(s: string): string
    decreases |s|
  {
    ReplaceChangesIff(COMMENTS, s);
    if ReplaceAll(COMMENTS, s) == s then s else Uncommented(ReplaceAll(COMMENTS, s))
  }

  method StripHtmlComments(text: string) returns (current: string)
    ensures current == Uncommented(text)
  {
    var previous := text;
    current := ReplaceAll(COMMENTS, previous);
    while current != previous
      invariant current == ReplaceAll(COMMENTS, previous) && Uncommented(previous) == Uncommented(text)
      decreases |previous|
    {
      ReplaceChangesIff(COMMENTS, previous);
      previous := current;
      current := ReplaceAll(COMMENTS, previous);
    }
  }

  /** A comment starts at `i` and its end mark at `j`. */
  predicate CommentBetween(s: string, i: nat, j: nat)
    requires i + 4 <= j && j + 3 <= |s|
  {
    s[i..i + 4] == COMMENT_START && s[j..j + 3] == COMMENT_END
  }

  predicate NoComment(s: string) {
    forall i, j | 0 <= i && i + 4 <= j && j + 3 <= |s| :: !CommentBetween(s, i, j)
  }

  lemma {:induction false} FirstAtFinds(s: string, mark: string, k: nat)
    requires k <= |s| && mark <= s[k..]
    ensures FirstAt(s, mark).Some?
  {
    if !(mark <= s) {
      assert k > 0 by {
        assert s[0..] == s;
      }
      assert s[1..][k - 1..] == s[k..];
      FirstAtFinds(s[1..], mark, k - 1);
    }
  }

  lemma {:induction false} FirstAtIs(s: string, mark: string)
    requires FirstAt(s, mark).Some?
    ensures mark <= s[FirstAt(s, mark).value..]
  {
    if !(mark <= s) {
      FirstAtIs(s[1..], mark);
      assert s[1..][FirstAt(s[1..], mark).value..] == s[FirstAt(s, mark).value..];
    }
  }

  lemma CommentIsFound(s: string, i: nat, j: nat)
    requires i + 4 <= j && j + 3 <= |s| && CommentBetween(s, i, j)
    ensures FindComment(s[i..]).Some?
  {
    var from := s[i..];
    assert from[..4] == s[i..i + 4];
    assert from[4..][j - i - 4..][..3] == s[j..j + 3];
    FirstAtFinds(from[4..], COMMENT_END, j - i - 4);
  }

  lemma FoundIsComment(s: string, i: nat)
    requires i <= |s| && FindComment(s[i..]).Some?
    ensures exists j | i + 4 <= j && j + 3 <= |s| :: CommentBetween(s, i, j)
  {
    var from := s[i..];
    FirstAtIs(from[4..], COMMENT_END);
    var j := i + 4 + FirstAt(from[4..], COMMENT_END).value;
    assert s[i..i + 4] == from[..4];
    assert s[j..j + 3] == from[4..][j - i - 4..][..3];
    assert CommentBetween(s, i, j);
  }

  lemma NoCommentIff(s: string)
    ensures NoMatch(COMMENTS, s) <==> NoComment(s)
  {
    if NoMatch(COMMENTS, s) {
      forall i, j | 0 <= i && i + 4 <= j && j + 3 <= |s| ensures !CommentBetween(s, i, j) {
        assert FindComment(s[i..]) == None;
        if CommentBetween(s, i, j) {
          CommentIsFound(s, i, j);
        }
      }
    }
    if NoComment(s) {
      forall i | 0 <= i <= |s| ensures FindComment(s[i..]) == None {
        if FindComment(s[i..]).Some? {
          FoundIsComment(s, i);
        }
      }
    }
  }

  /** No complete comment is left, not even one that removing another comment brings together. */
  lemma {:induction false} UncommentedHasNoComment(s: string)
    ensures NoComment(Uncommented(s)) && |Uncommented(s)| <= |s|
    ensures Uncommented(s) == s <==> NoComment(s)
    decreases |s|
  {
    ReplaceChangesIff(COMMENTS, s);
    NoCommentIff(s);
    if ReplaceAll(COMMENTS, s) != s {
      UncommentedHasNoComment(ReplaceAll(COMMENTS, s));
    }
  }

  // ----- pages with comments -----

  predicate Lacks(s: string, mark: string) { forall i | 0 <= i <= |s| :: !(mark <= s[i..]) }

  /** Text, then a comment, and so on to a last text. */
  datatype Commented =
    | Last(text: string)
    | Piece(text: string, comment: string, rest: Commented)

  function PrintCommented(page: Commented): string {
    match page
    case Last(text) => text
    case Piece(text, comment, rest) => text + COMMENT_START + comment + COMMENT_END + PrintCommented(rest)
  }

  /** The texts between the comments, all of them and nothing else. */
  function TextOf(page: Commented): string {
    match page
    case Last(text) => text
    case Piece(text, _, rest) => text + TextOf(rest)
  }

  /** No text opens a comment itself, no comment holds its end mark, and no complete comment follows the others. */
  predicate WellMarked(page: Commented) {
    match page
    case Last(text) => NoComment(text)
    case Piece(text, comment, rest) => Lacks(text, COMMENT_START) && Lacks(comment, COMMENT_END) && WellMarked(rest)
  }

  lemma LacksRest(s: string, mark: string)
    requires Lacks(s, mark) && s != []
    ensures Lacks(s[1..], mark) && !(mark <= s)
  {
    assert s[0..] == s;
    forall i | 0 <= i <= |s[1..]| ensures !(mark <= s[1..][i..]) {
      assert s[1..][i..] == s[i + 1..];
    }
  }

  /** No start mark begins in a text and ends in the start mark after it. */
  lemma NoStartHere(text: string, rest: string, s: string)
    requires text != [] && !(COMMENT_START <= text) && COMMENT_START <= rest && s == text + rest
    ensures !(COMMENT_START <= s)
  {
    assert s[|text|] == '<';
    if |text| >= 4 {
      assert s[..4] == text[..4];
    }
  }

  lemma {:induction false} NoStartBefore(find: Matcher, text: string, rest: string, s: string)
    requires forall u: string | !(COMMENT_START <= u) :: find(u) == None
    requires Lacks(text, COMMENT_START) && COMMENT_START <= rest && s == text + rest
    ensures NoneIn(find, s, |text|)
    decreases |text|
  {
    if text != [] {
      LacksRest(text, COMMENT_START);
      NoStartHere(text, rest, s);
      assert s[1..] == text[1..] + rest;
      NoStartBefore(find, text[1..], rest, s[1..]);
    }
  }

  lemma TextIsCopied(text: string, rest: string)
    requires Lacks(text, COMMENT_START) && COMMENT_START <= rest
    ensures ReplaceAll(COMMENTS, text + rest) == text + ReplaceAll(COMMENTS, rest)
  {
    NoStartBefore(COMMENTS, text, rest, text + rest);
    PrefixIsCopied(COMMENTS, text, rest);
  }

  /** The first end mark after a body that has none is the one that follows it. */
  lemma {:induction false} NearestEnd(comment: string, rest: string)
    requires Lacks(comment, COMMENT_END)
    ensures FirstAt(comment + (COMMENT_END + rest), COMMENT_END) == Some(|comment|)
  {
    var s := comment + (COMMENT_END + rest);
    if comment == [] {
      assert s == COMMENT_END + rest;
    } else {
      LacksRest(comment, COMMENT_END);
      NearestEnd(comment[1..], rest);
      assert s[1..] == comment[1..] + (COMMENT_END + rest);
      assert s[|comment|] == '-' && s[|comment| + 1] == '-';
      assert |comment| >= 3 ==> s[..3] == comment[..3];
      assert !(COMMENT_END <= s);
    }
  }

  lemma CommentGoes(comment: string, rest: string)
    requires Lacks(comment, COMMENT_END)
    ensures ReplaceAll(COMMENTS, COMMENT_START + (comment + (COMMENT_END + rest))) == ReplaceAll(COMMENTS, rest)
  {
    var s := COMMENT_START + (comment + (COMMENT_END + rest));
    NearestEnd(comment, rest);
    assert s[4..] == comment + (COMMENT_END + rest);
    assert s[|s| - |rest|..] == rest;
    MatchIsReplaced(COMMENTS, s, [], rest);
    assert [] + ReplaceAll(COMMENTS, rest) == ReplaceAll(COMMENTS, rest);
  }

  lemma Regrouped(text: string, start: string, comment: string, end: string, rest: string)
    ensures text + start + comment + end + rest == text + (start + (comment + (end + rest)))
  {
  }

  lemma PieceGoes(text: string, comment: string, rest: string, s: string)
    requires Lacks(text, COMMENT_START) && Lacks(comment, COMMENT_END)
    requires s == text + COMMENT_START + comment + COMMENT_END + rest
    ensures ReplaceAll(COMMENTS, s) == text + ReplaceAll(COMMENTS, rest)
  {
    var after := COMMENT_START + (comment + (COMMENT_END + rest));
    Regrouped(text, COMMENT_START, comment, COMMENT_END, rest);
    TextIsCopied(text, after);
    CommentGoes(comment, rest);
  }

  /** One replace takes out all the comments of a page. */
  lemma {:induction false} PassTakesComments(page: Commented)
    requires WellMarked(page)
    ensures ReplaceAll(COMMENTS, PrintCommented(page)) == TextOf(page)
  {
    match page
    case Last(text) =>
      NoCommentIff(text);
      ReplaceChangesIff(COMMENTS, text);
    case Piece(text, comment, rest) =>
      PassTakesComments(rest);
      PieceGoes(text, comment, PrintCommented(rest), PrintCommented(page));
  }

  /**
   * Stripping a page of texts and comments leaves every text between the comments and nothing of the comments, exactly
   * when the texts put together make no new comment; otherwise it goes on with what they make.
   */
  lemma StripTakesComments(page: Commented)
    requires WellMarked(page)
    ensures Uncommented(PrintCommented(page)) == TextOf(page) <==> NoComment(TextOf(page))
    ensures Uncommented(PrintCommented(page)) == Uncommented(TextOf(page))
  {
    PassTakesComments(page);
    ReplaceChangesIff(COMMENTS, PrintCommented(page));
    UncommentedHasNoComment(TextOf(page));
  }
}
