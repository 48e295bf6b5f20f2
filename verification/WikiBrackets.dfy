/** What the link loop makes of any text with balanced brackets, however deeply links are nested. */
module WikiBrackets {
  import opened Common
  import opened TextReplace
  import opened WikiRewrites

  const BAR := "|"

  /** A text with balanced double brackets: plain text or a link, and what follows. */
  datatype Doc =
    | End
    | Text(s: string, rest: Doc)
    | Link(body: Doc, rest: Doc)

  predicate Unbarred(s: string) { Plain(s) && '|' !in s }

  predicate WellFormed(doc: Doc) {
    match doc
    case End => true
    case Text(s, rest) => Plain(s) && WellFormed(rest)
    case Link(body, rest) => WellFormed(body) && WellFormed(rest)
  }

  function Framed(x: string): string { LINK_START + (x + LINK_END) }

  function Print(doc: Doc): string {
    match doc
    case End => []
    case Text(s, rest) => s + Print(rest)
    case Link(body, rest) => Framed(Print(body)) + Print(rest)
  }

  predicate AllText(doc: Doc) {
    match doc
    case End => true
    case Text(_, rest) => AllText(rest)
    case Link(_, _) => false
  }

  /** What follows the first bar. */
  function AfterBar(s: string): string
    requires '|' in s
  {
    if s[0] == '|' then s[1..] else AfterBar(s[1..])
  }

  // ----- what the loop leaves of a text -----

  function Max(x: nat, y: nat): nat { if x >= y then x else y }

  predicate Odd(n: nat) { n != 0 && !Odd(n - 1) }

  /** The pass that replaces a link whose body became `x` in the given pass. */
  function Next(pass: nat, x: string): nat {
    if Odd(pass) || '|' in x then pass + 1 else pass + 2
  }

  /** What that pass leaves: the whole body, or after an even pass without what precedes its first bar. */
  function Unwrapped(pass: nat, x: string): string {
    if !Odd(pass) && '|' in x then AfterBar(x) else x
  }

  /**
   * The number of passes after which a text has no link left. Odd passes replace links with a bar, even passes all
   * links; a link is replaced in the first such pass after its body has become plain text.
   */
  function Passes(doc: Doc): nat {
    match doc
    case End => 0
    case Text(_, rest) => Passes(rest)
    case Link(body, rest) => Max(Next(Passes(body), Shown(body)), Passes(rest))
  }

  function Shown(doc: Doc): string {
    match doc
    case End => []
    case Text(s, rest) => s + Shown(rest)
    case Link(body, rest) => Unwrapped(Passes(body), Shown(body)) + Shown(rest)
  }

  // ----- single steps of a replace -----

  /** Nothing matches where no link opens. */
  ghost predicate FindsLinks(find: Matcher) {
    forall s | !OpensLink(s) :: find(s) == None
  }

  lemma PatternsFindLinks()
    ensures FindsLinks(PIPED) && FindsLinks(BARE)
  {
    forall s | !OpensLink(s) ensures PIPED(s) == None && BARE(s) == None {
    }
  }

  lemma {:induction false} PlainNoneIn(find: Matcher, s: string, n: nat)
    requires FindsLinks(find) && n <= |s| && Plain(s[..n])
    ensures NoneIn(find, s, n)
    decreases n
  {
    if n > 0 {
      assert s[..n][0] == s[0];
      assert s[1..][..n - 1] == s[..n][1..];
      PlainNoneIn(find, s[1..], n - 1);
    }
  }

  lemma {:induction false} BarStopsRun(a: string, rest: string)
    requires Unbarred(a) && rest != [] && (IsBracket(rest[0]) || rest[0] == '|')
    ensures RunLength(a + rest, true) == |a|
  {
    if a == [] {
      assert a + rest == rest;
    } else {
      assert (a + rest)[1..] == a[1..] + rest;
      BarStopsRun(a[1..], rest);
    }
  }

  lemma CloseLinkAfter(shown: string, rest: string, skipped: nat)
    requires Plain(shown)
    ensures CloseLink(shown + (LINK_END + rest), skipped) == Some(Match(shown, skipped + |shown| + 2))
  {
    RunStopsAt(shown, LINK_END + rest);
    assert (shown + (LINK_END + rest))[|shown|..] == LINK_END + rest;
    assert (shown + (LINK_END + rest))[..|shown|] == shown;
  }

  lemma NamedIsFound(s: string, target: string, after: string, shown: string, rest: string)
    requires Unbarred(target) && Plain(shown) && OpensLink(s) && s[2..] == target + after
    requires after != [] && after[0] == '|' && after[1..] == shown + (LINK_END + rest)
    ensures PIPED(s) == Some(Match(shown, |target| + |shown| + 5))
  {
    BarStopsRun(target, after);
    assert s[2..][|target|] == '|' && s[2..][|target| + 1..] == after[1..];
    assert s[|target| + 3..] == s[2..][|target| + 1..];
    CloseLinkAfter(shown, rest, |target| + 3);
  }

  lemma UnnamedIsFound(s: string, shown: string, rest: string)
    requires Plain(shown) && s == LINK_START + (shown + (LINK_END + rest))
    ensures FindBare(s) == Some(Match(shown, |shown| + 4))
  {
    assert s[2..] == shown + (LINK_END + rest);
    CloseLinkAfter(shown, rest, 2);
  }

  lemma UnnamedIsNotPiped(s: string, shown: string, rest: string)
    requires Unbarred(shown) && s == LINK_START + (shown + (LINK_END + rest))
    ensures FindPiped(s) == None
  {
    assert s[2..] == shown + (LINK_END + rest);
    BarStopsRun(shown, LINK_END + rest);
    assert s[2 + |shown|] == ']';
  }

  lemma TextStep(find: Matcher, a: string, rest: string)
    requires FindsLinks(find) && Plain(a)
    ensures ReplaceAll(find, a + rest) == a + ReplaceAll(find, rest)
  {
    assert (a + rest)[..|a|] == a;
    PlainNoneIn(find, a + rest, |a|);
    PrefixIsCopied(find, a, rest);
  }

  lemma NamedStep(s: string, target: string, after: string, shown: string, rest: string)
    requires Unbarred(target) && Plain(shown) && OpensLink(s) && s[2..] == target + after
    requires after != [] && after[0] == '|' && after[1..] == shown + (LINK_END + rest)
    requires |s| == |target| + |shown| + 5 + |rest| && s[|s| - |rest|..] == rest
    ensures ReplaceAll(PIPED, s) == shown + ReplaceAll(PIPED, rest)
  {
    NamedIsFound(s, target, after, shown, rest);
    assert PIPED(s) == Some(Match(shown, |s| - |rest|));
    MatchIsReplaced(PIPED, s, shown, rest);
  }

  lemma UnnamedBareStep(s: string, shown: string, rest: string)
    requires Plain(shown) && s == LINK_START + (shown + (LINK_END + rest))
    ensures ReplaceAll(BARE, s) == shown + ReplaceAll(BARE, rest)
  {
    UnnamedIsFound(s, shown, rest);
    UnnamedTail(s, shown, rest);
    MatchIsReplaced(BARE, s, shown, rest);
  }

  lemma NamedTail(s: string, target: string, shown: string, rest: string)
    requires s == LINK_START + (target + (BAR + (shown + (LINK_END + rest))))
    ensures |s| == |target| + |shown| + 5 + |rest| && s[|s| - |rest|..] == rest
    ensures OpensLink(s) && s[2..] == target + (BAR + (shown + (LINK_END + rest)))
  {
  }

  lemma UnnamedTail(s: string, shown: string, rest: string)
    requires s == LINK_START + (shown + (LINK_END + rest))
    ensures |s| == |shown| + 4 + |rest| && s[|s| - |rest|..] == rest
    ensures s == (LINK_START + shown + LINK_END) + rest
  {
  }

  lemma BarSplits(x: string) returns (target: string)
    requires Plain(x) && '|' in x
    ensures Unbarred(target) && Plain(AfterBar(x)) && x == target + (BAR + AfterBar(x))
    decreases |x|
  {
    if x[0] == '|' {
      target := [];
      assert x == BAR + x[1..];
    } else {
      target := BarSplits(x[1..]);
      target := [x[0]] + target;
    }
  }

  // ----- one pass over a text -----

  function Pattern(bare: bool): Matcher { if bare then BARE else PIPED }

  function Pass(doc: Doc, bare: bool): Doc {
    match doc
    case End => End
    case Text(s, rest) => Text(s, Pass(rest, bare))
    case Link(body, rest) =>
      if !AllText(body) then Link(Pass(body, bare), Pass(rest, bare))
      else if bare then Text(Print(body), Pass(rest, bare))
      else if '|' in Print(body) then Text(AfterBar(Print(body)), Pass(rest, bare))
      else Link(body, Pass(rest, bare))
  }

  lemma {:induction false} AllTextIsPlain(doc: Doc)
    requires WellFormed(doc)
    ensures AllText(doc) ==> Plain(Print(doc))
  {
    if doc.Text? {
      AllTextIsPlain(doc.rest);
    }
  }

  /** A text with links starts with plain text and an opening bracket. */
  lemma {:induction false} LinkOpens(doc: Doc) returns (before: string, after: string)
    requires WellFormed(doc) && !AllText(doc)
    ensures Plain(before) && Print(doc) == before + (LINK_START + after)
  {
    if doc.Text? {
      before, after := LinkOpens(doc.rest);
      before := doc.s + before;
    } else {
      before, after := [], (Print(doc.body) + LINK_END) + Print(doc.rest);
    }
  }

  lemma CloseLinkStops(x: string, before: string, after: string, skipped: nat)
    requires Plain(before) && x == before + (LINK_START + after)
    ensures CloseLink(x, skipped) == None
  {
    RunStopsAt(before, LINK_START + after);
    assert x[|before|..] == LINK_START + after;
  }

  lemma OuterNotBare(s: string, before: string, after: string)
    requires Plain(before) && s == LINK_START + (before + (LINK_START + after))
    ensures BARE(s) == None
  {
    assert s[2..] == before + (LINK_START + after);
    CloseLinkStops(s[2..], before, after, 2);
  }

  lemma BarBeforeLink(inner: string, before: string, after: string) returns (n: nat)
    requires Plain(before) && inner == before + (LINK_START + after)
    ensures n == RunLength(inner, true) && n < |inner|
    ensures inner[n] == '|' ==> n < |before| && inner[n + 1..] == before[n + 1..] + (LINK_START + after)
  {
    n := RunLength(inner, true);
    RunStopsAt(before, LINK_START + after);
    BarredRunIsShorter(inner);
    assert inner[|before|] == '[';
  }

  lemma BarredStops(inner: string, before: string, after: string, n: nat, skipped: nat)
    requires Plain(before) && inner == before + (LINK_START + after) && n == RunLength(inner, true)
    ensures n < |inner| && (inner[n] == '|' ==> CloseLink(inner[n + 1..], skipped) == None)
  {
    var k := BarBeforeLink(inner, before, after);
    if inner[n] == '|' {
      CloseLinkStops(inner[n + 1..], before[n + 1..], after, skipped);
    }
  }

  lemma OuterNotPiped(s: string, inner: string, before: string, after: string)
    requires Plain(before) && OpensLink(s) && s[2..] == inner && inner == before + (LINK_START + after)
    ensures PIPED(s) == None
  {
    var n := RunLength(inner, true);
    BarredStops(inner, before, after, n, n + 3);
    assert s[n + 3..] == inner[n + 1..] && s[n + 2] == inner[n];
  }

  lemma {:induction false} BarredRunIsShorter(s: string)
    ensures RunLength(s, true) <= RunLength(s, false)
  {
    if s != [] && !IsBracket(s[0]) && s[0] != '|' {
      BarredRunIsShorter(s[1..]);
    }
  }

  /** One character on, a link around links is not matched either. */
  lemma ShiftedNotFound(t: string, before: string, after: string)
    requires Plain(before) && t == "[" + (before + (LINK_START + after))
    ensures PIPED(t) == None && BARE(t) == None
  {
    if before == [] {
      assert t[2] == '[';
      var u := t[2..];
      assert u[0] == '[' && RunLength(u, true) == 0 && RunLength(u, false) == 0 && u[0..] == u;
    } else {
      assert t[1] == before[0];
    }
  }

  lemma SecondBracket(s: string, inner: string)
    requires s == LINK_START + inner
    ensures s[1..] == "[" + inner && s[2..] == inner
  {
  }

  /** From a link around links neither pattern matches, whatever comes before the inner link. */
  lemma OuterNotFound(bare: bool, s: string, before: string, after: string)
    requires Plain(before) && s == LINK_START + (before + (LINK_START + after))
    ensures Pattern(bare)(s) == None && Pattern(bare)(s[1..]) == None
  {
    SecondBracket(s, before + (LINK_START + after));
    ShiftedNotFound(s[1..], before, after);
    if bare {
      OuterNotBare(s, before, after);
    } else {
      OuterNotPiped(s, before + (LINK_START + after), before, after);
    }
  }

  /** Two brackets at which nothing matches are copied. */
  lemma PairStays(find: Matcher, s: string, pair: string, rest: string)
    requires |pair| == 2 && s == pair + rest && find(s) == None && find(s[1..]) == None
    ensures ReplaceAll(find, s) == pair + ReplaceAll(find, rest)
  {
    assert NoneIn(find, s[1..], 1);
    PrefixIsCopied(find, pair, rest);
  }

  lemma ClosingStays(find: Matcher, s: string, rest: string)
    requires FindsLinks(find) && s == LINK_END + rest
    ensures ReplaceAll(find, s) == LINK_END + ReplaceAll(find, rest)
  {
    assert !OpensLink(s) && !OpensLink(s[1..]);
    PairStays(find, s, LINK_END, rest);
  }

  lemma RegroupNamed(target: string, shown: string, rest: string)
    ensures (target + (BAR + shown)) + (LINK_END + rest) == target + (BAR + (shown + (LINK_END + rest)))
  {
  }

  lemma PipedStep(x: string, rest: string, s: string)
    requires Plain(x) && '|' in x && s == LINK_START + (x + (LINK_END + rest))
    ensures ReplaceAll(PIPED, s) == AfterBar(x) + ReplaceAll(PIPED, rest)
  {
    var target := BarSplits(x);
    var shown := AfterBar(x);
    RegroupNamed(target, shown, rest);
    NamedTail(s, target, shown, rest);
    NamedStep(s, target, BAR + (shown + (LINK_END + rest)), shown, rest);
  }

  // ----- what one pass does to a piece, whatever follows -----

  ghost predicate Replaced(find: Matcher, a: string, b: string) {
    forall tail {:trigger ReplaceAll(find, a + tail)} :: ReplaceAll(find, a + tail) == b + ReplaceAll(find, tail)
  }

  lemma Regroup(a: string, b: string, c: string)
    ensures a + (b + c) == (a + b) + c
  {
  }

  lemma ReplacedJoin(find: Matcher, a: string, a': string, b: string, b': string)
    requires Replaced(find, a, a') && Replaced(find, b, b')
    ensures Replaced(find, a + b, a' + b')
  {
    forall tail ensures ReplaceAll(find, (a + b) + tail) == (a' + b') + ReplaceAll(find, tail) {
      Regroup(a, b, tail);
      Regroup(a', b', ReplaceAll(find, tail));
    }
  }

  lemma TextReplaced(find: Matcher, a: string)
    requires FindsLinks(find) && Plain(a)
    ensures Replaced(find, a, a)
  {
    forall tail ensures ReplaceAll(find, a + tail) == a + ReplaceAll(find, tail) {
      TextStep(find, a, tail);
    }
  }

  lemma FramedFollowed(x: string, tail: string)
    ensures Framed(x) + tail == LINK_START + (x + (LINK_END + tail))
  {
  }

  /** What a pass makes of an innermost link. */
  function Innermost(bare: bool, x: string): string {
    if bare then x else if '|' in x then AfterBar(x) else Framed(x)
  }

  lemma UnpipedStep(x: string, tail: string, s: string, end: string)
    requires Unbarred(x) && s == LINK_START + (x + end) && end == LINK_END + tail
    ensures ReplaceAll(PIPED, s) == Framed(x) + ReplaceAll(PIPED, tail)
  {
    PatternsFindLinks();
    SecondBracket(s, x + end);
    assert !OpensLink(s[1..]) by {
      assert (x + end)[0] == if x == [] then ']' else x[0];
    }
    UnnamedIsNotPiped(s, x, tail);
    PairStays(PIPED, s, LINK_START, x + end);
    TextStep(PIPED, x, end);
    ClosingStays(PIPED, end, tail);
    FramedFollowed(x, ReplaceAll(PIPED, tail));
  }

  lemma InnermostReplaced(bare: bool, x: string)
    requires Plain(x)
    ensures Replaced(Pattern(bare), Framed(x), Innermost(bare, x))
  {
    forall tail
      ensures ReplaceAll(Pattern(bare), Framed(x) + tail) == Innermost(bare, x) + ReplaceAll(Pattern(bare), tail)
    {
      FramedFollowed(x, tail);
      if bare {
        UnnamedBareStep(Framed(x) + tail, x, tail);
      } else if '|' in x {
        PipedStep(x, tail, Framed(x) + tail);
      } else {
        UnpipedStep(x, tail, Framed(x) + tail, LINK_END + tail);
      }
    }
  }

  lemma OuterStep(find: Matcher, a: string, a': string, all: string, tail: string)
    requires Replaced(find, a, a') && FindsLinks(find)
    requires all == Framed(a) + tail && find(all) == None && find(all[1..]) == None
    ensures ReplaceAll(find, all) == Framed(a') + ReplaceAll(find, tail)
  {
    var closing := LINK_END + tail;
    FramedFollowed(a, tail);
    FramedFollowed(a', ReplaceAll(find, tail));
    PairStays(find, all, LINK_START, a + closing);
    ClosingStays(find, closing, tail);
  }

  lemma OuterRegroup(before: string, after: string, closing: string)
    ensures (before + (LINK_START + after)) + closing == before + (LINK_START + (after + closing))
  {
  }

  lemma OuterReplaced(bare: bool, body: Doc, a: string, a': string)
    requires WellFormed(body) && !AllText(body) && a == Print(body) && Replaced(Pattern(bare), a, a')
    ensures Replaced(Pattern(bare), Framed(a), Framed(a'))
  {
    var before, after := LinkOpens(body);
    PatternsFindLinks();
    forall tail ensures ReplaceAll(Pattern(bare), Framed(a) + tail) == Framed(a') + ReplaceAll(Pattern(bare), tail) {
      FramedFollowed(a, tail);
      OuterRegroup(before, after, LINK_END + tail);
      OuterNotFound(bare, Framed(a) + tail, before, after + (LINK_END + tail));
      OuterStep(Pattern(bare), a, a', Framed(a) + tail, tail);
    }
  }

  lemma BodyReplaced(body: Doc, bare: bool)
    requires WellFormed(body)
    requires AllText(body) || Replaced(Pattern(bare), Print(body), Print(Pass(body, bare)))
    ensures Replaced(Pattern(bare), Framed(Print(body)), AfterPass(body, bare))
  {
    if AllText(body) {
      AllTextIsPlain(body);
      InnermostReplaced(bare, Print(body));
    } else {
      OuterReplaced(bare, body, Print(body), Print(Pass(body, bare)));
    }
  }

  /** What a pass leaves of a link with the given body. */
  function AfterPass(body: Doc, bare: bool): string {
    if AllText(body) then Innermost(bare, Print(body)) else Framed(Print(Pass(body, bare)))
  }

  lemma PassPrints(doc: Doc, bare: bool)
    requires doc.Link?
    ensures Print(Pass(doc, bare)) == AfterPass(doc.body, bare) + Print(Pass(doc.rest, bare))
  {
  }

  lemma TextPassReplaced(find: Matcher, s: string, rest: string, rest': string)
    requires FindsLinks(find) && Plain(s) && Replaced(find, rest, rest')
    ensures Replaced(find, s + rest, s + rest')
  {
    TextReplaced(find, s);
    ReplacedJoin(find, s, s, rest, rest');
  }

  /** A replace with either pattern does to the printed text what the pass does to the tree. */
  lemma {:induction false} PassReplaces(doc: Doc, bare: bool, after: string)
    requires WellFormed(doc) && after == Print(Pass(doc, bare))
    ensures Replaced(Pattern(bare), Print(doc), after)
    decreases doc
  {
    PatternsFindLinks();
    match doc
    case End => TextReplaced(Pattern(bare), []);
    case Text(s, rest) =>
      PassReplaces(rest, bare, Print(Pass(rest, bare)));
      TextPassReplaced(Pattern(bare), s, Print(rest), Print(Pass(rest, bare)));
    case Link(body, rest) =>
      PassReplaces(rest, bare, Print(Pass(rest, bare)));
      PassReplaces(body, bare, Print(Pass(body, bare)));
      BodyReplaced(body, bare);
      ReplacedJoin(Pattern(bare), Framed(Print(body)), AfterPass(body, bare), Print(rest), Print(Pass(rest, bare)));
      PassPrints(doc, bare);
  }

  // ----- a round keeps what is shown and takes two passes off -----

  lemma {:induction false} PassKeepsWellFormed(doc: Doc, bare: bool)
    requires WellFormed(doc)
    ensures WellFormed(Pass(doc, bare))
  {
    match doc
    case End =>
    case Text(s, rest) => PassKeepsWellFormed(rest, bare);
    case Link(body, rest) =>
      PassKeepsWellFormed(rest, bare);
      PassKeepsWellFormed(body, bare);
      AllTextIsPlain(body);
      if AllText(body) && '|' in Print(body) {
        var target := BarSplits(Print(body));
      }
  }

  lemma {:induction false} AllTextShows(doc: Doc)
    ensures AllText(doc) <==> Passes(doc) == 0
    ensures AllText(doc) ==> Shown(doc) == Print(doc)
  {
    match doc
    case End =>
    case Text(_, rest) => AllTextShows(rest);
    case Link(_, _) =>
  }

  function Round(doc: Doc): Doc { Pass(Pass(doc, false), true) }

  /** After the first pass of a round a text is plain exactly when one pass was enough. */
  lemma {:induction false} FirstPassDone(doc: Doc)
    ensures AllText(Pass(doc, false)) <==> Passes(doc) <= 1
    ensures Passes(doc) <= 1 ==> Print(Pass(doc, false)) == Shown(doc)
  {
    match doc
    case End =>
    case Text(_, rest) => FirstPassDone(rest);
    case Link(body, rest) =>
      FirstPassDone(rest);
      AllTextShows(body);
  }

  function TwoLess(n: nat): nat { if n >= 2 then n - 2 else 0 }

  lemma RoundOfLink(body: Doc, rest: Doc)
    ensures AllText(body) && '|' in Print(body) ==>
      Round(Link(body, rest)) == Text(AfterBar(Print(body)), Round(rest))
    ensures AllText(body) && '|' !in Print(body) ==> Round(Link(body, rest)) == Text(Print(body), Round(rest))
    ensures !AllText(body) && AllText(Pass(body, false)) ==>
      Round(Link(body, rest)) == Text(Print(Pass(body, false)), Round(rest))
    ensures !AllText(body) && !AllText(Pass(body, false)) ==>
      Round(Link(body, rest)) == Link(Round(body), Round(rest))
  {
  }

  lemma {:induction false} RoundKeepsShown(doc: Doc)
    ensures Shown(Round(doc)) == Shown(doc) && Passes(Round(doc)) == TwoLess(Passes(doc))
  {
    match doc
    case End =>
    case Text(_, rest) => RoundKeepsShown(rest);
    case Link(body, rest) =>
      RoundKeepsShown(rest);
      AllTextShows(body);
      FirstPassDone(body);
      RoundOfLink(body, rest);
      if Passes(body) >= 2 {
        RoundKeepsShown(body);
        NestedLinkKeepsShown(body, rest, Link(Round(body), Round(rest)));
        NestedLinkLosesTwo(body, rest, Link(Round(body), Round(rest)));
      }
  }

  lemma ParityStays(pass: nat, x: string)
    requires pass >= 2
    ensures Next(pass - 2, x) == Next(pass, x) - 2 && Unwrapped(pass - 2, x) == Unwrapped(pass, x)
  {
    assert Odd(pass) == !Odd(pass - 1) == Odd(pass - 2);
  }

  lemma TwoLessOfMax(m: nat, n: nat)
    requires m >= 2
    ensures Max(m - 2, TwoLess(n)) == TwoLess(Max(m, n))
  {
  }

  lemma LinkMeans(body: Doc, rest: Doc, p: nat, x: string)
    requires p == Passes(body) && x == Shown(body)
    ensures Shown(Link(body, rest)) == Unwrapped(p, x) + Shown(rest)
    ensures Passes(Link(body, rest)) == Max(Next(p, x), Passes(rest))
  {
  }

  lemma NestedLinkKeepsShown(body: Doc, rest: Doc, link': Doc)
    requires Passes(body) >= 2 && link'.Link?
    requires Shown(link'.body) == Shown(body) && Passes(link'.body) == Passes(body) - 2
    requires Shown(link'.rest) == Shown(rest)
    ensures Shown(link') == Shown(Link(body, rest))
  {
    ParityStays(Passes(body), Shown(body));
    LinkMeans(body, rest, Passes(body), Shown(body));
  }

  lemma NestedLinkLosesTwo(body: Doc, rest: Doc, link': Doc)
    requires Passes(body) >= 2 && link'.Link?
    requires Shown(link'.body) == Shown(body) && Passes(link'.body) == Passes(body) - 2
    requires Passes(link'.rest) == TwoLess(Passes(rest))
    ensures Passes(link') == TwoLess(Passes(Link(body, rest)))
  {
    ParityStays(Passes(body), Shown(body));
    TwoLessOfMax(Next(Passes(body), Shown(body)), Passes(rest));
    LinkMeans(body, rest, Passes(body), Shown(body));
  }

  // ----- the whole loop -----

  lemma PlainHasNoLink(s: string)
    requires Plain(s)
    ensures Unlinked(s) == s
  {
    forall i, j | 0 <= i <= j <= |s| ensures !LinkBetween(s, i, j) {
      if j - i >= 4 {
        assert s[i..i + 2][0] == s[i];
      }
    }
    UnlinkedHasNoLink(s);
  }

  lemma NextRound(s: string, r: string)
    requires LinkRound(s) == r
    ensures Unlinked(s) == Unlinked(r)
  {
    LinkRoundShortens(s);
  }

  lemma ReplacedAlone(find: Matcher, a: string, b: string)
    requires Replaced(find, a, b)
    ensures ReplaceAll(find, a) == b
  {
    assert a + [] == a && b + ReplaceAll(find, []) == b;
  }

  lemma RoundReplaces(doc: Doc)
    requires WellFormed(doc)
    ensures LinkRound(Print(doc)) == Print(Round(doc)) && WellFormed(Round(doc))
  {
    var after := Pass(doc, false);
    PassReplaces(doc, false, Print(after));
    PassKeepsWellFormed(doc, false);
    PassReplaces(after, true, Print(Round(doc)));
    PassKeepsWellFormed(after, true);
    ReplacedAlone(PIPED, Print(doc), Print(after));
    ReplacedAlone(BARE, Print(after), Print(Round(doc)));
  }

  /** Every text with balanced brackets comes out as `Shown` says, however deeply its links are nested. */
  lemma {:induction false} BalancedTextResolves(doc: Doc)
    requires WellFormed(doc)
    ensures Unlinked(Print(doc)) == Shown(doc)
    decreases Passes(doc)
  {
    if Passes(doc) == 0 {
      AllTextShows(doc);
      AllTextIsPlain(doc);
      PlainHasNoLink(Print(doc));
    } else {
      RoundReplaces(doc);
      RoundKeepsShown(doc);
      BalancedTextResolves(Round(doc));
      NextRound(Print(doc), Print(Round(doc)));
    }
  }
}
