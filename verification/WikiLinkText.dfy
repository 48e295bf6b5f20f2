/** What a reader should see of wiki links, and when the link loop leaves exactly that. */
module WikiLinkText {
  import opened TextReplace
  import opened WikiRewrites
  import opened WikiBrackets

  /** A wiki text: plain text, links that name their target, and links whose text is their target. */
  datatype Page =
    | Nothing
    | Plaintext(s: string, after: Page)
    | Named(target: string, shown: Page, after: Page)
    | Unnamed(shown: Page, after: Page)

  function Source(page: Page): string {
    match page
    case Nothing => []
    case Plaintext(s, after) => s + Source(after)
    case Named(target, shown, after) => Framed((target + BAR) + Source(shown)) + Source(after)
    case Unnamed(shown, after) => Framed(Source(shown)) + Source(after)
  }

  /** What a reader should see: the shown text of every link. */
  function Render(page: Page): string {
    match page
    case Nothing => []
    case Plaintext(s, after) => s + Render(after)
    case Named(_, shown, after) => Render(shown) + Render(after)
    case Unnamed(shown, after) => Render(shown) + Render(after)
  }

  /** A target has no bar, and neither has the text of a link that does not name its target. */
  predicate Proper(page: Page) {
    match page
    case Nothing => true
    case Plaintext(s, after) => Plain(s) && Proper(after)
    case Named(target, shown, after) => Unbarred(target) && Proper(shown) && Proper(after)
    case Unnamed(shown, after) => '|' !in Render(shown) && Proper(shown) && Proper(after)
  }

  /** The number of passes that a page takes: named links go in odd passes, or with all others in even ones. */
  function Turn(page: Page): nat {
    match page
    case Nothing => 0
    case Plaintext(_, after) => Turn(after)
    case Named(_, shown, after) => Max(Turn(shown) + 1, Turn(after))
    case Unnamed(shown, after) => Max(if Odd(Turn(shown)) then Turn(shown) + 1 else Turn(shown) + 2, Turn(after))
  }

  /** The shown text of every named link is done after an even pass, so that an odd pass takes the link next. */
  predicate InTime(page: Page) {
    match page
    case Nothing => true
    case Plaintext(_, after) => InTime(after)
    case Named(_, shown, after) => !Odd(Turn(shown)) && InTime(shown) && InTime(after)
    case Unnamed(shown, after) => InTime(shown) && InTime(after)
  }

  /** The same, but only of the links inside of unnamed ones. */
  predicate UnnamedInTime(page: Page) {
    match page
    case Nothing => true
    case Plaintext(_, after) => UnnamedInTime(after)
    case Named(_, shown, after) => UnnamedInTime(shown) && UnnamedInTime(after)
    case Unnamed(shown, after) => InTime(shown) && UnnamedInTime(shown) && UnnamedInTime(after)
  }

  // ----- pages as texts with balanced brackets -----

  function Tree(page: Page): Doc {
    match page
    case Nothing => End
    case Plaintext(s, after) => Text(s, Tree(after))
    case Named(target, shown, after) => Link(Text(target + BAR, Tree(shown)), Tree(after))
    case Unnamed(shown, after) => Link(Tree(shown), Tree(after))
  }

  lemma {:induction false} TreePrints(page: Page)
    requires Proper(page)
    ensures Print(Tree(page)) == Source(page) && WellFormed(Tree(page))
  {
    match page
    case Nothing =>
    case Plaintext(_, after) => TreePrints(after);
    case Named(_, shown, after) =>
      TreePrints(shown);
      TreePrints(after);
    case Unnamed(shown, after) =>
      TreePrints(shown);
      TreePrints(after);
  }

  lemma {:induction false} AfterTarget(target: string, x: string)
    requires Unbarred(target)
    ensures '|' in (target + BAR) + x && AfterBar((target + BAR) + x) == x
    decreases |target|
  {
    var s := (target + BAR) + x;
    if target == [] {
      assert s[0] == '|' && s[1..] == x;
    } else {
      AfterTarget(target[1..], x);
      assert s[0] == target[0] && s[1..] == (target[1..] + BAR) + x;
      assert '|' in s[1..];
    }
  }

  /** What the loop leaves of a named link whose shown text becomes `x` in the given pass. */
  lemma NamedShows(target: string, pass: nat, x: string)
    requires Unbarred(target)
    ensures var all := (target + BAR) + x;
      Next(pass, all) == pass + 1 && Unwrapped(pass, all) == if Odd(pass) then all else x
  {
    AfterTarget(target, x);
  }

  /** A page takes as many passes as its turn says, and shows more than it should unless all links are in time. */
  lemma {:induction false} PageShows(page: Page)
    requires Proper(page) && UnnamedInTime(page)
    ensures Passes(Tree(page)) == Turn(page)
    ensures InTime(page) ==> Shown(Tree(page)) == Render(page)
    ensures !InTime(page) ==> |Shown(Tree(page))| > |Render(page)|
  {
    match page
    case Nothing =>
    case Plaintext(_, after) => PageShows(after);
    case Named(target, shown, after) =>
      PageShows(shown);
      PageShows(after);
      NamedShows(target, Passes(Tree(shown)), Shown(Tree(shown)));
    case Unnamed(shown, after) =>
      PageShows(shown);
      PageShows(after);
  }

  lemma PageResolves(page: Page)
    requires Proper(page)
    ensures Unlinked(Source(page)) == Shown(Tree(page))
  {
    TreePrints(page);
    BalancedTextResolves(Tree(page));
  }

  /**
   * However deeply links are nested, a page comes out as a reader should see it exactly when all its named links are
   * in time, provided that those inside of unnamed links are.
   */
  lemma RendersIff(page: Page)
    requires Proper(page) && UnnamedInTime(page)
    ensures Unlinked(Source(page)) == Render(page) <==> InTime(page)
  {
    PageResolves(page);
    PageShows(page);
  }

  lemma {:induction false} InTimeEverywhere(page: Page)
    requires InTime(page)
    ensures UnnamedInTime(page)
  {
    match page
    case Nothing =>
    case Plaintext(_, after) => InTimeEverywhere(after);
    case Named(_, shown, after) =>
      InTimeEverywhere(shown);
      InTimeEverywhere(after);
    case Unnamed(shown, after) =>
      InTimeEverywhere(shown);
      InTimeEverywhere(after);
  }

  /** Links that are in time come out as their shown text, at any depth. */
  lemma InTimeRenders(page: Page)
    requires Proper(page) && InTime(page)
    ensures Unlinked(Source(page)) == Render(page)
  {
    InTimeEverywhere(page);
    RendersIff(page);
  }

  // ----- links nested once -----

  function Depth(page: Page): nat {
    match page
    case Nothing => 0
    case Plaintext(_, after) => Depth(after)
    case Named(_, shown, after) => Max(Depth(shown) + 1, Depth(after))
    case Unnamed(shown, after) => Max(Depth(shown) + 1, Depth(after))
  }

  lemma {:induction false} NoLinksNoTurn(page: Page)
    requires Depth(page) == 0
    ensures Turn(page) == 0
  {
    if page.Plaintext? {
      NoLinksNoTurn(page.after);
    }
  }

  lemma {:induction false} FlatIsInTime(page: Page)
    requires Depth(page) <= 1
    ensures InTime(page)
  {
    match page
    case Nothing =>
    case Plaintext(_, after) => FlatIsInTime(after);
    case Named(_, shown, after) =>
      NoLinksNoTurn(shown);
      FlatIsInTime(shown);
      FlatIsInTime(after);
    case Unnamed(shown, after) =>
      FlatIsInTime(shown);
      FlatIsInTime(after);
  }

  lemma {:induction false} OnceNestedUnnamedInTime(page: Page)
    requires Depth(page) <= 2
    ensures UnnamedInTime(page)
  {
    match page
    case Nothing =>
    case Plaintext(_, after) => OnceNestedUnnamedInTime(after);
    case Named(_, shown, after) =>
      OnceNestedUnnamedInTime(shown);
      OnceNestedUnnamedInTime(after);
    case Unnamed(shown, after) =>
      FlatIsInTime(shown);
      OnceNestedUnnamedInTime(shown);
      OnceNestedUnnamedInTime(after);
  }

  /** The page has a named link, and no other, at its top. */
  predicate OnlyNamed(page: Page) {
    match page
    case Nothing => false
    case Plaintext(_, after) => OnlyNamed(after)
    case Named(_, _, after) => OnlyNamed(after) || Depth(after) == 0
    case Unnamed(_, _) => false
  }

  lemma {:induction false} FlatTurn(page: Page)
    requires Depth(page) <= 1
    ensures Turn(page) <= 2 && (Odd(Turn(page)) <==> OnlyNamed(page)) && (Turn(page) == 0 <==> Depth(page) == 0)
  {
    match page
    case Nothing =>
    case Plaintext(_, after) => FlatTurn(after);
    case Named(_, shown, after) =>
      NoLinksNoTurn(shown);
      FlatTurn(after);
    case Unnamed(shown, after) =>
      NoLinksNoTurn(shown);
      FlatTurn(after);
  }

  /** No named link shows named links only. */
  predicate NoneAroundNamedOnly(page: Page) {
    match page
    case Nothing => true
    case Plaintext(_, after) => NoneAroundNamedOnly(after)
    case Named(_, shown, after) => !OnlyNamed(shown) && NoneAroundNamedOnly(after)
    case Unnamed(_, after) => NoneAroundNamedOnly(after)
  }

  lemma {:induction false} OnceNestedInTime(page: Page)
    requires Depth(page) <= 2
    ensures InTime(page) <==> NoneAroundNamedOnly(page)
  {
    match page
    case Nothing =>
    case Plaintext(_, after) => OnceNestedInTime(after);
    case Named(_, shown, after) =>
      FlatTurn(shown);
      FlatIsInTime(shown);
      OnceNestedInTime(after);
    case Unnamed(shown, after) =>
      FlatIsInTime(shown);
      OnceNestedInTime(after);
  }

  /** A page with links nested at most once comes out right exactly when no named link shows named links only. */
  lemma OnceNestedRendersIff(page: Page)
    requires Proper(page) && Depth(page) <= 2
    ensures Unlinked(Source(page)) == Render(page) <==> NoneAroundNamedOnly(page)
  {
    OnceNestedUnnamedInTime(page);
    OnceNestedInTime(page);
    RendersIff(page);
  }

  // ----- an example -----

  lemma NamedAlone(target: string, shown: Page, page: Page)
    requires Unbarred(target) && page == Named(target, shown, Nothing)
    ensures var p, x := Passes(Tree(shown)), Shown(Tree(shown));
      Passes(Tree(page)) == p + 1 && Shown(Tree(page)) == if Odd(p) then (target + BAR) + x else x
  {
    var p, x := Passes(Tree(shown)), Shown(Tree(shown));
    NamedShows(target, p, x);
    LinkMeans(Text(target + BAR, Tree(shown)), End, p, (target + BAR) + x);
    assert Unwrapped(p, (target + BAR) + x) + [] == Unwrapped(p, (target + BAR) + x);
  }

  lemma TextAlone(s: string, page: Page)
    requires Plain(s) && page == Plaintext(s, Nothing)
    ensures Passes(Tree(page)) == 0 && Shown(Tree(page)) == s && Source(page) == s && Proper(page)
  {
    assert Tree(page) == Text(s, End) && s + [] == s;
  }

  lemma NamedAloneSource(target: string, shown: Page, page: Page)
    requires page == Named(target, shown, Nothing)
    ensures Source(page) == Framed((target + BAR) + Source(shown))
  {
    assert Source(page) == Framed((target + BAR) + Source(shown)) + [];
  }

  /** A named link around one named link keeps its own target and bar. */
  lemma NamedInNamed(target: string, a: string, b: string, s: string)
    requires Unbarred(target) && Unbarred(a) && Plain(b)
    requires s == Framed((target + BAR) + Framed((a + BAR) + b))
    ensures Unlinked(s) == (target + BAR) + b
  {
    var text := Plaintext(b, Nothing);
    var inner := Named(a, text, Nothing);
    var page := Named(target, inner, Nothing);
    TextAlone(b, text);
    NamedAlone(a, text, inner);
    NamedAloneSource(a, text, inner);
    NamedAlone(target, inner, page);
    NamedAloneSource(target, inner, page);
    PageResolves(page);
  }

  lemma SingleLetters(s: string, x: string, a: string, b: string)
    requires x == "x" && a == "a" && b == "b" && s == "[[x|[[a|b]]]]"
    ensures Unbarred(x) && Unbarred(a) && Plain(b) && s == Framed((x + BAR) + Framed((a + BAR) + b))
  {
  }

  /** For example, `[[x|[[a|b]]]]` becomes `x|b`, not `b`. */
  lemma NestedLinkKeepsTarget(s: string, x: string, a: string, b: string)
    requires s == "[[x|[[a|b]]]]" && x == "x" && a == "a" && b == "b"
    ensures Unlinked(s) == (x + BAR) + b
  {
    SingleLetters(s, x, a, b);
    NamedInNamed(x, a, b, s);
  }
}
