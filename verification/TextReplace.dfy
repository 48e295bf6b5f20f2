/** The global `replace` of a pattern whose match at a position is unique, and what it leaves alone. */
module TextReplace {
  import opened Common

  /** What a match is replaced by, and how many characters it takes. */
  datatype Match = Match(text: string, length: nat)

  /** The match at the start of a string; replacing it always shortens the text. */
  type Matcher = find: string -> Option<Match> | Shortens(find) witness (s: string) => None

  ghost predicate Shortens(find: string -> Option<Match>) {
    forall s :: find(s).Some? ==> |find(s).value.text| < find(s).value.length <= |s|
  }

  /** Matches are taken left to right and do not overlap. */
  function ReplaceAll(find: Matcher, s: string): (r: string)
    ensures |r| <= |s|
    decreases |s|
  {
    if s == [] then []
    else
      match find(s)
      case None => [s[0]] + ReplaceAll(find, s[1..])
      case Some(m) => m.text + ReplaceAll(find, s[m.length..])
  }

  ghost predicate NoMatch(find: Matcher, s: string) {
    forall i | 0 <= i <= |s| :: find(s[i..]) == None
  }

  lemma NoMatchStep(find: Matcher, s: string)
    requires s != [] && find(s) == None
    ensures NoMatch(find, s) <==> NoMatch(find, s[1..])
  {
    if NoMatch(find, s) {
      forall i | 0 <= i <= |s[1..]| ensures find(s[1..][i..]) == None {
        assert s[1..][i..] == s[i + 1..];
      }
    }
    if NoMatch(find, s[1..]) {
      forall i | 0 <= i <= |s| ensures find(s[i..]) == None {
        if i == 0 {
          assert s[0..] == s;
        } else {
          assert s[1..][i - 1..] == s[i..];
        }
      }
    }
  }

  /** A replace changes a text exactly when the pattern matches somewhere, and then it shortens it. */
  lemma {:induction false} ReplaceChangesIff(find: Matcher, s: string)
    ensures NoMatch(find, s) ==> ReplaceAll(find, s) == s
    ensures !NoMatch(find, s) ==> |ReplaceAll(find, s)| < |s|
    decreases |s|
  {
    if s == [] {
      assert s[0..] == s && |s| == 0;
      assert find(s) == None;
    } else {
      assert s[0..] == s;
      if find(s) == None {
        NoMatchStep(find, s);
        ReplaceChangesIff(find, s[1..]);
      }
    }
  }

  /** Two replaces after each other also shorten the text or leave it alone. */
  lemma TwoReplacesShorten(first: Matcher, second: Matcher, s: string)
    ensures var r := ReplaceAll(second, ReplaceAll(first, s));
      && (r == s || |r| < |s|)
      && (r == s <==> NoMatch(first, s) && NoMatch(second, s))
  {
    ReplaceChangesIff(first, s);
    ReplaceChangesIff(second, ReplaceAll(first, s));
  }

  /** Nothing matches at the first `n` characters. */
  ghost predicate NoneIn(find: Matcher, s: string, n: nat) {
    n <= |s| && (n == 0 || (find(s) == None && NoneIn(find, s[1..], n - 1)))
  }

  lemma OneMore(s: string, t: string, r: string, u: string, n: nat)
    requires s != [] && t == s[1..] && r == [s[0]] + u && 0 < n <= |s| && n - 1 <= |u| && u[..n - 1] == t[..n - 1]
    ensures n <= |r| && r[..n] == s[..n] && r[n..] == u[n - 1..] && s[n..] == t[n - 1..]
  {
    assert s == [s[0]] + t;
  }

  lemma {:induction false} RunIsCopied(find: Matcher, s: string, n: nat, r: string)
    requires NoneIn(find, s, n) && r == ReplaceAll(find, s)
    ensures n <= |r| && r[..n] == s[..n] && r[n..] == ReplaceAll(find, s[n..])
    decreases n
  {
    if n > 0 {
      var t := s[1..];
      RunIsCopied(find, t, n - 1, ReplaceAll(find, t));
      OneMore(s, t, r, ReplaceAll(find, t), n);
    } else {
      assert s[0..] == s;
    }
  }

  /** Characters at which nothing matches are copied. */
  lemma PrefixIsCopied(find: Matcher, a: string, rest: string)
    requires NoneIn(find, a + rest, |a|)
    ensures ReplaceAll(find, a + rest) == a + ReplaceAll(find, rest)
  {
    var s, r := a + rest, ReplaceAll(find, a + rest);
    RunIsCopied(find, s, |a|, r);
    assert s[..|a|] == a && s[|a|..] == rest && r == r[..|a|] + r[|a|..];
  }

  lemma MatchIsReplaced(find: Matcher, s: string, text: string, rest: string)
    requires |rest| <= |s| && find(s) == Some(Match(text, |s| - |rest|)) && s[|s| - |rest|..] == rest
    ensures ReplaceAll(find, s) == text + ReplaceAll(find, rest)
  {
  }
}
