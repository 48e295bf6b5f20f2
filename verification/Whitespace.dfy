/** Two ways to normalise white space, collapse-then-trim and trim-then-collapse, against the list of words. */
module Whitespace {
  function WordLength<T>(space: T -> bool, t: seq<T>): (n: nat)
    ensures n <= |t| && (forall k | 0 <= k < n :: !space(t[k])) && (n < |t| ==> space(t[n]))
  {
    if t == [] || space(t[0]) then 0 else 1 + WordLength(space, t[1..])
  }

  /** The maximal stretches without white space. */
  function Words<T>(space: T -> bool, t: seq<T>): seq<seq<T>>
    decreases |t|
  {
    if t == [] then []
    else if space(t[0]) then Words(space, t[1..])
    else var n := WordLength(space, t); [t[..n]] + Words(space, t[n..])
  }

  function Join<T>(blank: T, words: seq<seq<T>>): seq<T> {
    if words == [] then [] else if |words| == 1 then words[0] else words[0] + [blank] + Join(blank, words[1..])
  }

  function TrimLeft<T>(space: T -> bool, t: seq<T>): seq<T> {
    if t == [] || !space(t[0]) then t else TrimLeft(space, t[1..])
  }

  function TrimRight<T>(space: T -> bool, t: seq<T>): seq<T> {
    if t == [] || !space(t[|t| - 1]) then t else TrimRight(space, t[..|t| - 1])
  }

  function TrimBoth<T>(space: T -> bool, t: seq<T>): seq<T> {
    TrimRight(space, TrimLeft(space, t))
  }

  /** Every stretch of white space becomes one space; `last` says that the text before ended in a space. */
  function Squeeze<T>(space: T -> bool, blank: T, t: seq<T>, last: bool): seq<T> {
    if t == [] then []
    else if !space(t[0]) then [t[0]] + Squeeze(space, blank, t[1..], false)
    else if last then Squeeze(space, blank, t[1..], true)
    else [blank] + Squeeze(space, blank, t[1..], true)
  }

  ghost predicate EndsInSpace<T>(space: T -> bool, t: seq<T>) {
    t != [] && space(t[|t| - 1])
  }

  lemma {:induction false} SqueezeWord<T>(space: T -> bool, blank: T, t: seq<T>, last: bool)
    requires t != [] && !space(t[0])
    ensures var n := WordLength(space, t);
      Squeeze(space, blank, t, last) == t[..n] + Squeeze(space, blank, t[n..], false)
  {
    var n := WordLength(space, t);
    var rest := Squeeze(space, blank, t[n..], false);
    assert t[1..][n - 1..] == t[n..];
    if n > 1 {
      SqueezeWord(space, blank, t[1..], false);
      var word := t[1..][..n - 1];
      assert Squeeze(space, blank, t[1..], false) == word + rest;
      assert t[..n] == [t[0]] + word;
      assert [t[0]] + (word + rest) == ([t[0]] + word) + rest;
    } else {
      assert t[..1] == [t[0]];
    }
  }

  lemma {:induction false} NoWordsAllSpace<T>(space: T -> bool, t: seq<T>)
    requires Words(space, t) == [] && t != []
    ensures EndsInSpace(space, t)
  {
    if |t| > 1 {
      NoWordsAllSpace(space, t[1..]);
    }
  }

  /** The joined words, and one more space when the text ends in white space. */
  ghost function JoinedWords<T>(space: T -> bool, blank: T, t: seq<T>, words: seq<seq<T>>): seq<T> {
    Join(blank, words) + if words != [] && EndsInSpace(space, t) then [blank] else []
  }

  lemma LastWord<T>(space: T -> bool, blank: T, t: seq<T>)
    requires t != [] && !space(t[0]) && WordLength(space, t) == |t|
    ensures Squeeze(space, blank, t, true) == JoinedWords(space, blank, t, Words(space, t))
  {
    SqueezeWord(space, blank, t, true);
    assert t[..|t|] == t && t[|t|..] == [];
    assert Words(space, t) == [t];
  }

  lemma WordThenSpace<T>(space: T -> bool, blank: T, t: seq<T>, rest: seq<T>, words: seq<seq<T>>)
    requires t != [] && !space(t[0]) && rest == t[WordLength(space, t)..] && rest != [] && words == Words(space, rest)
    requires Squeeze(space, blank, rest[1..], true) == JoinedWords(space, blank, rest[1..], words)
    requires words == [] ==> EndsInSpace(space, rest)
    ensures Squeeze(space, blank, t, true) == JoinedWords(space, blank, t, [t[..WordLength(space, t)]] + words)
  {
    var word := t[..WordLength(space, t)];
    SqueezeWord(space, blank, t, true);
    assert ([word] + words)[1..] == words;
    assert EndsInSpace(space, t) == EndsInSpace(space, rest);
    var end := if words != [] && EndsInSpace(space, rest[1..]) then [blank] else [];
    assert Squeeze(space, blank, rest, false) == [blank] + (Join(blank, words) + end);
    if words != [] {
      assert rest[1..] != [];
      RegroupFour(word, [blank], Join(blank, words), end);
    }
  }

  lemma RegroupFour<T>(a: seq<T>, b: seq<T>, c: seq<T>, d: seq<T>)
    ensures a + (b + (c + d)) == a + b + c + d
  {
  }

  /** After a space, squeezing gives the joined words, and one more space when the text ends in white space. */
  lemma {:induction false} SqueezeIsJoin<T>(space: T -> bool, blank: T, t: seq<T>)
    ensures Squeeze(space, blank, t, true) == JoinedWords(space, blank, t, Words(space, t))
    decreases |t|
  {
    if t == [] {
    } else if space(t[0]) {
      SqueezeIsJoin(space, blank, t[1..]);
    } else if WordLength(space, t) == |t| {
      LastWord(space, blank, t);
    } else {
      var rest := t[WordLength(space, t)..];
      SqueezeIsJoin(space, blank, rest[1..]);
      if Words(space, rest) == [] {
        NoWordsAllSpace(space, rest);
      }
      WordThenSpace(space, blank, t, rest, Words(space, rest));
    }
  }

  lemma {:induction false} WordsTrimLeft<T>(space: T -> bool, t: seq<T>)
    ensures Words(space, TrimLeft(space, t)) == Words(space, t)
    ensures TrimLeft(space, t) != [] ==> !space(TrimLeft(space, t)[0])
  {
    if t != [] && space(t[0]) {
      WordsTrimLeft(space, t[1..]);
    }
  }

  lemma {:induction false} WordsDropLastSpace<T>(space: T -> bool, t: seq<T>)
    requires EndsInSpace(space, t)
    ensures Words(space, t[..|t| - 1]) == Words(space, t)
    decreases |t|
  {
    var front := t[..|t| - 1];
    if space(t[0]) {
      if |t| > 1 {
        WordsDropLastSpace(space, t[1..]);
        assert t[1..][..|t| - 2] == front[1..];
      }
    } else {
      var n := WordLength(space, t);
      WordLengthOfPrefix(space, t);
      WordsDropLastSpace(space, t[n..]);
      assert t[n..][..|t| - n - 1] == front[n..] && front[..n] == t[..n];
    }
  }

  lemma {:induction false} WordLengthOfPrefix<T>(space: T -> bool, t: seq<T>)
    requires EndsInSpace(space, t)
    ensures WordLength(space, t[..|t| - 1]) == WordLength(space, t)
  {
    if !space(t[0]) {
      WordLengthOfPrefix(space, t[1..]);
      assert t[1..][..|t| - 2] == t[..|t| - 1][1..];
    }
  }

  lemma {:induction false} WordsTrimRight<T>(space: T -> bool, t: seq<T>)
    ensures Words(space, TrimRight(space, t)) == Words(space, t)
    ensures !EndsInSpace(space, TrimRight(space, t))
    ensures TrimRight(space, t) <= t
  {
    if EndsInSpace(space, t) {
      WordsDropLastSpace(space, t);
      WordsTrimRight(space, t[..|t| - 1]);
    }
  }

  /** Trim first, collapse then: the Rust order gives the words joined by single spaces. */
  lemma TrimThenSqueeze<T>(space: T -> bool, blank: T, t: seq<T>)
    ensures Squeeze(space, blank, TrimBoth(space, t), false) == Join(blank, Words(space, t))
  {
    var left := TrimLeft(space, t);
    var trimmed := TrimRight(space, left);
    WordsTrimLeft(space, t);
    WordsTrimRight(space, left);
    SqueezeIsJoin(space, blank, trimmed);
    if trimmed != [] {
      assert trimmed[0] == left[0];
    }
  }

  lemma {:induction false} JoinEndsAreSolid<T>(space: T -> bool, blank: T, t: seq<T>)
    requires Words(space, t) != []
    ensures var joined := Join(blank, Words(space, t));
      joined != [] && !space(joined[0]) && !space(joined[|joined| - 1])
    decreases |t|
  {
    if space(t[0]) {
      JoinEndsAreSolid(space, blank, t[1..]);
    } else {
      var n := WordLength(space, t);
      var word, words := t[..n], Words(space, t[n..]);
      assert Words(space, t) == [word] + words && ([word] + words)[1..] == words;
      if words != [] {
        JoinEndsAreSolid(space, blank, t[n..]);
      }
    }
  }

  /** Trimming takes off a space on either side of a text with solid ends. */
  lemma TrimSpaces<T>(space: T -> bool, blank: T, solid: seq<T>, before: seq<T>, after: seq<T>)
    requires space(blank) && solid != [] && !space(solid[0]) && !space(solid[|solid| - 1])
    requires (before == [] || before == [blank]) && (after == [] || after == [blank])
    ensures TrimBoth(space, before + solid + after) == solid
  {
    var right := solid + after;
    assert before + solid + after == before + right;
    assert right[0] == solid[0];
    assert TrimLeft(space, right) == right;
    if before != [] {
      assert (before + right)[1..] == right;
    } else {
      assert before + right == right;
    }
    if after != [] {
      assert right[..|right| - 1] == solid;
      assert TrimRight(space, right) == TrimRight(space, solid) == solid;
    } else {
      assert right == solid;
    }
  }

  /** Collapse first, trim then: the TypeScript order gives the same. */
  lemma SqueezeThenTrim<T>(space: T -> bool, blank: T, t: seq<T>)
    requires space(blank)
    ensures TrimBoth(space, Squeeze(space, blank, t, false)) == Join(blank, Words(space, t))
  {
    var words := Words(space, t);
    var joined, after := Join(blank, words), if words != [] && EndsInSpace(space, t) then [blank] else [];
    var before := if t != [] && space(t[0]) then [blank] else [];
    assert Squeeze(space, blank, t, false) == before + joined + after by {
      SqueezeIsJoin(space, blank, t);
      if t != [] && space(t[0]) {
        SqueezeIsJoin(space, blank, t[1..]);
        assert Squeeze(space, blank, t, false) == [blank] + (joined + after);
      }
    }
    if words != [] {
      JoinEndsAreSolid(space, blank, t);
      TrimSpaces(space, blank, joined, before, after);
    }
  }

  // ----- when the two languages agree -----

  lemma {:induction false} WordLengthAgrees<T>(p: T -> bool, q: T -> bool, t: seq<T>)
    requires forall k | 0 <= k < |t| :: p(t[k]) == q(t[k])
    ensures WordLength(p, t) == WordLength(q, t)
  {
    if t != [] && !p(t[0]) {
      WordLengthAgrees(p, q, t[1..]);
    }
  }

  lemma {:induction false} WordsAgree<T>(p: T -> bool, q: T -> bool, t: seq<T>)
    requires forall k | 0 <= k < |t| :: p(t[k]) == q(t[k])
    ensures Words(p, t) == Words(q, t)
    decreases |t|
  {
    if t == [] {
    } else if p(t[0]) {
      WordsAgree(p, q, t[1..]);
    } else {
      WordLengthAgrees(p, q, t);
      WordsAgree(p, q, t[WordLength(p, t)..]);
    }
  }

  /** The joined words hold every character that is not white space, and of white space only the space. */
  lemma {:induction false} JoinCharacters<T>(space: T -> bool, blank: T, t: seq<T>, c: T)
    requires c != blank
    ensures c in Join(blank, Words(space, t)) <==> c in t && !space(c)
    decreases |t|
  {
    if t == [] {
    } else if space(t[0]) {
      JoinCharacters(space, blank, t[1..], c);
      assert t == [t[0]] + t[1..];
    } else {
      var n := WordLength(space, t);
      var word, words := t[..n], Words(space, t[n..]);
      JoinCharacters(space, blank, t[n..], c);
      assert Words(space, t) == [word] + words && ([word] + words)[1..] == words;
      assert t == word + t[n..];
    }
  }
}
