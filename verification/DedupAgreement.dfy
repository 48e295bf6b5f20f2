/** The fallback and the service give one answer: on which texts, and why. */
module DedupAgreement {
  import opened Utf16
  import opened Word32
  import opened Whitespace
  import opened MinHash
  import NearDuplicate
  import DataPlane

  /** A Unicode scalar value: what a Rust `char` holds. */
  type Scalar = c: Word | c <= 0x10_FFFF && !(0xD800 <= c <= 0xDFFF)

  function EncodeScalar(c: Scalar): Text {
    if c < 0x1_0000 then [c] else [0xD800 + (c - 0x1_0000) / 0x400, 0xDC00 + (c - 0x1_0000) % 0x400]
  }

  /** The UTF-16 form in which the TypeScript code sees a text that Rust sees as scalars. */
  function Encode(t: seq<Scalar>): Text {
    if t == [] then [] else EncodeScalar(t[0]) + Encode(t[1..])
  }

  /** In the basic plane, and neither U+0085 nor U+FEFF: the two languages see the same characters and spaces. */
  predicate Plain(c: Scalar) {
    c < 0x1_0000 && c != 0x85 && c != 0xFEFF
  }

  predicate AllPlain(t: seq<Scalar>) {
    forall k | 0 <= k < |t| :: Plain(t[k])
  }

  lemma {:induction false} EncodePlain(t: seq<Scalar>)
    requires AllPlain(t)
    ensures Encode(t) == t
  {
    if t != [] {
      EncodePlain(t[1..]);
    }
  }

  lemma {:induction false} EncodeKeeps(t: seq<Scalar>, c: Scalar)
    ensures c < 0x1_0000 ==> (c in Encode(t) <==> c in t)
  {
    if t != [] {
      EncodeKeeps(t[1..], c);
      assert t == [t[0]] + t[1..];
    }
  }

  lemma PlainWordsAgree(t: seq<Word>)
    requires 0x85 !in t && 0xFEFF !in t
    ensures Words(NearDuplicate.IsBlank, t) == Words(DataPlane.IsWhitespace, t)
  {
    forall k | 0 <= k < |t| ensures NearDuplicate.IsBlank(t[k]) == DataPlane.IsWhitespace(t[k]) {
      assert t[k] in t;
    }
    WordsAgree(NearDuplicate.IsBlank, DataPlane.IsWhitespace, t);
  }

  /** Some character is left by one side only. */
  lemma SomeCharacterDiffers(t: seq<Scalar>) returns (c: Word)
    requires !AllPlain(t)
    ensures c in NearDuplicate.Normalise(Encode(t)) <==> c !in DataPlane.Normal(t)
  {
    var k :| 0 <= k < |t| && !Plain(t[k]);
    c := t[k];
    EncodeKeeps(t, 0x85);
    EncodeKeeps(t, 0xFEFF);
    assert c in t;
    NearDuplicate.NormaliseCharacters(Encode(t), c);
    DataPlane.NormalCharacters(t, c);
  }

  /** Both sides normalise to the same characters exactly when every character of the text is plain. */
  lemma NormalFormsAgreeIff(t: seq<Scalar>)
    ensures NearDuplicate.Normalise(Encode(t)) == DataPlane.Normal(t) <==> AllPlain(t)
  {
    if AllPlain(t) {
      EncodePlain(t);
      NearDuplicate.NormaliseJoinsWords(t);
      DataPlane.NormalJoinsWords(t);
      PlainWordsAgree(t);
    } else {
      var c := SomeCharacterDiffers(t);
    }
  }

  /** The windows of a text hold its characters and no others. */
  lemma ShingleCharacters(normal: seq<Word>, c: Word)
    ensures c in normal <==> exists s :: s in Shingles(normal) && c in s
  {
    if c in normal {
      if |normal| < SHINGLE_SIZE {
        assert normal in Shingles(normal);
      } else {
        var k :| 0 <= k < |normal| && normal[k] == c;
        var i := if k <= |normal| - SHINGLE_SIZE then k else |normal| - SHINGLE_SIZE;
        assert ShingleAt(normal, i) in Shingles(normal) && ShingleAt(normal, i)[k - i] == c;
      }
    }
  }

  /** Both sides cut a text into the same shingles exactly when every character of the text is plain. */
  lemma ShinglesAgreeIff(t: seq<Scalar>)
    ensures Shingles(NearDuplicate.Normalise(Encode(t))) == Shingles(DataPlane.Normal(t)) <==> AllPlain(t)
  {
    if AllPlain(t) {
      NormalFormsAgreeIff(t);
    } else {
      var c := SomeCharacterDiffers(t);
      ShingleCharacters(NearDuplicate.Normalise(Encode(t)), c);
      ShingleCharacters(DataPlane.Normal(t), c);
    }
  }

  /** Plain texts get one signature from both implementations. */
  lemma SignaturesAgree(t: seq<Scalar>)
    requires AllPlain(t)
    ensures Signature(Shingles(NearDuplicate.Normalise(Encode(t)))) == Signature(Shingles(DataPlane.Normal(t)))
  {
    NormalFormsAgreeIff(t);
  }

  datatype RustCandidate = RustCandidate(id: string, text: seq<Scalar>)

  function ToTypeScript(candidates: seq<RustCandidate>): seq<Candidate> {
    seq(|candidates|, k requires 0 <= k < |candidates| => Candidate(candidates[k].id, Encode(candidates[k].text)))
  }

  function ToRust(candidates: seq<RustCandidate>): seq<Candidate> {
    seq(|candidates|, k requires 0 <= k < |candidates| => Candidate(candidates[k].id, candidates[k].text))
  }

  /** Plain texts get one match list, so it does not matter which side answers the check. */
  lemma {:induction false} MatchListsAgree(text: seq<Scalar>, candidates: seq<RustCandidate>)
    requires AllPlain(text) && forall k | 0 <= k < |candidates| :: AllPlain(candidates[k].text)
    ensures Matches(NearDuplicate.Normalise, Encode(text), ToTypeScript(candidates))
      == Matches(DataPlane.Normal, text, ToRust(candidates))
  {
    if candidates != [] {
      var front, last := candidates[..|candidates| - 1], candidates[|candidates| - 1];
      MatchListsAgree(text, front);
      RatingsAgree(text, last.text);
      FrontLists(candidates, front, last);
      OneMoreMatch(NearDuplicate.Normalise, Encode(text), ToTypeScript(candidates), ToTypeScript(front));
      OneMoreMatch(DataPlane.Normal, text, ToRust(candidates), ToRust(front));
    }
  }

  lemma FrontLists(candidates: seq<RustCandidate>, front: seq<RustCandidate>, last: RustCandidate)
    requires candidates != [] && front == candidates[..|candidates| - 1] && last == candidates[|candidates| - 1]
    ensures var ts, n := ToTypeScript(candidates), |candidates| - 1;
      |ts| == n + 1 && ts[..n] == ToTypeScript(front) && ts[n] == Candidate(last.id, Encode(last.text))
    ensures var rust, n := ToRust(candidates), |candidates| - 1;
      |rust| == n + 1 && rust[..n] == ToRust(front) && rust[n] == Candidate(last.id, last.text)
  {
  }

  lemma OneMoreMatch(normal: seq<Word> -> seq<Word>, text: seq<Word>, all: seq<Candidate>, front: seq<Candidate>)
    requires all != [] && front == all[..|all| - 1]
    ensures var last := all[|all| - 1];
      Matches(normal, text, all) == Matches(normal, text, front) + MatchOf(last.id, Rating(normal, text, last.text))
  {
  }

  lemma RatingsAgree(text: seq<Scalar>, other: seq<Scalar>)
    requires AllPlain(text) && AllPlain(other)
    ensures Rating(NearDuplicate.Normalise, Encode(text), Encode(other)) == Rating(DataPlane.Normal, text, other)
  {
    SignaturesAgree(text);
    SignaturesAgree(other);
  }

  lemma SameFormScoresOne(normal: seq<Word> -> seq<Word>, a: seq<Word>, b: seq<Word>)
    requires normal(a) == normal(b)
    ensures Rating(normal, a, b) == 1.0
  {
    var shingles := Shingles(normal(a));
    SameShinglesScoreOne(Signature(shingles), Signature(shingles), shingles);
  }

  /** Texts with the same words, however spaced, are rated 1: by the fallback and by the service. */
  lemma WhitespaceVariantsScoreOne(a: seq<Word>, b: seq<Word>)
    ensures Words(NearDuplicate.IsBlank, a) == Words(NearDuplicate.IsBlank, b) ==>
      Rating(NearDuplicate.Normalise, a, b) == 1.0
    ensures Words(DataPlane.IsWhitespace, a) == Words(DataPlane.IsWhitespace, b) ==>
      Rating(DataPlane.Normal, a, b) == 1.0
  {
    if Words(NearDuplicate.IsBlank, a) == Words(NearDuplicate.IsBlank, b) {
      NearDuplicate.NormaliseJoinsWords(a);
      NearDuplicate.NormaliseJoinsWords(b);
      SameFormScoresOne(NearDuplicate.Normalise, a, b);
    }
    if Words(DataPlane.IsWhitespace, a) == Words(DataPlane.IsWhitespace, b) {
      DataPlane.NormalJoinsWords(a);
      DataPlane.NormalJoinsWords(b);
      SameFormScoresOne(DataPlane.Normal, a, b);
    }
  }
}
