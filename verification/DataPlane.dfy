/** The Rust service: `minhash.rs` and `lsh.rs`. */
module DataPlane {
  import opened Common
  import opened Word32
  import opened Whitespace
  import opened MinHash

  const SPACE: Word := 0x20
  const U64_MAX := 0xFFFF_FFFF_FFFF_FFFF

  /** `char::is_whitespace`: unlike JavaScript it has U+0085 and lacks U+FEFF. */
  predicate IsWhitespace(c: Word) {
    || 0x09 <= c <= 0x0D || c == 0x20 || c == 0x85 || c == 0xA0 || c == 0x1680
    || 0x2000 <= c <= 0x200A || c == 0x2028 || c == 0x2029 || c == 0x202F
    || c == 0x205F || c == 0x3000
  }

  function Normal(text: seq<Word>): seq<Word> {
    Squeeze(IsWhitespace, SPACE, TrimBoth(IsWhitespace, text), false)
  }

  /** Trimming and collapsing leaves the words of the text, joined by single spaces. */
  lemma NormalJoinsWords(text: seq<Word>)
    ensures Normal(text) == Join(SPACE, Words(IsWhitespace, text))
  {
    TrimThenSqueeze(IsWhitespace, SPACE, text);
  }

  lemma NormalCharacters(text: seq<Word>, c: Word)
    requires c != SPACE
    ensures c in Normal(text) <==> c in text && !IsWhitespace(c)
  {
    NormalJoinsWords(text);
    JoinCharacters(IsWhitespace, SPACE, text, c);
  }

  method NormaliseWhitespace(text: seq<Word>) returns (result: seq<Word>)
    ensures result == Normal(text)
  {
    result := [];
    var lastWasSpace := false;
    var trimmed := TrimBoth(IsWhitespace, text);
    for k := 0 to |trimmed|
      invariant Normal(text) == result + Squeeze(IsWhitespace, SPACE, trimmed[k..], lastWasSpace)
    {
      var ch := trimmed[k];
      assert trimmed[k..][0] == ch && trimmed[k..][1..] == trimmed[k + 1..];
      if IsWhitespace(ch) {
        if !lastWasSpace {
          result := result + [SPACE];
          lastWasSpace := true;
        }
      } else {
        result := result + [ch];
        lastWasSpace := false;
      }
    }
  }

  method MakeShingles(text: seq<Word>) returns (shingles: set<Shingle>)
    ensures shingles == Shingles(Normal(text))
  {
    var chars := NormaliseWhitespace(text);
    if |chars| < SHINGLE_SIZE {
      return {chars};
    }
    shingles := {};
    for i := 0 to |chars| - SHINGLE_SIZE + 1
      invariant shingles == set j | 0 <= j < i :: ShingleAt(chars, j)
    {
      shingles := shingles + {ShingleAt(chars, i)};
    }
  }

  method HashSeeds() returns (seeds: seq<Word>)
    ensures |seeds| == HASH_FUNCTION_COUNT && forall i | 0 <= i < HASH_FUNCTION_COUNT :: seeds[i] == Seed(i)
    ensures |seeds| == 64 && forall i | 0 <= i < 64 :: seeds[i] == ((i + 1) * 2654435761) % 0x1_0000_0000
  {
    seeds := seq(HASH_FUNCTION_COUNT, _ => 0);
    for i := 0 to HASH_FUNCTION_COUNT
      invariant |seeds| == HASH_FUNCTION_COUNT && forall j | 0 <= j < i :: seeds[j] == Seed(j)
    {
      seeds := seeds[i := WrappingMul(i + 1, MULTIPLIER)];
    }
  }

  method Hash32(value: Shingle, seed: Word) returns (hash: Word)
    ensures hash == Hash(value, seed)
  {
    hash := seed;
    for i := 0 to |value|
      invariant hash == Hash(value[..i], seed)
    {
      hash := WrappingMul(XorWords(hash, value[i]), MULTIPLIER);
      hash := XorWords(hash, ShrWord(hash, 15));
      assert value[..i + 1][..i] == value[..i];
    }
    assert value[..|value|] == value;
  }

  ghost predicate SlotSoFar(v: int, done: set<Shingle>, i: nat) {
    if done == {} then v == U64_MAX else IsSlot(v, done, i)
  }

  lemma LowerSlotSoFar(v: int, done: set<Shingle>, i: nat, s: Shingle)
    requires SlotSoFar(v, done, i)
    ensures SlotSoFar(Min(v, Hash(s, Seed(i))), done + {s}, i)
  {
    if done == {} {
      FirstSlot(i, s);
      assert done + {s} == {s};
    } else {
      LowerSlot(v, done, i, s);
    }
  }

  method LowerAll(signature: array<int>, seeds: seq<Word>, s: Shingle, ghost done: set<Shingle>)
    requires signature.Length == |seeds| == HASH_FUNCTION_COUNT
    requires forall i | 0 <= i < HASH_FUNCTION_COUNT :: seeds[i] == Seed(i)
    requires forall i | 0 <= i < HASH_FUNCTION_COUNT :: SlotSoFar(signature[i], done, i)
    modifies signature
    ensures forall i | 0 <= i < HASH_FUNCTION_COUNT :: SlotSoFar(signature[i], done + {s}, i)
  {
    ghost var before := signature[..];
    for i := 0 to HASH_FUNCTION_COUNT
      invariant forall j | 0 <= j < i :: signature[j] == Min(before[j], Hash(s, Seed(j)))
      invariant forall j | i <= j < HASH_FUNCTION_COUNT :: signature[j] == before[j]
    {
      var hashed := Hash32(s, seeds[i]);
      if hashed < signature[i] {
        signature[i] := hashed;
      }
    }
    forall i | 0 <= i < HASH_FUNCTION_COUNT ensures SlotSoFar(signature[i], done + {s}, i) {
      LowerSlotSoFar(before[i], done, i, s);
    }
  }

  /** The hash set is walked in an unspecified order; `u64::MAX` never survives. */
  method ComputeMinHashSignature(text: seq<Word>) returns (r: seq<int>)
    ensures r == Signature(Shingles(Normal(text)))
    ensures forall i | 0 <= i < |r| :: r[i] < MODULUS
  {
    var shingles := MakeShingles(text);
    var seeds := HashSeeds();
    var signature := new int[HASH_FUNCTION_COUNT](_ => U64_MAX);
    ghost var done: set<Shingle> := {};
    var todo := shingles;
    while todo != {}
      invariant done + todo == shingles
      invariant forall i | 0 <= i < HASH_FUNCTION_COUNT :: SlotSoFar(signature[i], done, i)
      decreases |todo|
    {
      var s :| s in todo;
      LowerAll(signature, seeds, s, done);
      done, todo := done + {s}, todo - {s};
    }
    assert done == shingles;
    r := signature[..];
    forall i | 0 <= i < |r| ensures IsSlot(r[i], shingles, i) && r[i] < MODULUS {
      assert SlotSoFar(signature[i], done, i);
    }
    SignatureIsUnique(r, Signature(shingles), shingles);
  }

  method FindNearDuplicates(text: seq<Word>, candidates: seq<Candidate>) returns (matches: seq<DedupMatch>)
    ensures matches == Matches(Normal, text, candidates)
  {
    var signature := ComputeMinHashSignature(text);
    matches := [];
    for k := 0 to |candidates|
      invariant matches == Matches(Normal, text, candidates[..k])
    {
      var other := ComputeMinHashSignature(candidates[k].text);
      var similarity := Similarity(signature, other);
      MatchesStep(Normal, text, candidates, k);
      assert similarity == Rating(Normal, text, candidates[k].text);
      if similarity >= NEAR_DUPLICATE_THRESHOLD {
        matches := matches + [DedupMatch(candidates[k].id, similarity)];
      }
    }
    assert candidates[..|candidates|] == candidates;
  }
}
