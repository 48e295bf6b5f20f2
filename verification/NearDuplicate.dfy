/** The TypeScript fallback: `near-duplicate.ts` and the local check of `dedup-client.ts`. */
module NearDuplicate {
  import opened Common
  import opened Utf16
  import opened Word32
  import opened Whitespace
  import opened MinHash

  const SPACE: Word := 0x20

  predicate IsBlank(c: Word) { IsSpace(c) }

  /** `text.replace(/\s+/g, ' ').trim()` */
  function Normalise(text: seq<Word>): seq<Word> {
    TrimBoth(IsBlank, Squeeze(IsBlank, SPACE, text, false))
  }

  /** Collapsing and trimming leaves the words of the text, joined by single spaces. */
  lemma NormaliseJoinsWords(text: seq<Word>)
    ensures Normalise(text) == Join(SPACE, Words(IsBlank, text))
  {
    SqueezeThenTrim(IsBlank, SPACE, text);
  }

  lemma NormaliseCharacters(text: seq<Word>, c: Word)
    requires c != SPACE
    ensures c in Normalise(text) <==> c in text && !IsBlank(c)
  {
    NormaliseJoinsWords(text);
    JoinCharacters(IsBlank, SPACE, text, c);
  }

  method MakeShingles(text: seq<Word>) returns (shingles: set<Shingle>)
    ensures shingles == Shingles(Normalise(text))
  {
    var normalised := Normalise(text);
    if |normalised| < SHINGLE_SIZE {
      return {normalised};
    }
    shingles := {};
    for i := 0 to |normalised| - SHINGLE_SIZE + 1
      invariant shingles == set j | 0 <= j < i :: ShingleAt(normalised, j)
    {
      shingles := shingles + {ShingleAt(normalised, i)};
    }
  }

  /** Signed 32-bit arithmetic throughout, one `>>> 0` at the end. */
  method Hash32(value: Shingle, seed: int) returns (r: int)
    ensures r == Hash(value, ToUint32(seed))
  {
    var hash: int := ToUint32(seed);
    for i := 0 to |value|
      invariant ToUint32(hash) == Hash(value[..i], ToUint32(seed))
    {
      JsMixIsMix(hash, value[i]);
      hash := JsImul(JsXor(hash, value[i]), MULTIPLIER);
      hash := JsXor(hash, JsShr(hash, 15));
      assert value[..i + 1][..i] == value[..i];
    }
    assert value[..|value|] == value;
    r := ToUint32(hash);
  }

  /** A signature slot is a JavaScript number that starts at infinity. */
  datatype JsNumber = Infinity | Number(value: int)

  ghost predicate SlotSoFar(v: JsNumber, done: set<Shingle>, i: nat) {
    match v
    case Infinity => done == {}
    case Number(n) => IsSlot(n, done, i)
  }

  function Lower(v: JsNumber, hashed: int): JsNumber {
    match v
    case Infinity => Number(hashed)
    case Number(n) => if hashed < n then Number(hashed) else v
  }

  lemma LowerSlotSoFar(v: JsNumber, done: set<Shingle>, i: nat, s: Shingle)
    requires SlotSoFar(v, done, i)
    ensures SlotSoFar(Lower(v, Hash(s, Seed(i))), done + {s}, i)
  {
    match v
    case Infinity => FirstSlot(i, s); assert done + {s} == {s};
    case Number(n) => LowerSlot(n, done, i, s);
  }

  /** `hash32(shingle, (i + 1) * 2654435761)`: the seed is a number above 32 bits that the first `^` truncates. */
  method SlotHash(s: Shingle, i: nat) returns (hashed: int)
    requires i < HASH_FUNCTION_COUNT
    ensures hashed == Hash(s, Seed(i))
  {
    hashed := Hash32(s, (i + 1) * MULTIPLIER);
    SeedOf(i, i + 1);
  }

  lemma SeedOf(i: nat, n: nat)
    requires n == i + 1 && n <= HASH_FUNCTION_COUNT
    ensures ToUint32(n * MULTIPLIER) == Seed(i)
  {
    assert n % MODULUS == n;
  }

  /** The inner loop: one shingle lowers every slot in place. */
  method LowerAll(signature: array<JsNumber>, s: Shingle, ghost done: set<Shingle>)
    requires signature.Length == HASH_FUNCTION_COUNT
    requires forall i | 0 <= i < HASH_FUNCTION_COUNT :: SlotSoFar(signature[i], done, i)
    modifies signature
    ensures forall i | 0 <= i < HASH_FUNCTION_COUNT :: SlotSoFar(signature[i], done + {s}, i)
  {
    ghost var before := signature[..];
    for i := 0 to HASH_FUNCTION_COUNT
      invariant forall j | 0 <= j < i :: signature[j] == Lower(before[j], Hash(s, Seed(j)))
      invariant forall j | i <= j < HASH_FUNCTION_COUNT :: signature[j] == before[j]
    {
      var hashed := SlotHash(s, i);
      signature[i] := Lower(signature[i], hashed);
    }
    forall i | 0 <= i < HASH_FUNCTION_COUNT ensures SlotSoFar(signature[i], done + {s}, i) {
      LowerSlotSoFar(before[i], done, i, s);
    }
  }

  function Values(signature: seq<JsNumber>): (values: seq<int>)
    requires forall i | 0 <= i < |signature| :: signature[i].Number?
    ensures |values| == |signature| && forall i | 0 <= i < |values| :: values[i] == signature[i].value
  {
    seq(|signature|, i requires 0 <= i < |signature| => signature[i].value)
  }

  /** No slot stays at infinity, and the visiting order of the shingles does not matter. */
  method ComputeMinHashSignature(text: seq<Word>) returns (r: seq<JsNumber>)
    ensures forall i | 0 <= i < |r| :: r[i].Number?
    ensures Values(r) == Signature(Shingles(Normalise(text)))
  {
    var shingles := MakeShingles(text);
    var signature := new JsNumber[HASH_FUNCTION_COUNT](_ => Infinity);
    ghost var done: set<Shingle> := {};
    var todo := shingles;
    while todo != {}
      invariant done + todo == shingles
      invariant forall i | 0 <= i < HASH_FUNCTION_COUNT :: SlotSoFar(signature[i], done, i)
      decreases |todo|
    {
      var s :| s in todo;
      LowerAll(signature, s, done);
      done, todo := done + {s}, todo - {s};
    }
    assert done == shingles;
    r := signature[..];
    forall i | 0 <= i < |r| ensures r[i].Number? && IsSlot(r[i].value, shingles, i) {
      assert SlotSoFar(signature[i], done, i);
    }
    SignatureIsUnique(Values(r), Signature(shingles), shingles);
  }

  method EstimateJaccardSimilarity(a: seq<JsNumber>, b: seq<JsNumber>) returns (similarity: real)
    requires forall i | 0 <= i < |a| :: a[i].Number?
    requires forall i | 0 <= i < |b| :: b[i].Number?
    ensures similarity == Similarity(Values(a), Values(b))
  {
    if |a| != |b| || |a| == 0 {
      return 0.0;
    }
    var matches := 0;
    for i := 0 to |a|
      invariant matches == CountEqual(Values(a)[..i], Values(b)[..i])
    {
      assert Values(a)[..i + 1][..i] == Values(a)[..i] && Values(b)[..i + 1][..i] == Values(b)[..i];
      if a[i] == b[i] {
        matches := matches + 1;
      }
    }
    assert Values(a)[..|a|] == Values(a) && Values(b)[..|b|] == Values(b);
    similarity := matches as real / |a| as real;
  }

  datatype CheckResult = CheckResult(isNearDuplicate: bool, matches: seq<DedupMatch>)

  method CheckNearDuplicatesLocally(text: seq<Word>, candidates: seq<Candidate>) returns (r: CheckResult)
    ensures r.matches == Matches(Normalise, text, candidates) && r.isNearDuplicate == (|r.matches| > 0)
  {
    var signature := ComputeMinHashSignature(text);
    var matches: seq<DedupMatch> := [];
    for k := 0 to |candidates|
      invariant matches == Matches(Normalise, text, candidates[..k])
    {
      var other := ComputeMinHashSignature(candidates[k].text);
      var similarity := EstimateJaccardSimilarity(signature, other);
      MatchesStep(Normalise, text, candidates, k);
      assert similarity == Rating(Normalise, text, candidates[k].text);
      if similarity >= NEAR_DUPLICATE_THRESHOLD {
        matches := matches + [DedupMatch(candidates[k].id, similarity)];
      }
    }
    assert candidates[..|candidates|] == candidates;
    r := CheckResult(|matches| > 0, matches);
  }

  /** What became of the request to the data plane. */
  datatype Remote = NoUrl | Failed | Answered(isNearDuplicate: bool, matches: seq<DedupMatch>)

  method CheckNearDuplicates(text: seq<Word>, candidates: seq<Candidate>, remote: Remote) returns (r: CheckResult)
    ensures candidates == [] ==> r == CheckResult(false, [])
    ensures candidates != [] && remote.Answered? ==> r == CheckResult(remote.isNearDuplicate, remote.matches)
    ensures candidates != [] && !remote.Answered? ==>
      r.matches == Matches(Normalise, text, candidates) && r.isNearDuplicate == (|r.matches| > 0)
  {
    if candidates == [] {
      return CheckResult(false, []);
    }
    match remote
    case Answered(isNearDuplicate, matches) => r := CheckResult(isNearDuplicate, matches);
    case _ => r := CheckNearDuplicatesLocally(text, candidates);
  }
}
