/** What a MinHash signature is: shingles, hash slots and estimated similarity, for either implementation. */
module MinHash {
  import opened Word32
  import opened Whitespace
  import opened Common

  const SHINGLE_SIZE := 3
  const HASH_FUNCTION_COUNT := 64

  type Shingle = seq<Word>

  function ShingleAt(normal: seq<Word>, i: nat): Shingle
    requires i + SHINGLE_SIZE <= |normal|
  {
    normal[i..i + SHINGLE_SIZE]
  }

  function Shingles(normal: seq<Word>): (s: set<Shingle>)
    ensures s != {}
  {
    if |normal| < SHINGLE_SIZE then {normal} else
    var s := set i | 0 <= i <= |normal| - SHINGLE_SIZE :: ShingleAt(normal, i);
    assert ShingleAt(normal, 0) in s;
    s
  }

  function Seed(i: nat): Word { WrappingMul((i + 1) % MODULUS, MULTIPLIER) }

  /** The hash of a shingle, last character outermost. */
  function Hash(value: Shingle, seed: Word): Word {
    if value == [] then seed else Mix(Hash(value[..|value| - 1], seed), value[|value| - 1])
  }

  predicate WindowAt(normal: seq<Word>, i: nat, s: Shingle) { i + 3 <= |normal| && s == normal[i..i + 3] }

  /** The windows of three characters, or the whole of a shorter text. */
  lemma ShinglesAre(normal: seq<Word>, s: Shingle)
    ensures s in Shingles(normal) <==>
      (|normal| < 3 && s == normal) || (exists i: nat :: WindowAt(normal, i, s))
  {
    if i: nat :| WindowAt(normal, i, s) {
      assert ShingleAt(normal, i) in Shingles(normal);
    } else if |normal| >= 3 && s in Shingles(normal) {
      var i :| 0 <= i <= |normal| - SHINGLE_SIZE && ShingleAt(normal, i) == s;
      assert WindowAt(normal, i, s);
    }
  }

  /** The characters are mixed in from the first to the last, starting with the seed. */
  lemma {:induction false} HashMixesInOrder(value: Shingle, seed: Word, states: seq<Word>)
    requires |states| == |value| + 1 && states[0] == seed
    requires forall k | 0 <= k < |value| :: states[k + 1] == Mix(states[k], value[k])
    ensures Hash(value, seed) == states[|value|]
  {
    if value != [] {
      HashMixesInOrder(value[..|value| - 1], seed, states[..|value|]);
    }
  }

  /** Slot `i` of the signature: the least hash of the set under seed `i`. */
  ghost predicate IsSlot(m: int, shingles: set<Shingle>, i: nat) {
    && (exists s :: s in shingles && Hash(s, Seed(i)) == m)
    && (forall s | s in shingles :: m <= Hash(s, Seed(i)))
  }

  ghost predicate IsSignature(signature: seq<int>, shingles: set<Shingle>) {
    |signature| == HASH_FUNCTION_COUNT && forall i | 0 <= i < HASH_FUNCTION_COUNT :: IsSlot(signature[i], shingles, i)
  }

  /** Equal shingle sets leave no choice: the order in which shingles were visited cannot show. */
  lemma SignatureIsUnique(a: seq<int>, b: seq<int>, shingles: set<Shingle>)
    requires IsSignature(a, shingles) && IsSignature(b, shingles)
    ensures a == b
  {
    forall i | 0 <= i < HASH_FUNCTION_COUNT ensures a[i] == b[i] {
      assert IsSlot(a[i], shingles, i) && IsSlot(b[i], shingles, i);
    }
  }

  lemma LowerSlot(m: int, shingles: set<Shingle>, i: nat, s: Shingle)
    requires IsSlot(m, shingles, i)
    ensures IsSlot(Min(m, Hash(s, Seed(i))), shingles + {s}, i)
  {
    var t :| t in shingles && Hash(t, Seed(i)) == m;
    assert t in shingles + {s} && s in shingles + {s};
  }

  lemma FirstSlot(i: nat, s: Shingle)
    ensures IsSlot(Hash(s, Seed(i)), {s}, i)
  {
    assert s in {s};
  }

  /** The signature of a union is the pointwise minimum. */
  lemma SignatureOfUnion(a: seq<int>, x: set<Shingle>, b: seq<int>, y: set<Shingle>, c: seq<int>)
    requires IsSignature(a, x) && IsSignature(b, y) && IsSignature(c, x + y)
    ensures forall i | 0 <= i < HASH_FUNCTION_COUNT :: c[i] == Min(a[i], b[i])
  {
    forall i | 0 <= i < HASH_FUNCTION_COUNT ensures c[i] == Min(a[i], b[i]) {
      assert IsSlot(a[i], x, i) && IsSlot(b[i], y, i) && IsSlot(c[i], x + y, i);
      var s :| s in x && Hash(s, Seed(i)) == a[i];
      var t :| t in y && Hash(t, Seed(i)) == b[i];
      var u :| u in x + y && Hash(u, Seed(i)) == c[i];
      assert s in x + y && t in x + y;
    }
  }

  ghost function Slot(shingles: set<Shingle>, i: nat): (m: Word)
    requires shingles != {}
    ensures IsSlot(m, shingles, i)
  {
    var s :| s in shingles;
    var rest := shingles - {s};
    if rest == {} then
      assert shingles == {s};
      Hash(s, Seed(i))
    else
      assert shingles == rest + {s};
      LowerSlot(Slot(rest, i), rest, i, s);
      Min(Slot(rest, i), Hash(s, Seed(i)))
  }

  ghost function Signature(shingles: set<Shingle>): (signature: seq<int>)
    requires shingles != {}
    ensures IsSignature(signature, shingles)
  {
    seq(HASH_FUNCTION_COUNT, i requires 0 <= i < HASH_FUNCTION_COUNT => Slot(shingles, i))
  }

  // ----- no collisions between shingles that differ in one place -----

  /** Two shingles of one length that differ in exactly one place hash differently under every seed. */
  lemma {:induction false} OneChangeNeverCollides(s: Shingle, t: Shingle, at: nat, seed: Word)
    requires |s| == |t| && at < |s| && s[at] != t[at]
    requires forall k | 0 <= k < |s| && k != at :: s[k] == t[k]
    ensures Hash(s, seed) != Hash(t, seed)
  {
    var n := |s| - 1;
    var x, y := s[..n], t[..n];
    if at == n {
      assert x == y;
      if Hash(s, seed) == Hash(t, seed) {
        MixInjectiveInUnit(Hash(x, seed), s[n], t[n]);
      }
    } else {
      OneChangeNeverCollides(x, y, at, seed);
      if Hash(s, seed) == Hash(t, seed) {
        MixInjectiveInHash(Hash(x, seed), Hash(y, seed), s[n]);
      }
    }
  }

  // ----- similarity -----

  function CountEqual(a: seq<int>, b: seq<int>): nat
    requires |a| == |b|
  {
    if a == [] then 0
    else CountEqual(a[..|a| - 1], b[..|b| - 1]) + if a[|a| - 1] == b[|b| - 1] then 1 else 0
  }

  function EqualSlots(a: seq<int>, b: seq<int>): set<nat> { set k: nat | k < |a| && k < |b| && a[k] == b[k] }

  lemma EqualSlotsSnoc(a: seq<int>, b: seq<int>, n: nat)
    requires |a| == |b| == n + 1
    ensures EqualSlots(a, b) == EqualSlots(a[..n], b[..n]) + (if a[n] == b[n] then {n} else {})
    ensures n !in EqualSlots(a[..n], b[..n])
  {
  }

  /** The count is that of the places in which the two signatures agree. */
  lemma {:induction false} CountEqualIs(a: seq<int>, b: seq<int>)
    requires |a| == |b|
    ensures CountEqual(a, b) == |EqualSlots(a, b)|
  {
    if a != [] {
      CountEqualIs(a[..|a| - 1], b[..|b| - 1]);
      EqualSlotsSnoc(a, b, |a| - 1);
    }
  }

  function Similarity(a: seq<int>, b: seq<int>): real {
    if |a| != |b| || |a| == 0 then 0.0 else CountEqual(a, b) as real / |a| as real
  }

  lemma Quotient(x: real, m: real, n: real)
    requires n > 0.0 && x == m / n
    ensures x * n == m
  {
  }

  /** The estimate times the number of slots is the number of slots in which the signatures agree. */
  lemma SimilarityIsShare(a: seq<int>, b: seq<int>)
    requires |a| == |b| && a != []
    ensures Similarity(a, b) * |a| as real == |EqualSlots(a, b)| as real
  {
    CountEqualIs(a, b);
    Quotient(Similarity(a, b), CountEqual(a, b) as real, |a| as real);
  }

  const NEAR_DUPLICATE_THRESHOLD := 0.85

  /** On full signatures the threshold asks for 55 equal slots out of 64. */
  lemma ThresholdIs55Slots(a: seq<int>, b: seq<int>)
    requires |a| == |b| == HASH_FUNCTION_COUNT
    ensures Similarity(a, b) >= NEAR_DUPLICATE_THRESHOLD <==> CountEqual(a, b) >= 55
  {
    var n := CountEqual(a, b);
    assert n as real / 64.0 * 64.0 == n as real;
  }

  lemma {:induction false} CountEqualOfSame(a: seq<int>)
    ensures CountEqual(a, a) == |a|
  {
    if a != [] {
      CountEqualOfSame(a[..|a| - 1]);
    }
  }

  /** Equal shingle sets are rated 1. */
  lemma SameShinglesScoreOne(a: seq<int>, b: seq<int>, shingles: set<Shingle>)
    requires IsSignature(a, shingles) && IsSignature(b, shingles)
    ensures Similarity(a, b) == 1.0
  {
    SignatureIsUnique(a, b, shingles);
    CountEqualOfSame(a);
    assert 64.0 / 64.0 == 1.0;
  }

  // ----- the match list -----

  datatype Candidate = Candidate(id: string, text: seq<Word>)
  datatype DedupMatch = DedupMatch(id: string, similarity: real)

  ghost function Rating(normal: seq<Word> -> seq<Word>, text: seq<Word>, other: seq<Word>): real {
    Similarity(Signature(Shingles(normal(text))), Signature(Shingles(normal(other))))
  }

  function MatchOf(id: string, similarity: real): seq<DedupMatch> {
    if similarity >= NEAR_DUPLICATE_THRESHOLD then [DedupMatch(id, similarity)] else []
  }

  /** The candidates rated at or above the threshold, in order; `normal` is the normalisation in use. */
  ghost function Matches(normal: seq<Word> -> seq<Word>, text: seq<Word>, candidates: seq<Candidate>): seq<DedupMatch> {
    if candidates == [] then [] else
    var last := candidates[|candidates| - 1];
    Matches(normal, text, candidates[..|candidates| - 1]) + MatchOf(last.id, Rating(normal, text, last.text))
  }

  lemma MatchesStep(normal: seq<Word> -> seq<Word>, text: seq<Word>, candidates: seq<Candidate>, k: nat)
    requires k < |candidates|
    ensures Matches(normal, text, candidates[..k + 1]) ==
            Matches(normal, text, candidates[..k]) + MatchOf(candidates[k].id, Rating(normal, text, candidates[k].text))
  {
    assert candidates[..k + 1][..k] == candidates[..k];
  }

  /** The ratings of the candidates, in order. */
  ghost function Ratings(normal: seq<Word> -> seq<Word>, text: seq<Word>, candidates: seq<Candidate>)
    : (ratings: seq<real>)
    ensures |ratings| == |candidates|
    ensures forall k | 0 <= k < |candidates| :: ratings[k] == Rating(normal, text, candidates[k].text)
  {
    seq(|candidates|, k requires 0 <= k < |candidates| => Rating(normal, text, candidates[k].text))
  }

  function MatchList(candidates: seq<Candidate>, ratings: seq<real>): seq<DedupMatch>
    requires |ratings| == |candidates|
  {
    if candidates == [] then [] else
    var n := |candidates| - 1;
    MatchList(candidates[..n], ratings[..n]) + MatchOf(candidates[n].id, ratings[n])
  }

  lemma {:induction false} MatchesByRatings(normal: seq<Word> -> seq<Word>, text: seq<Word>,
                                            candidates: seq<Candidate>, ratings: seq<real>)
    requires |ratings| == |candidates|
    requires forall k | 0 <= k < |candidates| :: ratings[k] == Rating(normal, text, candidates[k].text)
    ensures Matches(normal, text, candidates) == MatchList(candidates, ratings)
  {
    if candidates != [] {
      MatchesByRatings(normal, text, candidates[..|candidates| - 1], ratings[..|candidates| - 1]);
    }
  }

  /** The list holds the candidates numbered `which`, each with its rating. */
  predicate Lists(list: seq<DedupMatch>, candidates: seq<Candidate>, ratings: seq<real>, which: seq<nat>)
    requires |ratings| == |candidates|
  {
    |list| == |which| && forall i | 0 <= i < |which| ::
      which[i] < |candidates| && list[i] == DedupMatch(candidates[which[i]].id, ratings[which[i]])
  }

  /** `which` numbers the ratings at or above the threshold, in order. */
  ghost predicate AreAllNear(ratings: seq<real>, which: seq<nat>) {
    && (forall i, j | 0 <= i < j < |which| :: which[i] < which[j])
    && (forall k: nat :: k in which <==> k < |ratings| && ratings[k] >= 0.85)
  }

  lemma NearSnoc(ratings: seq<real>, n: nat, before: seq<nat>, which: seq<nat>)
    requires |ratings| == n + 1 && AreAllNear(ratings[..n], before)
    requires which == before + (if ratings[n] >= 0.85 then [n] else [])
    ensures AreAllNear(ratings, which)
  {
    forall k: nat ensures k in before <==> k < n && ratings[k] >= 0.85 {
      assert k in before <==> k < n && ratings[..n][k] >= 0.85;
    }
    forall i | 0 <= i < |before| ensures before[i] < n {
      assert before[i] in before;
    }
  }

  lemma ListSnoc(candidates: seq<Candidate>, ratings: seq<real>, n: nat, front: seq<DedupMatch>, before: seq<nat>,
                 list: seq<DedupMatch>, which: seq<nat>)
    requires |candidates| == |ratings| == n + 1 && Lists(front, candidates[..n], ratings[..n], before)
    requires list == front + (if ratings[n] >= 0.85 then [DedupMatch(candidates[n].id, ratings[n])] else [])
    requires which == before + (if ratings[n] >= 0.85 then [n] else [])
    ensures Lists(list, candidates, ratings, which)
  {
  }

  lemma MatchListSnoc(candidates: seq<Candidate>, ratings: seq<real>, n: nat)
    requires |candidates| == |ratings| == n + 1
    ensures MatchList(candidates, ratings) == MatchList(candidates[..n], ratings[..n])
      + (if ratings[n] >= 0.85 then [DedupMatch(candidates[n].id, ratings[n])] else [])
  {
  }

  lemma {:induction false} MatchListIs(candidates: seq<Candidate>, ratings: seq<real>, list: seq<DedupMatch>)
    returns (which: seq<nat>)
    requires |ratings| == |candidates| && list == MatchList(candidates, ratings)
    ensures Lists(list, candidates, ratings, which) && AreAllNear(ratings, which)
  {
    which := [];
    if candidates != [] {
      var n := |candidates| - 1;
      var front := MatchList(candidates[..n], ratings[..n]);
      var before := MatchListIs(candidates[..n], ratings[..n], front);
      which := before + if ratings[n] >= 0.85 then [n] else [];
      NearSnoc(ratings, n, before, which);
      MatchListSnoc(candidates, ratings, n);
      ListSnoc(candidates, ratings, n, front, before, list, which);
    }
  }

  /** The matches are the candidates rated at least 0.85, all of them, once each and in order, each with its rating. */
  lemma MatchesAreNear(normal: seq<Word> -> seq<Word>, text: seq<Word>, candidates: seq<Candidate>,
                       ratings: seq<real>) returns (which: seq<nat>)
    requires ratings == Ratings(normal, text, candidates)
    ensures Lists(Matches(normal, text, candidates), candidates, ratings, which) && AreAllNear(ratings, which)
  {
    MatchesByRatings(normal, text, candidates, ratings);
    which := MatchListIs(candidates, ratings, MatchList(candidates, ratings));
  }
}
