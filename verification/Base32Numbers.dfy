/** Base32 as a change of base: bytes and letters stand for one number, up to the bits that fill no letter or byte. */
module Base32Numbers {
  import opened Common
  import opened Base32
  import Utf16

  /** The number that digits of the given base stand for, most significant first. */
  function Number(digits: seq<nat>, base: nat): nat {
    if digits == [] then 0 else Number(digits[..|digits| - 1], base) * base + digits[|digits| - 1]
  }

  lemma TwiceRight(a: nat, b: nat)
    ensures a * (2 * b) == 2 * (a * b)
  {
  }

  lemma {:induction false} ValueJoin(a: seq<bool>, b: seq<bool>, v: nat, p: nat)
    requires v == Value(a) && p == Power(|b|)
    ensures Value(a + b) == v * p + Value(b)
    decreases |b|
  {
    if b == [] {
      assert a + b == a && v * p == v;
    } else {
      var front, q := b[..|b| - 1], Power(|b| - 1);
      ValueJoin(a, front, v, q);
      assert (a + b)[..|a + b| - 1] == a + front && (a + b)[|a + b| - 1] == b[|b| - 1];
      TwiceRight(v, q);
    }
  }

  lemma {:induction false} FlattenNumber(values: seq<nat>, w: nat, base: nat)
    requires w > 0 && Fit(values, w) && base == Power(w)
    ensures Value(Flatten(values, w)) == Number(values, base)
  {
    if values != [] {
      var front, last := values[..|values| - 1], values[|values| - 1];
      FlattenNumber(front, w, base);
      assert values == front + [last];
      FlattenAppend(front, last, w);
      DigitsRoundTrip(last, w);
      ValueJoin(Flatten(front, w), Digits(last, w), Number(front, base), base);
    }
  }

  lemma {:induction false} FiveBitsLength(values: seq<nat>)
    requires Fit(values, 5)
    ensures |Flatten(values, 5)| == 5 * |values|
  {
    if values != [] {
      DigitsRoundTrip(values[0], 5);
      FiveBitsLength(values[1..]);
    }
  }

  /** `n` is what is left of `v` without its last places, of which `p` is the scale. */
  predicate CutTo(v: nat, n: nat, p: nat) { n * p <= v < (n + 1) * p }

  /** The whole groups of a bit string stand for what is left without the last bits. */
  lemma GroupsNumber(bits: seq<bool>, w: nat, base: nat, m: nat, n: nat, p: nat)
    requires w > 0 && base == Power(w) && m == Whole(|bits|, w) && p == Power(|bits| - m)
    requires n == Number(Groups(bits, w), base)
    ensures CutTo(Value(bits), n, p)
  {
    FlattenOfGroups(bits, w);
    FlattenNumber(Groups(bits, w), w, base);
    assert bits == bits[..m] + bits[m..];
    ValueJoin(bits[..m], bits[m..], n, p);
    OneMore(n, p);
  }

  lemma OneMore(n: nat, p: nat)
    ensures (n + 1) * p == n * p + p
  {
  }

  lemma SmallPowers()
    ensures Power(5) == 32 && Power(8) == 256
  {
    assert Power(5) == 2 * (2 * (2 * (2 * (2 * Power(0)))));
    assert Power(8) == 2 * (2 * (2 * Power(5)));
  }

  lemma {:induction false} WholeEights(n: nat)
    ensures Whole(n, 8) == n - n % 8
  {
    if n >= 8 {
      WholeEights(n - 8);
    }
  }

  lemma {:induction false} GroupCount(bits: seq<bool>, w: nat)
    requires w > 0
    ensures w * |Groups(bits, w)| == Whole(|bits|, w)
  {
    if |bits| >= w {
      GroupCount(bits[w..], w);
      assert w * (|Groups(bits[w..], w)| + 1) == w * |Groups(bits[w..], w)| + w;
    }
  }

  lemma {:induction false} LettersAt(values: seq<nat>)
    requires Indices(values)
    ensures |Letters(values)| == |values|
    ensures forall k | 0 <= k < |values| :: Letters(values)[k] == Letter(values[k])
  {
    if values != [] {
      AlphabetLetter(values[0]);
      LettersAt(values[1..]);
      assert forall k | 0 < k < |values| :: Letters(values)[k] == Letters(values[1..])[k - 1];
    }
  }

  /**
   * The letters of a secret, A to Z for 0 to 25 and 2 to 7 for 26 to 31, are the digits in base 32 of the number that
   * the bytes stand for, once the bits that fill no letter are dropped.
   */
  lemma EncodeChangesBase(bytes: seq<Byte>) returns (values: seq<nat>)
    ensures |values| == 8 * |bytes| / 5 && |Encode(bytes)| == |values|
    ensures forall k | 0 <= k < |values| :: values[k] < 32 && Encode(bytes)[k] == Letter(values[k])
    ensures CutTo(Number(bytes, 256), Number(values, 32), Power(8 * |bytes| % 5))
  {
    values := Groups(Flatten(bytes, 8), 5);
    LettersOfBytes(bytes, Flatten(bytes, 8));
    FiveBitsIndex(values);
    LettersAt(values);
    SmallPowers();
  }

  lemma LettersOfBytes(bytes: seq<Byte>, bits: seq<bool>)
    requires bits == Flatten(bytes, 8)
    ensures |Groups(bits, 5)| == 8 * |bytes| / 5
    ensures CutTo(Number(bytes, 256), Number(Groups(bits, 5), 32), Power(8 * |bytes| % 5))
  {
    SmallPowers();
    BytesFit(bytes);
    ByteBitsLength(bytes);
    FlattenNumber(bytes, 8, 256);
    WholeFives(|bits|);
    GroupCount(bits, 5);
    var values := Groups(bits, 5);
    GroupsNumber(bits, 5, 32, |bits| - |bits| % 5, Number(values, 32), Power(8 * |bytes| % 5));
  }

  predicate IsLetter(c: char) { 'A' <= c <= 'Z' || '2' <= c <= '7' }

  predicate AreLetters(s: string, values: seq<nat>) {
    |values| == |s| && forall k | 0 <= k < |s| :: values[k] < 32 && s[k] == Letter(values[k])
  }

  lemma {:induction false} FirstIndexIs(s: string, c: char)
    ensures FirstIndex(s, c).Some? <==> c in s
    ensures FirstIndex(s, c).Some? ==> FirstIndex(s, c).value < |s| && s[FirstIndex(s, c).value] == c
  {
    if s != [] && s[0] != c {
      FirstIndexIs(s[1..], c);
    }
  }

  lemma LetterOf(c: char) returns (k: nat)
    requires IsLetter(c)
    ensures k < 32 && Letter(k) == c
  {
    k := if 'A' <= c then (c - 'A') as nat else 26 + (c - '2') as nat;
  }

  lemma AlphabetIs(c: char)
    ensures c in ALPHABET <==> IsLetter(c)
  {
    if IsLetter(c) {
      var k := LetterOf(c);
      AlphabetLetter(k);
    }
    forall k | 0 <= k < |ALPHABET| ensures IsLetter(ALPHABET[k]) {
      AlphabetLetter(k);
    }
  }

  lemma LetterValue(c: char, alphabet: string)
    requires alphabet == ALPHABET
    ensures FirstIndex(alphabet, c).Some? <==> IsLetter(c)
    ensures IsLetter(c) ==> FirstIndex(alphabet, c).value < 32 && Letter(FirstIndex(alphabet, c).value) == c
  {
    FirstIndexIs(alphabet, c);
    AlphabetIs(c);
    if IsLetter(c) {
      AlphabetLetter(FirstIndex(alphabet, c).value);
    }
  }

  lemma LettersSnoc(c: char, k: nat, s: string, values: seq<nat>)
    requires k < 32 && c == Letter(k) && AreLetters(s, values)
    ensures AreLetters([c] + s, [k] + values)
  {
  }

  /** Reading letters fails exactly when a character is none. */
  lemma {:induction false} ReadLettersAre(s: string)
    ensures ReadLetters(s).Some? <==> forall k | 0 <= k < |s| :: IsLetter(s[k])
    ensures ReadLetters(s).Some? ==> AreLetters(s, ReadLetters(s).value)
  {
    if s != [] {
      var c, rest := s[0], s[1..];
      LetterValue(c, ALPHABET);
      ReadLettersAre(rest);
      assert s == [c] + rest;
      if ReadLetters(s).Some? {
        LettersSnoc(c, FirstIndex(ALPHABET, c).value, rest, ReadLetters(rest).value);
      }
    }
  }

  /**
   * Decoding fails exactly when, padding and white space aside and in upper case, some character is no letter.
   * Otherwise the letters are digits in base 32, and the bytes stand for the same number without its last bits.
   */
  lemma DecodeChangesBase(input: string, upper: char -> string) returns (values: seq<nat>)
    ensures var s := Clean(input, upper);
      && (Decode(input, upper).Some? <==> forall k | 0 <= k < |s| :: IsLetter(s[k]))
      && (Decode(input, upper).Some? ==> AreLetters(s, values) && SameNumber(values, Decode(input, upper).value))
  {
    var s := Clean(input, upper);
    ReadLettersAre(s);
    values := if ReadLetters(s).Some? then ReadLetters(s).value else [];
    if ReadLetters(s).Some? {
      BytesOfLetters(values);
    }
  }

  /** As many bytes as the letters fill, for the number of the letters without the last bits. */
  predicate SameNumber(values: seq<nat>, bytes: seq<nat>) {
    && |bytes| == 5 * |values| / 8 && (forall k | 0 <= k < |bytes| :: bytes[k] < 256)
    && CutTo(Number(values, 32), Number(bytes, 256), Power(5 * |values| % 8))
  }

  lemma BytesOfLetters(values: seq<nat>)
    requires forall k | 0 <= k < |values| :: values[k] < 32
    ensures SameNumber(values, Groups(Flatten(values, 5), 8))
  {
    var bits := Flatten(values, 5);
    assert Fit(values, 5) by { SmallPowers(); }
    SmallPowers();
    FiveBitsLength(values);
    FlattenNumber(values, 5, 32);
    WholeEights(|bits|);
    GroupCount(bits, 8);
    var bytes := Groups(bits, 8);
    GroupsNumber(bits, 8, 256, |bits| - |bits| % 8, Number(bytes, 256), Power(5 * |values| % 8));
  }

  /** `s` is `text` with white space put in. */
  predicate Spaced(s: string, text: string) {
    if s == [] then text == []
    else
      || (Utf16.IsSpace(s[0] as int) && Spaced(s[1..], text))
      || (!Utf16.IsSpace(s[0] as int) && text != [] && s[0] == text[0] && Spaced(s[1..], text[1..]))
  }

  /** Removing white space leaves exactly the text that it was put into. */
  lemma {:induction false} RemoveSpaceUndoes(s: string, text: string)
    ensures RemoveSpace(s) == text <==> Spaced(s, text)
  {
    if s != [] {
      if Utf16.IsSpace(s[0] as int) {
        RemoveSpaceUndoes(s[1..], text);
      } else if text != [] {
        RemoveSpaceUndoes(s[1..], text[1..]);
        assert text == [text[0]] + text[1..];
      }
    }
  }
}
