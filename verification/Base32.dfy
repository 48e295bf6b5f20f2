/** Base32 secrets (section 6 of RFC 4648), written without padding and read leniently. */
module Base32 {
  import opened Common
  import Utf16

  type Byte = b: nat | b < 256

  const ALPHABET := "ABCDEFGHIJKLMNOPQRSTUVWXYZ234567"

  // ----- numbers as bit strings -----

  function Power(w: nat): (p: nat)
    ensures p > 0
  {
    if w == 0 then 1 else 2 * Power(w - 1)
  }

  function BitValue(bit: bool): nat { if bit then 1 else 0 }

  /** `parseInt(bits, 2)`. */
  function Value(bits: seq<bool>): (v: nat)
    ensures v < Power(|bits|)
  {
    if bits == [] then 0 else 2 * Value(bits[..|bits| - 1]) + BitValue(bits[|bits| - 1])
  }

  /** `v.toString(2)`. */
  function Binary(v: nat): seq<bool> {
    if v < 2 then [v == 1] else Binary(v / 2) + [v % 2 == 1]
  }

  /** `padStart(w, '0')`. */
  function PadStart(bits: seq<bool>, w: nat): seq<bool>
    decreases w - |bits|
  {
    if |bits| >= w then bits else PadStart([false] + bits, w)
  }

  function Digits(v: nat, w: nat): seq<bool> { PadStart(Binary(v), w) }

  lemma {:induction false} BinaryOf(v: nat, w: nat)
    requires v < Power(w) && w > 0
    ensures Value(Binary(v)) == v && |Binary(v)| <= w
  {
    if v >= 2 {
      BinaryOf(v / 2, w - 1);
      assert Binary(v)[..|Binary(v)| - 1] == Binary(v / 2);
    } else {
      assert Binary(v)[..0] == [];
    }
  }

  lemma {:induction false} LeadingZero(bits: seq<bool>)
    ensures Value([false] + bits) == Value(bits)
  {
    var padded := [false] + bits;
    if bits == [] {
      assert padded[..0] == [];
    } else {
      LeadingZero(bits[..|bits| - 1]);
      assert padded[..|padded| - 1] == [false] + bits[..|bits| - 1];
    }
  }

  lemma {:induction false} PadStartOf(bits: seq<bool>, w: nat)
    requires |bits| <= w
    ensures |PadStart(bits, w)| == w && Value(PadStart(bits, w)) == Value(bits)
    decreases w - |bits|
  {
    if |bits| < w {
      LeadingZero(bits);
      PadStartOf([false] + bits, w);
    }
  }

  /** A number below `2^w` is written on exactly `w` bits and read back. */
  lemma DigitsRoundTrip(v: nat, w: nat)
    requires v < Power(w) && w > 0
    ensures |Digits(v, w)| == w && Value(Digits(v, w)) == v
  {
    BinaryOf(v, w);
    PadStartOf(Binary(v), w);
  }

  lemma {:induction false} ValueInjective(a: seq<bool>, b: seq<bool>)
    requires |a| == |b| && Value(a) == Value(b)
    ensures a == b
  {
    if a != [] {
      ValueInjective(a[..|a| - 1], b[..|b| - 1]);
      assert a == a[..|a| - 1] + [a[|a| - 1]] && b == b[..|b| - 1] + [b[|b| - 1]];
    }
  }

  // ----- bit strings as groups -----

  predicate Fit(values: seq<nat>, w: nat) { forall k | 0 <= k < |values| :: values[k] < Power(w) }

  /** The loop `for (i = 0; i + w <= bits.length; i += w)`: whole groups only, a shorter rest is dropped. */
  function Groups(bits: seq<bool>, w: nat): (values: seq<nat>)
    requires w > 0
    ensures Fit(values, w)
  {
    if |bits| < w then [] else [Value(bits[..w])] + Groups(bits[w..], w)
  }

  function Flatten(values: seq<nat>, w: nat): seq<bool> {
    if values == [] then [] else Digits(values[0], w) + Flatten(values[1..], w)
  }

  /** The length of the whole groups of width `w` in `n` bits. */
  function Whole(n: nat, w: nat): (m: nat)
    requires w > 0
    ensures n < m + w && m <= n
  {
    if n < w then 0 else w + Whole(n - w, w)
  }

  lemma FirstGroup(head: seq<bool>, tail: seq<bool>, w: nat)
    requires w > 0 && |head| == w
    ensures Groups(head + tail, w) == [Value(head)] + Groups(tail, w)
  {
    assert (head + tail)[..w] == head && (head + tail)[w..] == tail;
  }

  /** Cutting a flattened list gives the list back, whatever short rest follows. */
  lemma {:induction false} GroupsOfFlatten(values: seq<nat>, rest: seq<bool>, w: nat)
    requires w > 0 && |rest| < w && Fit(values, w)
    ensures Groups(Flatten(values, w) + rest, w) == values
  {
    if values != [] {
      var head, tail := Digits(values[0], w), Flatten(values[1..], w) + rest;
      DigitsRoundTrip(values[0], w);
      assert Flatten(values, w) + rest == head + tail;
      GroupsOfFlatten(values[1..], rest, w);
      FirstGroup(head, tail, w);
      assert values == [values[0]] + values[1..];
    } else {
      assert Flatten(values, w) + rest == rest;
    }
  }

  /** Flattening the groups of a bit string gives its whole groups back. */
  lemma {:induction false} FlattenOfGroups(bits: seq<bool>, w: nat)
    requires w > 0
    ensures Flatten(Groups(bits, w), w) == bits[..Whole(|bits|, w)]
  {
    if |bits| >= w {
      DigitsRoundTrip(Value(bits[..w]), w);
      ValueInjective(Digits(Value(bits[..w]), w), bits[..w]);
      FlattenOfGroups(bits[w..], w);
      var groups := Groups(bits, w);
      assert groups[1..] == Groups(bits[w..], w);
      assert bits[w..][..Whole(|bits| - w, w)] == bits[w..Whole(|bits|, w)];
      assert bits[..Whole(|bits|, w)] == bits[..w] + bits[w..Whole(|bits|, w)];
    }
  }

  lemma {:induction false} FlattenAppend(values: seq<nat>, last: nat, w: nat)
    ensures Flatten(values + [last], w) == Flatten(values, w) + Digits(last, w)
  {
    var all := values + [last];
    if values == [] {
      assert all[1..] == [];
    } else {
      assert all[1..] == values[1..] + [last];
      FlattenAppend(values[1..], last, w);
    }
  }

  lemma {:induction false} ByteBitsLength(bytes: seq<Byte>)
    ensures |Flatten(bytes, 8)| == 8 * |bytes|
  {
    if bytes != [] {
      BytesFit(bytes);
      DigitsRoundTrip(bytes[0], 8);
      ByteBitsLength(bytes[1..]);
    }
  }

  lemma BytesFit(bytes: seq<Byte>)
    ensures Fit(bytes, 8)
  {
    assert Power(8) == 2 * (2 * (2 * (2 * Power(4))));
    assert Power(4) == 2 * (2 * (2 * (2 * Power(0))));
  }

  lemma {:induction false} WholeFives(n: nat)
    ensures Whole(n, 5) == n - n % 5
  {
    if n >= 5 {
      WholeFives(n - 5);
    }
  }

  // ----- letters -----

  function FirstIndex(s: string, c: char): Option<nat> {
    if s == [] then None
    else if s[0] == c then Some(0)
    else
      match FirstIndex(s[1..], c)
      case None => None
      case Some(k) => Some(k + 1)
  }

  lemma {:induction false} FirstIndexOfDistinct(s: string, k: nat)
    requires k < |s| && forall i, j | 0 <= i < j < |s| :: s[i] != s[j]
    ensures FirstIndex(s, s[k]) == Some(k)
  {
    if k > 0 {
      assert forall i, j | 0 <= i < j < |s[1..]| :: s[1..][i] == s[i + 1] != s[j + 1] == s[1..][j];
      FirstIndexOfDistinct(s[1..], k - 1);
    }
  }

  /** The alphabet is A to Z and then 2 to 7. */
  function Letter(k: nat): (c: char)
    requires k < 32
  {
    if k < 26 then 'A' + k as char else '2' + (k - 26) as char
  }

  lemma AlphabetLetter(k: nat)
    requires k < |ALPHABET|
    ensures |ALPHABET| == 32 && ALPHABET[k] == Letter(k)
  {
  }

  lemma LetterIndex(k: nat)
    requires k < |ALPHABET|
    ensures FirstIndex(ALPHABET, ALPHABET[k]) == Some(k)
  {
    forall i, j | 0 <= i < j < |ALPHABET| ensures ALPHABET[i] != ALPHABET[j] {
      AlphabetLetter(i);
      AlphabetLetter(j);
    }
    FirstIndexOfDistinct(ALPHABET, k);
  }

  predicate Indices(values: seq<nat>) { forall k | 0 <= k < |values| :: values[k] < |ALPHABET| }

  function Letters(values: seq<nat>): (s: string)
    requires Indices(values)
  {
    if values == [] then [] else [ALPHABET[values[0]]] + Letters(values[1..])
  }

  /** The 5-bit values of the characters, or `None` where the source throws. */
  function ReadLetters(s: string): Option<seq<nat>> {
    if s == [] then Some([])
    else
      match FirstIndex(ALPHABET, s[0])
      case None => None
      case Some(v) => After([v], ReadLetters(s[1..]))
  }

  function After(front: seq<nat>, rest: Option<seq<nat>>): Option<seq<nat>> {
    match rest
    case None => None
    case Some(values) => Some(front + values)
  }

  lemma {:induction false} ReadLettersOf(values: seq<nat>)
    requires Indices(values)
    ensures ReadLetters(Letters(values)) == Some(values)
  {
    if values != [] {
      LetterIndex(values[0]);
      ReadLettersOf(values[1..]);
      assert Letters(values)[1..] == Letters(values[1..]);
      assert values == [values[0]] + values[1..];
    }
  }

  // ----- cleaning the input -----

  /** `replace(/=+$/, '')`. */
  function StripPadding(s: string): string {
    if s != [] && s[|s| - 1] == '=' then StripPadding(s[..|s| - 1]) else s
  }

  function ToUpperCase(s: string, upper: char -> string): string {
    if s == [] then [] else upper(s[0]) + ToUpperCase(s[1..], upper)
  }

  function RemoveSpace(s: string): string {
    if s == [] then []
    else if Utf16.IsSpace(s[0] as int) then RemoveSpace(s[1..])
    else [s[0]] + RemoveSpace(s[1..])
  }

  /** `upper` is the platform's upper-case mapping of one character. */
  function Clean(input: string, upper: char -> string): string {
    RemoveSpace(ToUpperCase(StripPadding(input), upper))
  }

  predicate KeepsCapitals(upper: char -> string) {
    forall k | 0 <= k < |ALPHABET| :: upper(ALPHABET[k]) == [ALPHABET[k]]
  }

  lemma {:induction false} LettersNeedNoCleaning(values: seq<nat>, upper: char -> string)
    requires Indices(values) && KeepsCapitals(upper)
    ensures RemoveSpace(ToUpperCase(Letters(values), upper)) == Letters(values)
  {
    if values != [] {
      var s := Letters(values);
      AlphabetLetter(values[0]);
      LettersNeedNoCleaning(values[1..], upper);
      assert s[1..] == Letters(values[1..]);
      var up := ToUpperCase(s, upper);
      assert up[0] == s[0] && up[1..] == ToUpperCase(s[1..], upper);
    }
  }

  lemma {:induction false} LastLetter(values: seq<nat>)
    requires Indices(values) && values != []
    ensures Letters(values) != [] && Letters(values)[|Letters(values)| - 1] != '='
  {
    if |values| == 1 {
      AlphabetLetter(values[0]);
      assert Letters(values[1..]) == [];
    } else {
      LastLetter(values[1..]);
    }
  }

  lemma {:induction false} PaddingIsStripped(values: seq<nat>, padding: string)
    requires Indices(values) && forall k | 0 <= k < |padding| :: padding[k] == '='
    ensures StripPadding(Letters(values) + padding) == Letters(values)
  {
    var s := Letters(values) + padding;
    if padding != [] {
      assert s[..|s| - 1] == Letters(values) + padding[..|padding| - 1];
      PaddingIsStripped(values, padding[..|padding| - 1]);
    } else {
      assert s == Letters(values);
      if values != [] {
        LastLetter(values);
      }
    }
  }

  // ----- encoding and decoding -----

  lemma FiveBitsIndex(values: seq<nat>)
    requires Fit(values, 5)
    ensures Indices(values)
  {
    assert Power(5) == 2 * (2 * (2 * (2 * (2 * Power(0)))));
  }

  function Encode(bytes: seq<Byte>): string {
    FiveBitsIndex(Groups(Flatten(bytes, 8), 5));
    Letters(Groups(Flatten(bytes, 8), 5))
  }

  function Decode(input: string, upper: char -> string): Option<seq<nat>> {
    match ReadLetters(Clean(input, upper))
    case None => None
    case Some(values) => Some(Groups(Flatten(values, 5), 8))
  }

  /** The bytes that survive encoding: all of them, or all but the last when the bits do not fill whole letters. */
  function Surviving(bytes: seq<Byte>): seq<Byte> {
    if |bytes| % 5 == 0 then bytes else bytes[..|bytes| - 1]
  }

  lemma AllGroupsKept(values: seq<nat>, w: nat, bits: seq<bool>)
    requires w > 0 && Fit(values, w) && bits == Flatten(values, w)
    ensures Groups(bits, w) == values
  {
    assert bits == bits + [];
    GroupsOfFlatten(values, [], w);
  }

  /** When the last group is cut short, the groups before it are left. */
  lemma FrontGroupsKept(front: seq<nat>, last: nat, w: nat, kept: seq<bool>)
    requires w > 0 && Fit(front, w) && kept <= Flatten(front + [last], w)
    requires |Flatten(front, w)| <= |kept| < |Flatten(front, w)| + w
    ensures Groups(kept, w) == front
  {
    FlattenAppend(front, last, w);
    var rest := kept[|Flatten(front, w)|..];
    assert kept == Flatten(front, w) + rest;
    GroupsOfFlatten(front, rest, w);
  }

  /** Going through letters keeps the bits that fill whole letters. */
  lemma BitsThroughLetters(bits: seq<bool>) returns (kept: seq<bool>)
    ensures kept == Flatten(Groups(bits, 5), 5) && kept <= bits && |kept| == |bits| - |bits| % 5
  {
    FlattenOfGroups(bits, 5);
    WholeFives(|bits|);
    kept := bits[..Whole(|bits|, 5)];
  }

  lemma KeptBits(bytes: seq<Byte>, bits: seq<bool>)
    requires bits == Flatten(bytes, 8)
    ensures Groups(Flatten(Groups(bits, 5), 5), 8) == Surviving(bytes)
  {
    ByteBitsLength(bytes);
    var kept := BitsThroughLetters(bits);
    KeptGroups(bytes, bits, kept);
  }

  lemma FivesInBits(n: nat)
    ensures 8 * n % 5 == 0 <==> n % 5 == 0
  {
    assert 8 * n == 5 * n + 3 * n;
  }

  lemma KeptGroups(bytes: seq<Byte>, bits: seq<bool>, kept: seq<bool>)
    requires bits == Flatten(bytes, 8) && |bits| == 8 * |bytes|
    requires kept <= bits && |kept| == |bits| - |bits| % 5
    ensures Groups(kept, 8) == Surviving(bytes)
  {
    BytesFit(bytes);
    FivesInBits(|bytes|);
    if |bytes| % 5 == 0 {
      assert kept == bits;
      AllGroupsKept(bytes, 8, bits);
    } else {
      var front, last := bytes[..|bytes| - 1], bytes[|bytes| - 1];
      assert bytes == front + [last];
      ByteBitsLength(front);
      FrontGroupsKept(front, last, 8, kept);
    }
  }

  /**
   * Decoding an encoded secret, with or without `=` padding, gives the secret back exactly when its length is a
   * multiple of 5; otherwise the last byte is lost, because the encoder drops the bits that do not fill a letter.
   */
  lemma DecodeOfEncode(bytes: seq<Byte>, padding: string, upper: char -> string)
    requires KeepsCapitals(upper) && forall k | 0 <= k < |padding| :: padding[k] == '='
    ensures Decode(Encode(bytes) + padding, upper) == Some(Surviving(bytes))
    ensures Decode(Encode(bytes) + padding, upper) == Some(bytes) <==> |bytes| % 5 == 0
  {
    var values := Groups(Flatten(bytes, 8), 5);
    FiveBitsIndex(values);
    PaddingIsStripped(values, padding);
    LettersNeedNoCleaning(values, upper);
    ReadLettersOf(values);
    KeptBits(bytes, Flatten(bytes, 8));
  }

  lemma NextGroup(bits: seq<bool>, i: nat, w: nat)
    requires w > 0 && i + w <= |bits|
    ensures Groups(bits[i..], w) == [Value(bits[i..i + w])] + Groups(bits[i + w..], w)
  {
    assert bits[i..][..w] == bits[i..i + w] && bits[i..][w..] == bits[i + w..];
  }

  /** The first loop: the bits of all bytes. */
  method AllBits(bytes: seq<Byte>) returns (bits: seq<bool>)
    ensures bits == Flatten(bytes, 8)
  {
    bits := [];
    for k := 0 to |bytes|
      invariant Flatten(bytes, 8) == bits + Flatten(bytes[k..], 8)
    {
      assert bytes[k..][1..] == bytes[k + 1..];
      bits := bits + Digits(bytes[k], 8);
    }
  }

  /** `generateTotpSecret` on the random bytes it draws. */
  method GenerateSecret(bytes: seq<Byte>) returns (secret: string)
    ensures secret == Encode(bytes)
  {
    var bits := AllBits(bytes);
    secret := WriteLetters(bits);
  }

  /** The second loop: one letter for every five bits. */
  method WriteLetters(bits: seq<bool>) returns (secret: string)
    ensures Indices(Groups(bits, 5)) && secret == Letters(Groups(bits, 5))
  {
    FiveBitsIndex(Groups(bits, 5));
    secret := "";
    ghost var answer := Letters(Groups(bits, 5));
    var i := 0;
    assert bits[0..] == bits;
    while i + 5 <= |bits|
      invariant 0 <= i <= |bits| && Indices(Groups(bits[i..], 5))
      invariant answer == secret + Letters(Groups(bits[i..], 5))
    {
      var group := Value(bits[i..i + 5]);
      NextGroup(bits, i, 5);
      FiveBitsIndex(Groups(bits[i + 5..], 5));
      secret := secret + [ALPHABET[group]];
      i := i + 5;
    }
  }

  /** The first loop of `base32Decode`: the bits of all characters. */
  method ReadBits(clean: string) returns (bits: Option<seq<bool>>)
    ensures bits == if ReadLetters(clean) == None then None else Some(Flatten(ReadLetters(clean).value, 5))
  {
    var read: seq<bool> := [];
    ghost var seen: seq<nat> := [];
    assert clean[0..] == clean;
    StartEmpty(ReadLetters(clean));
    for k := 0 to |clean|
      invariant read == Flatten(seen, 5)
      invariant ReadLetters(clean) == After(seen, ReadLetters(clean[k..]))
    {
      var index := FirstIndex(ALPHABET, clean[k]);
      assert clean[k..][1..] == clean[k + 1..];
      if index == None {
        return None;
      }
      FlattenAppend(seen, index.value, 5);
      AfterAfter(seen, [index.value], ReadLetters(clean[k + 1..]));
      read := read + Digits(index.value, 5);
      seen := seen + [index.value];
    }
    assert seen + [] == seen;
    bits := Some(read);
  }

  lemma StartEmpty(rest: Option<seq<nat>>)
    ensures After([], rest) == rest
  {
    if rest.Some? {
      assert [] + rest.value == rest.value;
    }
  }

  lemma AfterAfter(a: seq<nat>, b: seq<nat>, rest: Option<seq<nat>>)
    ensures After(a, After(b, rest)) == After(a + b, rest)
  {
    if rest.Some? {
      assert a + (b + rest.value) == a + b + rest.value;
    }
  }

  lemma MoveFirst(front: seq<nat>, v: nat, rest: seq<nat>)
    ensures front + ([v] + rest) == (front + [v]) + rest
  {
  }

  /** The second loop of `base32Decode`, for groups of `w` bits. */
  method CutGroups(bits: seq<bool>, w: nat) returns (values: seq<nat>)
    requires w > 0
    ensures values == Groups(bits, w)
  {
    values := [];
    ghost var answer := Groups(bits, w);
    var i := 0;
    assert bits[0..] == bits;
    while i + w <= |bits|
      invariant 0 <= i <= |bits|
      invariant answer == values + Groups(bits[i..], w)
    {
      NextGroup(bits, i, w);
      MoveFirst(values, Value(bits[i..i + w]), Groups(bits[i + w..], w));
      values := values + [Value(bits[i..i + w])];
      i := i + w;
    }
    assert values + [] == values;
  }

  method Base32Decode(input: string, upper: char -> string) returns (bytes: Option<seq<nat>>)
    ensures bytes == Decode(input, upper)
  {
    var bits := ReadBits(Clean(input, upper));
    if bits == None {
      return None;
    }
    var values := CutGroups(bits.value, 8);
    bytes := Some(values);
  }
}
