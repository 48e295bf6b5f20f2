/** Time-based one-time passwords (RFC 4226 and RFC 6238) over an arbitrary HMAC with 20-byte digests. */
module Totp {
  import opened Common
  import opened Base32
  import IdemKey

  const STEP_MS := 30 * 1000
  const DIGITS := 6
  const MAX_COUNTER := 0x1_0000_0000_0000_0000
  const MAX_DATE := 8_640_000_000_000_000

  type Digest = d: seq<Byte> | |d| == 20 witness seq(20, _ => 0)

  type Hmac = (seq<nat>, seq<nat>) -> Digest

  datatype Result<T> = Ok(value: T) | Thrown

  // ----- section 5.3 of RFC 4226 -----

  /** The `n` low bytes of a number, most significant first. */
  function BigEndian(v: nat, n: nat): seq<nat> {
    if n == 0 then [] else BigEndian(v / 256, n - 1) + [v % 256]
  }

  function Scale(base: nat, n: nat): nat { if n == 0 then 1 else base * Scale(base, n - 1) }

  /** The number that bytes stand for, most significant first. */
  function ReadBytes(bytes: seq<nat>): nat {
    if bytes == [] then 0 else 256 * ReadBytes(bytes[..|bytes| - 1]) + bytes[|bytes| - 1]
  }

  predicate AreBytes(bytes: seq<nat>) { forall k | 0 <= k < |bytes| :: bytes[k] < 256 }

  lemma {:induction false} BigEndianReads(v: nat, n: nat)
    requires v < Scale(256, n)
    ensures var bytes := BigEndian(v, n); |bytes| == n && AreBytes(bytes) && ReadBytes(bytes) == v
  {
    if n > 0 {
      var bytes := BigEndian(v, n);
      BigEndianReads(v / 256, n - 1);
      assert bytes[..|bytes| - 1] == BigEndian(v / 256, n - 1);
    }
  }

  lemma {:induction false} ReadBytesInjective(a: seq<nat>, b: seq<nat>)
    requires AreBytes(a) && AreBytes(b) && |a| == |b| && ReadBytes(a) == ReadBytes(b)
    ensures a == b
  {
    if a != [] {
      var n := |a| - 1;
      assert a[n] < 256 && b[n] < 256;
      ReadBytesInjective(a[..n], b[..n]);
      assert a == a[..n] + [a[n]] && b == b[..n] + [b[n]];
    }
  }

  lemma EightBytes()
    ensures Scale(256, 8) == MAX_COUNTER
  {
    assert Scale(256, 8) == 256 * (256 * (256 * (256 * Scale(256, 4))));
    assert Scale(256, 4) == 256 * (256 * (256 * (256 * Scale(256, 0))));
  }

  /** The buffer is the one that holds the counter in eight bytes, most significant first. */
  lemma BufferHoldsCounter(counter: nat, buffer: seq<nat>)
    requires counter < MAX_COUNTER
    ensures buffer == BigEndian(counter, 8) <==>
            |buffer| == 8 && AreBytes(buffer) && ReadBytes(buffer) == counter
  {
    EightBytes();
    BigEndianReads(counter, 8);
    if |buffer| == 8 && AreBytes(buffer) && ReadBytes(buffer) == counter {
      ReadBytesInjective(buffer, BigEndian(counter, 8));
    }
  }

  /** Dynamic truncation: the four masked and shifted bytes do not overlap, so their bitwise union is their sum. */
  function Truncate(d: Digest): (binary: nat)
    ensures binary < 0x8000_0000
  {
    var offset := d[19] % 16;
    var b0: nat, b1: nat, b2: nat, b3: nat := d[offset] % 128, d[offset + 1], d[offset + 2], d[offset + 3];
    b0 * 0x100_0000 + b1 * 0x1_0000 + b2 * 0x100 + b3
  }

  /** Section 5.3: `n` is the 31-bit number in the four bytes at the offset that the low half of the last byte gives. */
  predicate IsTruncation(d: Digest, n: nat) {
    var o := d[19] % 16;
    && n < 0x8000_0000 && n / 0x100_0000 == d[o] % 128
    && n / 0x1_0000 % 256 == d[o + 1] && n / 0x100 % 256 == d[o + 2] && n % 256 == d[o + 3]
  }

  lemma LastByte(n: nat, m: nat, b: nat)
    requires b < 256
    ensures n == 256 * m + b <==> n / 256 == m && n % 256 == b
  {
  }

  lemma HigherBytes(n: nat)
    ensures n / 0x100 / 0x100 == n / 0x1_0000 && n / 0x1_0000 / 0x100 == n / 0x100_0000
  {
  }

  lemma FourBytes(n: nat, b0: nat, b1: nat, b2: nat, b3: nat)
    requires b0 < 128 && b1 < 256 && b2 < 256 && b3 < 256
    ensures n == b0 * 0x100_0000 + b1 * 0x1_0000 + b2 * 0x100 + b3 <==>
      n / 0x100_0000 == b0 && n / 0x1_0000 % 256 == b1 && n / 0x100 % 256 == b2 && n % 256 == b3
  {
    var high := 256 * b0 + b1;
    HigherBytes(n);
    LastByte(n, 256 * high + b2, b3);
    LastByte(n / 0x100, high, b2);
    LastByte(n / 0x1_0000, b0, b1);
  }

  lemma TruncateIs(d: Digest, n: nat)
    ensures IsTruncation(d, n) <==> n == Truncate(d)
  {
    var o := d[19] % 16;
    FourBytes(n, d[o] % 128, d[o + 1], d[o + 2], d[o + 3]);
  }

  function PadStart(s: string, w: nat): string
    decreases w - |s|
  {
    if |s| >= w then s else PadStart(['0'] + s, w)
  }

  lemma {:induction false} LeadingZero(s: string)
    ensures IdemKey.FromDecimal(['0'] + s) == IdemKey.FromDecimal(s)
  {
    var padded := ['0'] + s;
    if s == [] {
      assert padded[..0] == [];
    } else {
      LeadingZero(s[..|s| - 1]);
      assert padded[..|padded| - 1] == ['0'] + s[..|s| - 1];
    }
  }

  lemma {:induction false} PadStartOf(s: string, w: nat)
    requires |s| <= w && IdemKey.AllDigits(s)
    ensures |PadStart(s, w)| == w && IdemKey.AllDigits(PadStart(s, w))
    ensures IdemKey.FromDecimal(PadStart(s, w)) == IdemKey.FromDecimal(s)
    decreases w - |s|
  {
    if |s| < w {
      LeadingZero(s);
      PadStartOf(['0'] + s, w);
    }
  }

  lemma {:induction false} DecimalLength(n: nat, w: nat)
    requires n < Scale(10, w) && w > 0
    ensures |IdemKey.ToDecimal(n)| <= w
  {
    if n >= 10 {
      assert w > 1 by {
        assert Scale(10, 1) == 10 * Scale(10, 0);
      }
      DecimalLength(n / 10, w - 1);
    }
  }

  /** Where the counter does not fit the buffer, writing it throws. */
  function Hotp(key: seq<nat>, counter: int, hmac: Hmac): Result<string> {
    if !(0 <= counter < MAX_COUNTER) then Thrown
    else Ok(PadStart(IdemKey.ToDecimal(Truncate(hmac(key, BigEndian(counter, 8))) % 1_000_000), DIGITS))
  }

  predicate IsCode(s: string) { |s| == DIGITS && IdemKey.AllDigits(s) }

  /** A code always has six digits, and read as a number it is the truncated digest modulo a million. */
  lemma HotpIsCode(key: seq<nat>, counter: nat, hmac: Hmac)
    requires counter < MAX_COUNTER
    ensures var code := Hotp(key, counter, hmac);
      code.Ok? && IsCode(code.value)
      && IdemKey.FromDecimal(code.value) == Some(Truncate(hmac(key, BigEndian(counter, 8))) % 1_000_000)
  {
    var n := Truncate(hmac(key, BigEndian(counter, 8))) % 1_000_000;
    assert Scale(10, 6) == 10 * (10 * (10 * Scale(10, 3)));
    assert Scale(10, 3) == 10 * (10 * (10 * Scale(10, 0)));
    DecimalLength(n, 6);
    PadStartOf(IdemKey.ToDecimal(n), 6);
    IdemKey.DecimalRoundTrip(n);
  }

  /**
   * The code of the standard: six digits that read as the truncated digest of the counter, in eight bytes, modulo a
   * million. Buffer and truncation exist, and there is only one of each.
   */
  lemma HotpFollowsStandard(key: seq<nat>, counter: nat, hmac: Hmac) returns (buffer: seq<nat>, n: nat)
    requires counter < MAX_COUNTER
    ensures |buffer| == 8 && AreBytes(buffer) && ReadBytes(buffer) == counter
    ensures IsTruncation(hmac(key, buffer), n)
    ensures Hotp(key, counter, hmac).Ok?
    ensures var code := Hotp(key, counter, hmac).value;
      |code| == 6 && IdemKey.AllDigits(code) && IdemKey.FromDecimal(code) == Some(n % 1_000_000)
    ensures forall b: seq<nat> :: |b| == 8 && AreBytes(b) && ReadBytes(b) == counter ==> b == buffer
    ensures forall m: nat :: IsTruncation(hmac(key, buffer), m) ==> m == n
  {
    buffer := BigEndian(counter, 8);
    n := Truncate(hmac(key, buffer));
    BufferHoldsCounter(counter, buffer);
    forall b: seq<nat> | |b| == 8 && AreBytes(b) && ReadBytes(b) == counter ensures b == buffer {
      BufferHoldsCounter(counter, b);
    }
    TruncateIs(hmac(key, buffer), n);
    forall m: nat | IsTruncation(hmac(key, buffer), m) ensures m == n {
      TruncateIs(hmac(key, buffer), m);
    }
    HotpIsCode(key, counter, hmac);
  }

  /** The digest that appendix D of RFC 4226 lists for counter 1 gives the code listed there. */
  lemma AppendixD(key: seq<nat>, counter: nat, hmac: Hmac, buffer: seq<nat>, d: Digest)
    requires counter == 1 && buffer == [0, 0, 0, 0, 0, 0, 0, 1] && hmac(key, buffer) == d
    requires d == [117, 164, 138, 25, 212, 203, 225, 0, 100, 78, 138, 193, 57, 126, 234, 116, 122, 45, 51, 171]
    ensures Hotp(key, counter, hmac).Ok? && IdemKey.FromDecimal(Hotp(key, counter, hmac).value) == Some(287_082)
  {
    var n := TruncatedDigest(d);
    ReadsOne(buffer);
    var b, m := HotpFollowsStandard(key, counter, hmac);
    assert b == buffer && m == n;
  }

  lemma TruncatedDigest(d: Digest) returns (n: nat)
    requires d == [117, 164, 138, 25, 212, 203, 225, 0, 100, 78, 138, 193, 57, 126, 234, 116, 122, 45, 51, 171]
    ensures IsTruncation(d, n) && n % 1_000_000 == 287_082
  {
    n := 0x4139_7EEA;
    assert d[19] % 16 == 11 && d[11] == 193 && d[12] == 57 && d[13] == 126 && d[14] == 234;
  }

  lemma {:induction false} ReadZeros(bytes: seq<nat>)
    requires forall k | 0 <= k < |bytes| :: bytes[k] == 0
    ensures ReadBytes(bytes) == 0
  {
    if bytes != [] {
      ReadZeros(bytes[..|bytes| - 1]);
    }
  }

  lemma ReadsOne(buffer: seq<nat>)
    requires buffer == [0, 0, 0, 0, 0, 0, 0, 1]
    ensures ReadBytes(buffer) == 1 && AreBytes(buffer)
  {
    ReadZeros(buffer[..7]);
  }

  // ----- sections 4.2 and 5.2 of RFC 6238 -----

  /** `Math.floor(at / 1000 / 30)`. */
  function Counter(at: int): int { at / STEP_MS }

  /** The number of whole half minutes since the epoch. */
  lemma CounterCountsHalfMinutes(at: int, c: int)
    ensures Counter(at) == c <==> 30_000 * c <= at < 30_000 * (c + 1)
  {
  }

  function Generate(secret: string, at: int, hmac: Hmac, upper: char -> string): Result<string> {
    match Decode(secret, upper)
    case None => Thrown
    case Some(key) => Hotp(key, Counter(at), hmac)
  }

  /** The steps `error` to `window`, in order: the first step that throws or matches decides. */
  function Search(key: seq<nat>, counter: int, error: int, window: int, token: string, hmac: Hmac): Result<bool>
    decreases window - error
  {
    if error > window then Ok(false)
    else
      match Hotp(key, counter + error, hmac)
      case Thrown => Thrown
      case Ok(candidate) =>
        if candidate == token then Ok(true) else Search(key, counter, error + 1, window, token, hmac)
  }

  function Verify(secret: string, token: string, at: int, window: int, hmac: Hmac, upper: char -> string)
    : Result<bool>
  {
    VerifyDecoded(Decode(secret, upper), RemoveSpace(token), Counter(at), window, hmac)
  }

  /** The format check comes first, so a malformed token is refused even where the secret does not decode. */
  function VerifyDecoded(key: Option<seq<nat>>, normalized: string, counter: int, window: int, hmac: Hmac)
    : Result<bool>
  {
    if !IsCode(normalized) then Ok(false)
    else
      match key
      case None => Thrown
      case Some(k) => Search(k, counter, -window, window, normalized, hmac)
  }

  predicate CodeAt(key: seq<nat>, counter: int, token: string, hmac: Hmac) {
    Hotp(key, counter, hmac) == Ok(token)
  }

  /** `token` is the code of a step from `low` to `high`. */
  ghost predicate CodeBetween(key: seq<nat>, low: int, high: int, token: string, hmac: Hmac) {
    exists c :: low <= c <= high && CodeAt(key, c, token, hmac)
  }

  lemma {:induction false} SearchFinds(key: seq<nat>, counter: int, error: int, window: int, token: string, hmac: Hmac)
    requires counter + error >= 0 && counter + window < MAX_COUNTER
    ensures Search(key, counter, error, window, token, hmac) ==
            Ok(CodeBetween(key, counter + error, counter + window, token, hmac))
    decreases window - error
  {
    if error <= window {
      var first := counter + error;
      assert CodeAt(key, first, token, hmac) <==> Hotp(key, first, hmac) == Ok(token);
      SearchFinds(key, counter, error + 1, window, token, hmac);
      FirstOrLater(key, first, counter + window, token, hmac);
    }
  }

  lemma FirstOrLater(key: seq<nat>, low: int, high: int, token: string, hmac: Hmac)
    requires low <= high
    ensures CodeBetween(key, low, high, token, hmac) <==>
            CodeAt(key, low, token, hmac) || CodeBetween(key, low + 1, high, token, hmac)
  {
  }

  lemma OnlyCodesAreBetween(key: seq<nat>, low: int, high: int, token: string, hmac: Hmac)
    requires CodeBetween(key, low, high, token, hmac)
    ensures IsCode(token)
  {
    var c :| low <= c <= high && CodeAt(key, c, token, hmac);
    HotpIsCode(key, c, hmac);
  }

  /**
   * Once the step counter has reached the window, a token is accepted exactly when, white space aside, it is the
   * code of one of the `2 * window + 1` steps around the current one.
   */
  lemma VerifyAccepts(secret: string, token: string, at: int, window: int, hmac: Hmac, upper: char -> string)
    requires Decode(secret, upper).Some? && window <= Counter(at) && Counter(at) + window < MAX_COUNTER
    ensures var key, now := Decode(secret, upper).value, Counter(at);
      Verify(secret, token, at, window, hmac, upper) ==
      Ok(CodeBetween(key, now - window, now + window, RemoveSpace(token), hmac))
  {
    DecodedAccepts(Decode(secret, upper).value, RemoveSpace(token), Counter(at), window, hmac);
  }

  lemma DecodedAccepts(key: seq<nat>, normalized: string, now: int, window: int, hmac: Hmac)
    requires window <= now && now + window < MAX_COUNTER
    ensures VerifyDecoded(Some(key), normalized, now, window, hmac) ==
            Ok(CodeBetween(key, now - window, now + window, normalized, hmac))
  {
    if IsCode(normalized) {
      SearchFinds(key, now, -window, window, normalized, hmac);
      assert now + -window == now - window;
    } else if CodeBetween(key, now - window, now + window, normalized, hmac) {
      OnlyCodesAreBetween(key, now - window, now + window, normalized, hmac);
    }
  }

  lemma {:induction false} DigitsAreNotSpace(s: string)
    requires IdemKey.AllDigits(s)
    ensures RemoveSpace(s) == s
  {
    if s != [] {
      assert IdemKey.IsDigit(s[0]);
      DigitsAreNotSpace(s[1..]);
    }
  }

  lemma StepsApart(t: int, u: int, window: nat)
    requires t - u <= STEP_MS * window
    ensures Counter(t) - Counter(u) <= window
  {
  }

  /**
   * A code generated at `t` verifies at every `u` within `window` steps of 30 seconds. The one exception is early
   * in the epoch: when the step counter at `u` is still below the window, verification throws instead.
   */
  lemma GeneratedCodeVerifies(secret: string, t: nat, u: nat, window: nat, hmac: Hmac, upper: char -> string)
    requires t <= MAX_DATE && u <= MAX_DATE && Decode(secret, upper).Some?
    requires -(STEP_MS * window) <= t - u <= STEP_MS * window && window <= MAX_DATE
    ensures var code := Generate(secret, t, hmac, upper);
      code.Ok? && Verify(secret, code.value, u, window, hmac, upper) ==
        if Counter(u) >= window then Ok(true) else Thrown
  {
    CodeOfKeyVerifies(Decode(secret, upper).value, t, u, window, hmac);
  }

  lemma CodeOfKeyVerifies(key: seq<nat>, t: nat, u: nat, window: nat, hmac: Hmac)
    requires t <= MAX_DATE && u <= MAX_DATE && window <= MAX_DATE
    requires -(STEP_MS * window) <= t - u <= STEP_MS * window
    ensures var code := Hotp(key, Counter(t), hmac);
      code.Ok? && VerifyDecoded(Some(key), RemoveSpace(code.value), Counter(u), window, hmac) ==
                  if Counter(u) >= window then Ok(true) else Thrown
  {
    HotpIsCode(key, Counter(t), hmac);
    var code := Hotp(key, Counter(t), hmac).value;
    DigitsAreNotSpace(code);
    if Counter(u) >= window {
      GeneratedIsNear(key, t, u, window, code, hmac);
      DecodedAccepts(key, code, Counter(u), window, hmac);
    } else {
      EarlySearchThrows(key, Counter(u), window, code, hmac);
    }
  }

  lemma GeneratedIsNear(key: seq<nat>, t: nat, u: nat, window: nat, code: string, hmac: Hmac)
    requires Hotp(key, Counter(t), hmac) == Ok(code) && -(STEP_MS * window) <= t - u <= STEP_MS * window
    ensures CodeBetween(key, Counter(u) - window, Counter(u) + window, code, hmac)
  {
    StepsApart(t, u, window);
    StepsApart(u, t, window);
    assert CodeAt(key, Counter(t), code, hmac);
  }

  lemma EarlySearchThrows(key: seq<nat>, counter: nat, window: int, token: string, hmac: Hmac)
    requires counter < window
    ensures Search(key, counter, -window, window, token, hmac) == Thrown
  {
    assert Hotp(key, counter + -window, hmac) == Thrown;
  }

  /** With a secret made by the generator the decoded key exists, so codes can always be generated. */
  lemma GeneratedSecretMakesCodes(bytes: seq<Byte>, t: nat, u: nat, hmac: Hmac, upper: char -> string)
    requires KeepsCapitals(upper) && STEP_MS <= u <= MAX_DATE && t <= MAX_DATE && -STEP_MS <= t - u <= STEP_MS
    ensures var code := Generate(Encode(bytes), t, hmac, upper);
      code == Hotp(Surviving(bytes), Counter(t), hmac)
      && code.Ok? && Verify(Encode(bytes), code.value, u, 1, hmac, upper) == Ok(true)
  {
    DecodeOfEncode(bytes, [], upper);
    assert Encode(bytes) + [] == Encode(bytes);
    GeneratedCodeVerifies(Encode(bytes), t, u, 1, hmac, upper);
  }

  lemma SearchStep(key: seq<nat>, counter: int, error: int, window: int, token: string, hmac: Hmac,
                   candidate: Result<string>)
    requires error <= window && candidate == Hotp(key, counter + error, hmac)
    ensures Search(key, counter, error, window, token, hmac) ==
            if candidate == Thrown then Thrown
            else if candidate == Ok(token) then Ok(true)
            else Search(key, counter, error + 1, window, token, hmac)
  {
  }

  /** The loop of `verifyTotp`. */
  method SearchSteps(key: seq<nat>, counter: int, window: int, token: string, hmac: Hmac) returns (found: Result<bool>)
    ensures found == Search(key, counter, -window, window, token, hmac)
  {
    ghost var answer := Search(key, counter, -window, window, token, hmac);
    var error := -window;
    while error <= window
      invariant answer == Search(key, counter, error, window, token, hmac)
    {
      var candidate := Hotp(key, counter + error, hmac);
      SearchStep(key, counter, error, window, token, hmac, candidate);
      if candidate == Thrown {
        return Thrown;
      }
      if candidate.value == token {
        return Ok(true);
      }
      error := error + 1;
    }
    found := Ok(false);
  }

  method VerifyTotp(secret: string, token: string, at: int, window: int, hmac: Hmac, upper: char -> string)
    returns (accepted: Result<bool>)
    ensures accepted == Verify(secret, token, at, window, hmac, upper)
  {
    var normalized := RemoveSpace(token);
    if !IsCode(normalized) {
      return Ok(false);
    }
    var key := Base32Decode(secret, upper);
    if key == None {
      return Thrown;
    }
    accepted := SearchSteps(key.value, Counter(at), window, normalized, hmac);
  }
}
