/** Unsigned 32-bit words, the JavaScript number operators on them, and the mixing step of the shingle hash. */
module Word32 {
  const MODULUS := 0x1_0000_0000
  const MULTIPLIER := 2654435761
  const INVERSE := 244002641

  type Word = w: int | 0 <= w < MODULUS

  /** Bitwise exclusive or. */
  function Xor(a: nat, b: nat): nat {
    if a == 0 && b == 0 then 0 else (a + b) % 2 + 2 * Xor(a / 2, b / 2)
  }

  /** Logical shift to the right by `k` bits. */
  function Shr(a: nat, k: nat): nat {
    if k == 0 then a else Shr(a / 2, k - 1)
  }

  function Pow2(n: nat): nat {
    if n == 0 then 1 else 2 * Pow2(n - 1)
  }

  lemma {:induction false} Pow2Sum(m: nat, n: nat)
    ensures Pow2(m + n) == Pow2(m) * Pow2(n)
  {
    if m > 0 {
      Pow2Sum(m - 1, n);
      TwiceProduct(Pow2(m - 1), Pow2(n));
    }
  }

  lemma TwiceProduct(a: nat, b: nat)
    ensures (2 * a) * b == 2 * (a * b)
  {
  }

  lemma Pow2Values()
    ensures Pow2(15) == 0x8000 && Pow2(32) == MODULUS
  {
    assert Pow2(2) == 2 * Pow2(1) == 4;
    Pow2Sum(2, 2);
    Pow2Sum(4, 4);
    Pow2Sum(8, 8);
    Pow2Sum(16, 16);
    assert Pow2(16) == 2 * Pow2(15);
  }

  lemma {:induction false} XorBelow(a: nat, b: nat, n: nat)
    requires a < Pow2(n) && b < Pow2(n)
    ensures Xor(a, b) < Pow2(n)
  {
    if n > 0 {
      XorBelow(a / 2, b / 2, n - 1);
    }
  }

  function XorWords(a: Word, b: Word): Word {
    Pow2Values();
    XorBelow(a, b, 32);
    Xor(a, b)
  }

  lemma XorStep(a: nat, b: nat)
    ensures Xor(a, b) / 2 == Xor(a / 2, b / 2) && Xor(a, b) % 2 == (a + b) % 2
  {
  }

  lemma {:induction false} XorUndo(a: nat, b: nat)
    ensures Xor(Xor(a, b), b) == a
  {
    if a != 0 || b != 0 {
      var x := Xor(a, b);
      XorStep(a, b);
      XorStep(x, b);
      XorUndo(a / 2, b / 2);
      ParityUndo(a, b, x);
      HalvesDecide(Xor(x, b), a);
    }
  }

  lemma HalvesDecide(x: nat, y: nat)
    requires x / 2 == y / 2 && x % 2 == y % 2
    ensures x == y
  {
  }

  lemma ParityUndo(a: nat, b: nat, x: nat)
    requires x % 2 == (a + b) % 2
    ensures (x + b) % 2 == a % 2
  {
  }

  lemma {:induction false} XorSymmetric(a: nat, b: nat)
    ensures Xor(a, b) == Xor(b, a)
  {
    if a != 0 || b != 0 {
      XorSymmetric(a / 2, b / 2);
    }
  }

  lemma {:induction false} ShrXor(a: nat, b: nat, k: nat)
    ensures Shr(Xor(a, b), k) == Xor(Shr(a, k), Shr(b, k))
  {
    if k > 0 {
      XorStep(a, b);
      ShrXor(a / 2, b / 2, k - 1);
    }
  }

  lemma {:induction false} ShrBelow(a: nat, k: nat, limit: nat)
    requires a < limit * Pow2(k)
    ensures Shr(a, k) < limit
  {
    if k > 0 {
      assert limit * (2 * Pow2(k - 1)) == 2 * (limit * Pow2(k - 1));
      ShrBelow(a / 2, k - 1, limit);
    }
  }

  function ShrWord(a: Word, k: nat): Word {
    ShrAtMost(a, k);
    Shr(a, k)
  }

  lemma {:induction false} ShrAtMost(a: nat, k: nat)
    ensures Shr(a, k) <= a
  {
    if k > 0 {
      ShrAtMost(a / 2, k - 1);
    }
  }

  /** Rust's `wrapping_mul`. */
  function WrappingMul(a: Word, b: Word): Word { (a * b) % MODULUS }

  /** One character of `hash32`. */
  function Mix(hash: Word, unit: Word): Word {
    var product := WrappingMul(XorWords(hash, unit), MULTIPLIER);
    XorWords(product, ShrWord(product, 15))
  }

  lemma MultiplierUndo(x: Word)
    ensures WrappingMul(WrappingMul(x, MULTIPLIER), INVERSE) == x
  {
    var product := x * MULTIPLIER;
    var k, w := product / MODULUS, product % MODULUS;
    assert MULTIPLIER * INVERSE == 150801925 * MODULUS + 1;
    assert w * INVERSE == x + MODULUS * (150801925 * x - k * INVERSE);
    RestOf(x, 150801925 * x - k * INVERSE);
  }

  lemma RestOf(x: Word, q: int)
    ensures (x + MODULUS * q) % MODULUS == x
  {
  }

  lemma ShiftsVanish(x: Word)
    ensures Shr(Shr(Shr(x, 15), 15), 15) == 0
  {
    Pow2Values();
    ShrBelow(x, 15, 0x2_0000);
    ShrBelow(Shr(x, 15), 15, 4);
    ShrBelow(Shr(Shr(x, 15), 15), 15, 1);
  }

  /** `x ^ (x >> 15)` can be undone: the top bits are intact and give back the rest. */
  lemma XorShiftUndo(x: Word)
    ensures var z := Xor(x, Shr(x, 15));
      Xor(z, Xor(Shr(z, 15), Shr(Shr(z, 15), 15))) == x
  {
    var s := Shr(x, 15);
    var t := Shr(s, 15);
    ShiftsVanish(x);
    ShrXor(x, s, 15);
    ShrXor(s, t, 15);
    XorWithZero(t);
    XorUndo(s, t);
    XorUndo(x, s);
  }

  lemma {:induction false} XorWithZero(a: nat)
    ensures Xor(a, 0) == a
  {
    if a != 0 {
      XorWithZero(a / 2);
    }
  }

  /** Each mixing step is a bijection of the hash state. */
  lemma MixInjectiveInHash(g: Word, h: Word, unit: Word)
    requires Mix(g, unit) == Mix(h, unit)
    ensures g == h
  {
    var p, q := WrappingMul(XorWords(g, unit), MULTIPLIER), WrappingMul(XorWords(h, unit), MULTIPLIER);
    XorShiftUndo(p);
    XorShiftUndo(q);
    MultiplierUndo(XorWords(g, unit));
    MultiplierUndo(XorWords(h, unit));
    XorUndo(g, unit);
    XorUndo(h, unit);
  }

  /** For a fixed hash state, different characters mix to different states. */
  lemma MixInjectiveInUnit(hash: Word, c: Word, d: Word)
    requires Mix(hash, c) == Mix(hash, d)
    ensures c == d
  {
    XorSymmetric(hash, c);
    XorSymmetric(hash, d);
    MixSwap(hash, c);
    MixSwap(hash, d);
    MixInjectiveInHash(c, d, hash);
  }

  lemma MixSwap(hash: Word, unit: Word)
    ensures Mix(hash, unit) == Mix(unit, hash)
  {
    XorSymmetric(hash, unit);
  }

  // ----- JavaScript numbers -----

  function ToUint32(x: int): Word { x % MODULUS }

  function ToInt32(x: int): int { if x % MODULUS >= 0x8000_0000 then x % MODULUS - MODULUS else x % MODULUS }

  /** `a ^ b`: signed result. */
  function JsXor(a: int, b: int): int { ToInt32(XorWords(ToUint32(a), ToUint32(b))) }

  /** `Math.imul(a, b)`: signed result. */
  function JsImul(a: int, b: int): int { ToInt32(ToUint32(a) * ToUint32(b)) }

  /** `a >>> k`: unsigned result. */
  function JsShr(a: int, k: nat): int { ShrWord(ToUint32(a), k) }

  lemma Int32KeepsBits(x: int)
    ensures ToUint32(ToInt32(x)) == ToUint32(x)
  {
  }

  lemma JsXorBits(a: int, b: Word)
    ensures ToUint32(JsXor(a, b)) == XorWords(ToUint32(a), b)
  {
    Int32KeepsBits(XorWords(ToUint32(a), b));
  }

  lemma JsImulBits(a: int, b: Word)
    ensures ToUint32(JsImul(a, b)) == WrappingMul(ToUint32(a), b)
  {
    Int32KeepsBits(ToUint32(a) * b);
  }

  /** The unsigned shift sees only the bits. */
  lemma JsShiftXorBits(x: int, w: Word)
    requires ToUint32(x) == w
    ensures ToUint32(JsXor(x, JsShr(x, 15))) == XorWords(w, ShrWord(w, 15))
  {
    JsXorBits(x, JsShr(x, 15));
  }

  /** `hash = Math.imul(hash ^ unit, MULTIPLIER)` followed by `hash ^= hash >>> 15`. */
  function JsMix(hash: int, unit: Word): int {
    var product := JsImul(JsXor(hash, unit), MULTIPLIER);
    JsXor(product, JsShr(product, 15))
  }

  /** The signed step of the TypeScript hash has the bits of the unsigned step. */
  lemma JsMixIsMix(hash: int, unit: Word)
    ensures ToUint32(JsMix(hash, unit)) == Mix(ToUint32(hash), unit)
  {
    var mixed, bits := JsXor(hash, unit), XorWords(ToUint32(hash), unit);
    assert ToUint32(mixed) == bits by { JsXorBits(hash, unit); }
    var product, word := JsImul(mixed, MULTIPLIER), WrappingMul(bits, MULTIPLIER);
    assert ToUint32(product) == word by { JsImulBits(mixed, MULTIPLIER); }
    assert ToUint32(JsXor(product, JsShr(product, 15))) == XorWords(word, ShrWord(word, 15)) by {
      JsShiftXorBits(product, word);
    }
  }

  // ----- bit by bit -----

  /** Binary place `k` of a number. */
  predicate Bit(a: nat, k: nat) { if k == 0 then a % 2 == 1 else Bit(a / 2, k - 1) }

  lemma {:induction false} XorBit(a: nat, b: nat, k: nat)
    ensures Bit(Xor(a, b), k) <==> (Bit(a, k) != Bit(b, k))
  {
    XorStep(a, b);
    if k > 0 {
      XorBit(a / 2, b / 2, k - 1);
    } else {
      ParityOfSum(a, b);
    }
  }

  lemma ParityOfSum(a: nat, b: nat)
    ensures (a + b) % 2 == 1 <==> (a % 2 == 1) != (b % 2 == 1)
  {
  }

  lemma {:induction false} ShrBit(a: nat, n: nat, k: nat)
    ensures Bit(Shr(a, n), k) <==> Bit(a, n + k)
  {
    if n > 0 {
      ShrBit(a / 2, n - 1, k);
    }
  }

  /** The places of `x` are those in which exactly one of the two numbers has a 1. */
  ghost predicate DifferingBits(x: nat, a: nat, b: nat) {
    forall k: nat :: Bit(x, k) <==> (Bit(a, k) != Bit(b, k))
  }

  lemma {:induction false} SameBits(x: nat, y: nat)
    requires forall k: nat :: Bit(x, k) <==> Bit(y, k)
    ensures x == y
    decreases x + y
  {
    if x != 0 || y != 0 {
      forall k: nat ensures Bit(x / 2, k) <==> Bit(y / 2, k) {
        assert Bit(x, k + 1) <==> Bit(y, k + 1);
      }
      SameBits(x / 2, y / 2);
      assert Bit(x, 0) <==> Bit(y, 0);
      HalvesDecide(x, y);
    }
  }

  /**
   * One step of the hash: the places in which state and character differ, times the multiplier in 32 bits, and then
   * each place of the product is flipped if the place fifteen above it is a 1.
   */
  lemma MixBits(hash: Word, unit: Word, x: Word, product: Word, k: nat)
    requires DifferingBits(x, hash, unit) && product == (x * 2654435761) % 0x1_0000_0000
    ensures Bit(Mix(hash, unit), k) <==> (Bit(product, k) != Bit(product, k + 15))
  {
    var y := XorWords(hash, unit);
    forall k: nat ensures Bit(x, k) <==> Bit(y, k) {
      XorBit(hash, unit, k);
    }
    SameBits(x, y);
    XorBit(product, ShrWord(product, 15), k);
    ShrBit(product, 15, k);
  }
}
