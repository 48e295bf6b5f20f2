/** Idempotency keys and slots of tasks. */
module IdemKey {
  import opened Common

  predicate IsDigit(c: char) { '0' <= c <= '9' }

  predicate AllDigits(s: string) { forall k | 0 <= k < |s| :: IsDigit(s[k]) }

  function Digit(d: nat): (c: char)
    requires d < 10
    ensures IsDigit(c)
  {
    '0' + d as char
  }

  /** `String(n)` of a natural number. */
  function ToDecimal(n: nat): (s: string)
    ensures s != [] && AllDigits(s)
  {
    if n < 10 then [Digit(n)] else ToDecimal(n / 10) + [Digit(n % 10)]
  }

  /** `Number(s)`: `None` where the value is not a natural number in plain digits. The empty string counts as 0. */
  function FromDecimal(s: string): Option<nat> {
    if s == [] then Some(0)
    else if !IsDigit(s[|s| - 1]) then None
    else
      match FromDecimal(s[..|s| - 1])
      case None => None
      case Some(n) => Some(10 * n + (s[|s| - 1] as int - '0' as int))
  }

  lemma {:induction false} DecimalRoundTrip(n: nat)
    ensures FromDecimal(ToDecimal(n)) == Some(n)
  {
    if n >= 10 {
      DecimalRoundTrip(n / 10);
      assert ToDecimal(n)[..|ToDecimal(n)| - 1] == ToDecimal(n / 10);
    } else {
      assert ToDecimal(n)[..0] == [];
    }
  }

  /** The text before the first colon, and whether there is a colon. */
  function BeforeColon(s: string): (r: string)
    ensures |r| <= |s| && r == s[..|r|] && ':' !in r && (|r| < |s| ==> s[|r|] == ':')
  {
    if s == [] || s[0] == ':' then [] else [s[0]] + BeforeColon(s[1..])
  }

  lemma {:induction false} BeforeColonOf(a: string, rest: string)
    requires ':' !in a
    ensures BeforeColon(a + [':'] + rest) == a
  {
    var s := a + [':'] + rest;
    if a != [] {
      assert a[0] in a && (forall c | c in a[1..] :: c in a);
      assert s[1..] == a[1..] + [':'] + rest;
      BeforeColonOf(a[1..], rest);
    }
  }

  /** Two keys split at their first colon in the same way. */
  lemma ColonSplit(a: string, x: string, b: string, y: string)
    requires ':' !in a && ':' !in b && a + [':'] + x == b + [':'] + y
    ensures a == b && x == y
  {
    BeforeColonOf(a, x);
    BeforeColonOf(b, y);
    assert x == (a + [':'] + x)[|a| + 1..];
    assert y == (b + [':'] + y)[|b| + 1..];
  }

  function SpanSlot(charStart: nat, charEnd: nat): string { ToDecimal(charStart) + [':'] + ToDecimal(charEnd) }

  function OrdinalSlot(n: nat): string { ToDecimal(n) }

  const EMPTY_SLOT: string := ""

  datatype SlotSpan = SlotSpan(charStart: Option<nat>, charEnd: Option<nat>)

  /** `slot.split(':').map(Number)`, first two entries; a missing entry is no number. */
  function ParseSpanSlot(slot: string): SlotSpan {
    var first := BeforeColon(slot);
    SlotSpan(FromDecimal(first), if |first| == |slot| then None else FromDecimal(BeforeColon(slot[|first| + 1..])))
  }

  lemma {:induction false} DigitsHaveNoColon(s: string)
    requires AllDigits(s)
    ensures ':' !in s
  {
    forall k | 0 <= k < |s| ensures s[k] != ':' { assert IsDigit(s[k]); }
  }

  lemma {:induction false} BeforeColonWhole(s: string)
    requires ':' !in s
    ensures BeforeColon(s) == s
  {
    if s != [] {
      assert s[0] in s && (forall c | c in s[1..] :: c in s);
      BeforeColonWhole(s[1..]);
    }
  }

  lemma ParseUndoesSpanSlot(charStart: nat, charEnd: nat)
    ensures ParseSpanSlot(SpanSlot(charStart, charEnd)) == SlotSpan(Some(charStart), Some(charEnd))
  {
    var a, b := ToDecimal(charStart), ToDecimal(charEnd);
    DigitsHaveNoColon(a);
    DigitsHaveNoColon(b);
    BeforeColonOf(a, b);
    BeforeColonWhole(b);
    assert SpanSlot(charStart, charEnd)[|a| + 1..] == b;
    DecimalRoundTrip(charStart);
    DecimalRoundTrip(charEnd);
  }

  datatype TaskType =
    | Review | RegionTag | Confirm | TranslateMsa | TranslateFr | TranslateEn
    | TransliterateToArabic | TransliterateToArabizi | Standardise | Adjudicate | LinkLemma

  function TypeName(t: TaskType): string {
    match t
    case Review => "review"
    case RegionTag => "region_tag"
    case Confirm => "confirm"
    case TranslateMsa => "translate_msa"
    case TranslateFr => "translate_fr"
    case TranslateEn => "translate_en"
    case TransliterateToArabic => "transliterate_to_arabic"
    case TransliterateToArabizi => "transliterate_to_arabizi"
    case Standardise => "standardise"
    case Adjudicate => "adjudicate"
    case LinkLemma => "link_lemma"
  }

  /** Corpus item ids are UUIDs; all that matters here is that they hold no colon. */
  type Id = s: string | ':' !in s

  /** The text that is hashed into a key; SHA-256 is taken as injective, so keys are compared by this text. */
  function KeyText(item: Id, kind: TaskType, version: nat, slot: string): string {
    item + [':'] + (TypeName(kind) + [':'] + (ToDecimal(version) + [':'] + slot))
  }

  lemma TypeNamesDiffer(s: TaskType, t: TaskType)
    requires TypeName(s) == TypeName(t)
    ensures s == t
  {
  }

  lemma TypeNameHasNoColon(t: TaskType)
    ensures ':' !in TypeName(t)
  {
  }

  /** Different task coordinates never share a key. */
  lemma KeyTextInjective(i: Id, s: TaskType, v: nat, x: string, j: Id, t: TaskType, w: nat, y: string)
    requires KeyText(i, s, v, x) == KeyText(j, t, w, y)
    ensures i == j && s == t && v == w && x == y
  {
    TypeNameHasNoColon(s);
    TypeNameHasNoColon(t);
    DigitsHaveNoColon(ToDecimal(v));
    DigitsHaveNoColon(ToDecimal(w));
    ColonSplit(i, TypeName(s) + [':'] + (ToDecimal(v) + [':'] + x),
               j, TypeName(t) + [':'] + (ToDecimal(w) + [':'] + y));
    ColonSplit(TypeName(s), ToDecimal(v) + [':'] + x, TypeName(t), ToDecimal(w) + [':'] + y);
    ColonSplit(ToDecimal(v), x, ToDecimal(w), y);
    TypeNamesDiffer(s, t);
    DecimalRoundTrip(v);
    DecimalRoundTrip(w);
  }
}
