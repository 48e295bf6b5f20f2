/** Strings of the TypeScript code: sequences of UTF-16 code units. */
module Utf16 {
  type CodeUnit = u: int | 0 <= u < 0x1_0000
  type Text = seq<CodeUnit>

  const LINE_FEED: CodeUnit := 0x0A

  /** The characters of JavaScript's `\s` and `trim`; all of them are single code units. */
  predicate IsSpace(u: int) {
    || 0x09 <= u <= 0x0D || u == 0x20 || u == 0xA0 || u == 0x1680
    || 0x2000 <= u <= 0x200A || u == 0x2028 || u == 0x2029 || u == 0x202F
    || u == 0x205F || u == 0x3000 || u == 0xFEFF
  }

  /** `text[i..j]` is white space only. */
  predicate SpaceBetween(text: Text, i: nat, j: nat)
    requires i <= j <= |text|
  {
    forall k | i <= k < j :: IsSpace(text[k])
  }

  predicate IsHighSurrogate(u: CodeUnit) { 0xD800 <= u <= 0xDBFF }

  predicate IsLowSurrogate(u: CodeUnit) { 0xDC00 <= u <= 0xDFFF }

  /** The code point that the unit at `i` belongs to: a surrogate pair counts as one code point. */
  function CodePointAround(text: Text, i: nat): int
    requires i < |text|
  {
    if IsHighSurrogate(text[i]) && i + 1 < |text| && IsLowSurrogate(text[i + 1]) then
      Combine(text[i], text[i + 1])
    else if IsLowSurrogate(text[i]) && i > 0 && IsHighSurrogate(text[i - 1]) then
      Combine(text[i - 1], text[i])
    else
      text[i]
  }

  function Combine(high: CodeUnit, low: CodeUnit): int {
    0x1_0000 + (high - 0xD800) * 0x400 + (low - 0xDC00)
  }

  /** `needle` occurs in `text` at position `at`. */
  predicate OccursAt(text: Text, needle: Text, at: nat) {
    at + |needle| <= |text| && text[at..at + |needle|] == needle
  }
}
