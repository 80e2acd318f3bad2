/**
 The text model shared by the JSON scanner and the canonical encoders.

 A JavaScript string is a sequence of UTF-16 code units, and it may hold a lone surrogate, which a
 Dafny `char` cannot.  Text is therefore a sequence of numbers below 0x10000.
 */
module CodeUnits {

  type CodeUnit = u: int | 0 <= u < 0x1_0000

  type Text = seq<CodeUnit>

  const QUOTE: CodeUnit := '\"' as int
  const BACKSLASH: CodeUnit := '\\' as int
  const COMMA: CodeUnit := ',' as int
  const COLON: CodeUnit := ':' as int
  const MINUS: CodeUnit := '-' as int
  const PLUS: CodeUnit := '+' as int
  const POINT: CodeUnit := '.' as int
  const ZERO: CodeUnit := '0' as int

  predicate IsAscii(s: string) {
    forall i | 0 <= i < |s| :: s[i] < 128 as char
  }

  /** The code units of an ASCII literal. */
  function Units(s: string): (t: Text)
    requires IsAscii(s)
    ensures |t| == |s| && forall i | 0 <= i < |s| :: t[i] == s[i] as int
  {
    seq(|s|, i requires 0 <= i < |s| => s[i] as int)
  }

  predicate IsSpace(u: CodeUnit) {
    u == 9 || u == 10 || u == 13 || u == 32
  }

  predicate IsDigit(u: CodeUnit) {
    ZERO <= u <= ZERO + 9
  }

  predicate AllSpace(t: Text) {
    forall i | 0 <= i < |t| :: IsSpace(t[i])
  }

  predicate AllDigits(t: Text) {
    forall i | 0 <= i < |t| :: IsDigit(t[i])
  }

  // ----- UTF-8 size -------------------------------------------------------------------------

  predicate IsHigh(u: CodeUnit) { 0xD800 <= u < 0xDC00 }

  predicate IsLow(u: CodeUnit) { 0xDC00 <= u < 0xE000 }

  /** Bytes of the UTF-8 form; a surrogate without its partner is written as U+FFFD (three bytes). */
  function Utf8Length(t: Text): nat {
    if t == [] then 0
    else if t[0] < 0x80 then 1 + Utf8Length(t[1..])
    else if t[0] < 0x800 then 2 + Utf8Length(t[1..])
    else if IsHigh(t[0]) && |t| > 1 && IsLow(t[1]) then 4 + Utf8Length(t[2..])
    else 3 + Utf8Length(t[1..])
  }

  /** No surrogate pair straddles the boundary between a and b. */
  predicate Seam(a: Text, b: Text) {
    a == [] || b == [] || !IsHigh(a[|a| - 1]) || !IsLow(b[0])
  }

  lemma {:induction false} Utf8LengthConcat(a: Text, b: Text)
    requires Seam(a, b)
    ensures Utf8Length(a + b) == Utf8Length(a) + Utf8Length(b)
    decreases |a|
  {
    if a == [] {
      assert a + b == b;
    } else if IsHigh(a[0]) && |a| > 1 && IsLow(a[1]) {
      assert (a + b)[2..] == a[2..] + b;
      Utf8LengthConcat(a[2..], b);
    } else {
      assert (a + b)[1..] == a[1..] + b;
      Utf8LengthConcat(a[1..], b);
    }
  }

  /** A text never has more code units than UTF-8 bytes, so a length test may precede the byte test. */
  lemma {:induction false} LengthAtMostBytes(t: Text)
    ensures |t| <= Utf8Length(t)
    decreases |t|
  {
    if t != [] {
      if IsHigh(t[0]) && |t| > 1 && IsLow(t[1]) {
        LengthAtMostBytes(t[2..]);
      } else {
        LengthAtMostBytes(t[1..]);
      }
    }
  }

  lemma {:induction false} AsciiLength(t: Text)
    requires forall i | 0 <= i < |t| :: t[i] < 0x80
    ensures Utf8Length(t) == |t|
  {
    if t != [] {
      AsciiLength(t[1..]);
    }
  }
}
