/**
 The bytes that Buffer.byteLength counts: the code points of a text in UTF-8, by section 3 of RFC 3629.
 */
module Utf8 {
  import opened CodeUnits

  /** Two surrogates in order are one code point, and one that stands alone becomes U+FFFD. */
  function CodePoints(t: Text): seq<nat> {
    if t == [] then []
    else if 0xD800 <= t[0] <= 0xDBFF && |t| >= 2 && 0xDC00 <= t[1] <= 0xDFFF then
      [0x1_0000 + 0x400 * (t[0] - 0xD800) + (t[1] - 0xDC00)] + CodePoints(t[2..])
    else if 0xD800 <= t[0] <= 0xDFFF then [0xFFFD] + CodePoints(t[1..])
    else [t[0]] + CodePoints(t[1..])
  }

  /** A first byte with the length in its high bits, then six bits to a byte. */
  function Bytes(c: nat): seq<nat> {
    if c <= 0x7F then [c]
    else if c <= 0x7FF then [0xC0 + c / 0x40, 0x80 + c % 0x40]
    else if c <= 0xFFFF then [0xE0 + c / 0x1000, 0x80 + c / 0x40 % 0x40, 0x80 + c % 0x40]
    else [0xF0 + c / 0x4_0000, 0x80 + c / 0x1000 % 0x40, 0x80 + c / 0x40 % 0x40, 0x80 + c % 0x40]
  }

  function Encode(points: seq<nat>): seq<nat> {
    if points == [] then [] else Bytes(points[0]) + Encode(points[1..])
  }

  /** The size a body is measured by is the number of its UTF-8 bytes. */
  lemma {:induction false} LengthIsTheBytes(t: Text)
    ensures Utf8Length(t) == |Encode(CodePoints(t))|
    decreases |t|
  {
    if t != [] {
      var pair := 0xD800 <= t[0] <= 0xDBFF && |t| >= 2 && 0xDC00 <= t[1] <= 0xDFFF;
      var rest := if pair then t[2..] else t[1..];
      LengthIsTheBytes(rest);
      assert CodePoints(t)[1..] == CodePoints(rest);
      if pair { assert CodePoints(t)[0] > 0xFFFF; }
    }
  }
}
