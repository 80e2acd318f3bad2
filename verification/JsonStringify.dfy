/**
 JSON.stringify on strings, and the round trip it completes with JSON.parse.
 */
module JsonStringify {
  import opened CodeUnits
  import opened JsonGrammar
  import opened JsonReader
  import opened Options

  /** A lower-case hexadecimal digit. */
  function HexDigit(v: CodeUnit): (u: CodeUnit)
    requires v < 16
    ensures IsHexDigit(u) && HexValue(u) == v
  {
    if v < 10 then ZERO + v else 'a' as int + (v - 10)
  }

  function HexPiece(u: CodeUnit): (p: Piece)
    ensures WfPiece(p) && PieceValue(p) == u
  {
    var a := u / 16;
    var b := a / 16;
    Hex(HexDigit(b / 16), HexDigit(b % 16), HexDigit(a % 16), HexDigit(u % 16))
  }

  /** How one code unit that is not half of a surrogate pair is written. */
  function EscapeUnit(u: CodeUnit): (p: Piece)
    ensures WfPiece(p) && PieceValue(p) == u
  {
    if u == QUOTE || u == BACKSLASH then Short(u)
    else if u == 8 then Short('b' as int)
    else if u == 9 then Short('t' as int)
    else if u == 10 then Short('n' as int)
    else if u == 12 then Short('f' as int)
    else if u == 13 then Short('r' as int)
    else if u < 0x20 || IsHigh(u) || IsLow(u) then HexPiece(u)
    else Plain(u)
  }

  function EscapePieces(t: Text): seq<Piece> {
    if t == [] then []
    else if IsHigh(t[0]) && |t| > 1 && IsLow(t[1]) then
      [Plain(t[0]), Plain(t[1])] + EscapePieces(t[2..])
    else [EscapeUnit(t[0])] + EscapePieces(t[1..])
  }

  function Stringify(t: Text): Text {
    PrintString(EscapePieces(t))
  }

  lemma DecodePair(u: CodeUnit, w: CodeUnit)
    requires IsHigh(u) && IsLow(w)
    ensures WfPieces([Plain(u), Plain(w)]) && Decode([Plain(u), Plain(w)]) == [u, w]
  {
  }

  lemma DecodeUnit(u: CodeUnit)
    ensures WfPieces([EscapeUnit(u)]) && Decode([EscapeUnit(u)]) == [u]
  {
  }

  lemma DecodeNothing()
    ensures WfPieces([]) && Decode([]) == []
  {
  }

  lemma DecodeConcat(ps: seq<Piece>, qs: seq<Piece>)
    requires WfPieces(ps) && WfPieces(qs)
    ensures WfPieces(ps + qs) && Decode(ps + qs) == Decode(ps) + Decode(qs)
  {
  }

  lemma {:induction false} EscapeDecodes(t: Text)
    ensures WfPieces(EscapePieces(t)) && Decode(EscapePieces(t)) == t
    decreases |t|
  {
    hide EscapeUnit, PieceValue, WfPieces, Decode;
    DecodeNothing();
    if t != [] {
      if IsHigh(t[0]) && |t| > 1 && IsLow(t[1]) {
        EscapeDecodes(t[2..]);
        DecodePair(t[0], t[1]);
        DecodeConcat([Plain(t[0]), Plain(t[1])], EscapePieces(t[2..]));
        assert t == [t[0], t[1]] + t[2..];
      } else {
        EscapeDecodes(t[1..]);
        DecodeUnit(t[0]);
        DecodeConcat([EscapeUnit(t[0])], EscapePieces(t[1..]));
        assert t == [t[0]] + t[1..];
      }
    }
  }

  /** JSON.parse(JSON.stringify(s)) is s, for every string, lone surrogates included. */
  lemma StringifyRoundTrip(t: Text, rest: Text)
    ensures WfPieces(EscapePieces(t))
    ensures ReadString(Stringify(t) + rest) == Some(StringReading(EscapePieces(t), rest))
    ensures Decode(EscapePieces(t)) == t
  {
    EscapeDecodes(t);
    ReadStringOf(EscapePieces(t), rest);
  }

  /** Printable ASCII without quote and backslash needs no escape. */
  predicate NeedsNoEscape(t: Text) {
    forall i | 0 <= i < |t| :: 0x20 <= t[i] < 0x7F && t[i] != QUOTE && t[i] != BACKSLASH
  }

  function PlainPieces(t: Text): (ps: seq<Piece>)
    ensures |ps| == |t| && forall i | 0 <= i < |t| :: ps[i] == Plain(t[i])
  {
    seq(|t|, i requires 0 <= i < |t| => Plain(t[i]))
  }

  lemma {:induction false} PlainEscapes(t: Text)
    requires NeedsNoEscape(t)
    ensures EscapePieces(t) == PlainPieces(t)
  {
    if t != [] {
      PlainEscapes(t[1..]);
      assert !IsHigh(t[0]) && EscapeUnit(t[0]) == Plain(t[0]);
      assert PlainPieces(t) == [Plain(t[0])] + PlainPieces(t[1..]);
    }
  }

  lemma {:induction false} PlainPrints(t: Text)
    ensures PrintPieces(PlainPieces(t)) == t
  {
    if t != [] {
      PlainPrints(t[1..]);
      assert PlainPieces(t)[1..] == PlainPieces(t[1..]);
      assert t == [t[0]] + t[1..];
    }
  }

  lemma PlainText(t: Text)
    requires NeedsNoEscape(t)
    ensures EscapePieces(t) == PlainPieces(t) && PrintPieces(PlainPieces(t)) == t
    ensures WfPieces(PlainPieces(t)) && Decode(PlainPieces(t)) == t
  {
    PlainEscapes(t);
    PlainPrints(t);
  }
}
