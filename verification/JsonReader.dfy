/**
 The scanner of the registrar client as functions on the text that is still to be read.

 `Bounded` is the scanner itself; `Standard` is the JSON.parse it hands its result to, which has no
 bounds of its own.  The lemmas tie both to the grammar: reading succeeds exactly on the texts the
 grammar generates, within the bounds, and gives back the one document that prints to the text.
 */
module JsonReader {
  import opened CodeUnits
  import opened JsonGrammar
  import opened Options

  datatype Mode = Standard | Bounded(nodes: nat)

  const MAX_DEPTH: nat := 16

  // ----- sequences ----------------------------------------------------------------------------

  lemma Assoc<T>(a: seq<T>, b: seq<T>, c: seq<T>)
    ensures a + b + c == a + (b + c)
  {
  }

  lemma Cut<T>(a: seq<T>, b: seq<T>)
    ensures (a + b)[|a|..] == b && (a + b)[..|a|] == a
  {
  }

  lemma Uncut<T>(a: seq<T>, t: seq<T>)
    requires |a| <= |t| && a == t[..|a|]
    ensures t == a + t[|a|..]
  {
  }

  lemma Assoc4<T>(a: seq<T>, b: seq<T>, c: seq<T>, d: seq<T>, e: seq<T>)
    ensures a + (b + (c + d)) + e == a + (b + (c + (d + e)))
  {
    Assoc(a, b + (c + d), e);
    Assoc(b, c + d, e);
    Assoc(c, d, e);
  }

  // ----- white space --------------------------------------------------------------------------

  function SkipSpace(t: Text): (rest: Text)
    ensures |rest| <= |t|
  {
    if t != [] && IsSpace(t[0]) then SkipSpace(t[1..]) else t
  }

  function TakeSpace(t: Text): Text {
    t[..|t| - |SkipSpace(t)|]
  }

  /** t does not start with white space. */
  predicate Flush(t: Text) {
    t == [] || !IsSpace(t[0])
  }

  lemma {:induction false} SkipSpaceSplits(t: Text)
    ensures t == TakeSpace(t) + SkipSpace(t)
    ensures AllSpace(TakeSpace(t)) && Flush(SkipSpace(t))
    ensures Flush(t) ==> SkipSpace(t) == t && TakeSpace(t) == []
  {
    if t != [] && IsSpace(t[0]) {
      SkipSpaceSplits(t[1..]);
      assert TakeSpace(t) == [t[0]] + TakeSpace(t[1..]);
    }
  }

  lemma {:induction false} SkipSpaceOf(space: Text, t: Text)
    requires AllSpace(space) && Flush(t)
    ensures SkipSpace(space + t) == t && TakeSpace(space + t) == space
  {
    if space == [] {
      assert space + t == t;
    } else {
      assert (space + t)[1..] == space[1..] + t;
      SkipSpaceOf(space[1..], t);
    }
  }

  // ----- strings ------------------------------------------------------------------------------

  /** The index just after the closing quote, looking from index i of a literal; a backslash skips one unit. */
  function StringEnd(t: Text, i: nat): (end: Option<nat>)
    ensures end.Some? ==> i < end.value <= |t| && t[end.value - 1] == QUOTE
    decreases |t| - i
  {
    if i >= |t| then None
    else if t[i] == BACKSLASH then StringEnd(t, i + 2)
    else if t[i] == QUOTE then Some(i + 1)
    else StringEnd(t, i + 1)
  }

  /** JSON.parse on the inside of a literal. */
  function ReadPieces(t: Text): (r: Option<seq<Piece>>)
    ensures r.Some? ==> WfPieces(r.value) && PrintPieces(r.value) == t
  {
    if t == [] then Some([])
    else if t[0] == BACKSLASH then
      if |t| < 2 then None
      else if IsShortEscape(t[1]) then
        match ReadPieces(t[2..])
        case None => None
        case Some(ps) =>
          assert t == PrintPiece(Short(t[1])) + t[2..];
          Some([Short(t[1])] + ps)
      else if t[1] == 'u' as int && |t| >= 6
              && IsHexDigit(t[2]) && IsHexDigit(t[3]) && IsHexDigit(t[4]) && IsHexDigit(t[5]) then
        match ReadPieces(t[6..])
        case None => None
        case Some(ps) =>
          assert t == PrintPiece(Hex(t[2], t[3], t[4], t[5])) + t[6..];
          Some([Hex(t[2], t[3], t[4], t[5])] + ps)
      else None
    else if t[0] < 0x20 || t[0] == QUOTE then None
    else
      match ReadPieces(t[1..])
      case None => None
      case Some(ps) =>
        assert t == PrintPiece(Plain(t[0])) + t[1..];
        Some([Plain(t[0])] + ps)
  }

  datatype StringReading = StringReading(pieces: seq<Piece>, rest: Text)

  function ReadString(t: Text): (r: Option<StringReading>)
    requires t != [] && t[0] == QUOTE
    ensures r.Some? ==> |r.value.rest| < |t|
  {
    match StringEnd(t, 1)
    case None => None
    case Some(end) =>
      match ReadPieces(t[1..end - 1])
      case None => None
      case Some(ps) => Some(StringReading(ps, t[end..]))
  }

  lemma LiteralSlices(t: Text, end: nat)
    requires 2 <= end <= |t| && t[0] == QUOTE == t[end - 1]
    ensures t == [QUOTE] + t[1..end - 1] + [QUOTE] + t[end..]
  {
    assert t[1..end - 1] + [QUOTE] == t[1..end];
  }

  lemma ReadStringSound(t: Text)
    requires t != [] && t[0] == QUOTE && ReadString(t).Some?
    ensures var r := ReadString(t).value; WfPieces(r.pieces) && t == PrintString(r.pieces) + r.rest
  {
    LiteralSlices(t, StringEnd(t, 1).value);
  }

  lemma ReadPiece(p: Piece, rest: Text)
    requires WfPiece(p)
    ensures ReadPieces(PrintPiece(p) + rest)
         == match ReadPieces(rest) case None => None case Some(ps) => Some([p] + ps)
  {
    var t := PrintPiece(p) + rest;
    Cut(PrintPiece(p), rest);
    match p {
      case Plain(u) => assert t[0] == u && t[1..] == rest;
      case Short(u) => assert t[0] == BACKSLASH && t[1] == u && t[2..] == rest;
      case Hex(a, b, c, d) =>
        assert t[0] == BACKSLASH && t[1] == 'u' as int && t[2] == a && t[3] == b && t[4] == c && t[5] == d;
        assert t[6..] == rest;
    }
  }

  lemma {:induction false} ReadPiecesOf(ps: seq<Piece>)
    requires WfPieces(ps)
    ensures ReadPieces(PrintPieces(ps)) == Some(ps)
  {
    if ps != [] {
      hide ReadPieces;
      ReadPiecesOf(ps[1..]);
      ReadPiece(ps[0], PrintPieces(ps[1..]));
      assert ps == [ps[0]] + ps[1..];
    }
  }

  /** The search passes a whole piece, escapes included. */
  lemma PieceEnd(t: Text, i: nat, p: Piece)
    requires WfPiece(p) && i + |PrintPiece(p)| <= |t| && t[i..i + |PrintPiece(p)|] == PrintPiece(p)
    ensures StringEnd(t, i) == StringEnd(t, i + |PrintPiece(p)|)
  {
    var u := PrintPiece(p);
    var here := t[i..i + |u|];
    assert t[i] == here[0];
    if p.Hex? {
      assert t[i + 2] == here[2] && t[i + 3] == here[3] && t[i + 4] == here[4] && t[i + 5] == here[5];
      assert StringEnd(t, i + 2) == StringEnd(t, i + 3);
      assert StringEnd(t, i + 3) == StringEnd(t, i + 4);
      assert StringEnd(t, i + 4) == StringEnd(t, i + 5);
      assert StringEnd(t, i + 5) == StringEnd(t, i + 6);
    }
  }

  lemma Sections<T>(t: seq<T>, i: nat, a: seq<T>, b: seq<T>)
    requires i <= |t| && t[i..] == a + b
    ensures i + |a| <= |t| && t[i..i + |a|] == a && t[i + |a|..] == b
  {
    Cut(a, b);
    assert t[i..][..|a|] == t[i..i + |a|];
    assert t[i..][|a|..] == t[i + |a|..];
  }

  lemma QuoteEnds(t: Text, i: nat)
    requires i < |t| && t[i] == QUOTE
    ensures StringEnd(t, i) == Some(i + 1)
  {
  }

  lemma PiecesUnfold(ps: seq<Piece>)
    requires WfPieces(ps)
    ensures ps == [] ==> PrintPieces(ps) == []
    ensures ps != [] ==> WfPiece(ps[0]) && WfPieces(ps[1..]) && PrintPieces(ps) == PrintPiece(ps[0]) + PrintPieces(ps[1..])
  {
  }

  /** The lexical search finds the quote that ends the literal, whatever follows it. */
  lemma {:induction false} StringEndOf(t: Text, i: nat, ps: seq<Piece>, rest: Text)
    requires WfPieces(ps) && i <= |t| && t[i..] == PrintPieces(ps) + ([QUOTE] + rest)
    ensures StringEnd(t, i) == Some(i + |PrintPieces(ps)| + 1)
    decreases |ps|
  {
    hide StringEnd, PrintPieces, PrintPiece, WfPieces, WfPiece;
    PiecesUnfold(ps);
    if ps == [] {
      Sections(t, i, [], [QUOTE] + rest);
      assert t[i] == t[i..][0];
      QuoteEnds(t, i);
    } else {
      var first, more := PrintPiece(ps[0]), PrintPieces(ps[1..]);
      Assoc(first, more, [QUOTE] + rest);
      Sections(t, i, first, more + ([QUOTE] + rest));
      PieceEnd(t, i, ps[0]);
      StringEndOf(t, i + |first|, ps[1..], rest);
    }
  }

  lemma ReadStringOf(ps: seq<Piece>, rest: Text)
    requires WfPieces(ps)
    ensures ReadString(PrintString(ps) + rest) == Some(StringReading(ps, rest))
  {
    var t := PrintString(ps) + rest;
    assert t[1..] == PrintPieces(ps) + ([QUOTE] + rest);
    StringEndOf(t, 1, ps, rest);
    var end := |PrintPieces(ps)| + 2;
    assert t[1..end - 1] == PrintPieces(ps);
    assert t[end..] == rest;
    ReadPiecesOf(ps);
  }

  // ----- numbers: the sticky expression of the scanner ----------------------------------------

  function TakeDigits(t: Text): (d: Text)
    ensures AllDigits(d) && |d| <= |t| && d == t[..|d|]
    ensures |d| < |t| ==> !IsDigit(t[|d|])
  {
    if t != [] && IsDigit(t[0]) then [t[0]] + TakeDigits(t[1..]) else []
  }

  function TakeWhole(t: Text): (d: Text)
    ensures |d| <= |t| && d == t[..|d|]
  {
    if t != [] && t[0] == ZERO then [ZERO] else TakeDigits(t)
  }

  function TakeFraction(t: Text): (d: Text)
    ensures |PrintFraction(d)| <= |t| && PrintFraction(d) == t[..|PrintFraction(d)|]
  {
    if t != [] && t[0] == POINT then
      var d := TakeDigits(t[1..]);
      assert t[..1 + |d|] == [POINT] + d;
      d
    else []
  }

  function TakeSign(t: Text): (s: Text)
    ensures |s| <= |t| && s == t[..|s|]
  {
    if t != [] && (t[0] == PLUS || t[0] == MINUS) then [t[0]] else []
  }

  function TakeExponent(t: Text): (e: Exponent)
    ensures WfExponent(e) && |PrintExponent(e)| <= |t| && PrintExponent(e) == t[..|PrintExponent(e)|]
  {
    if t != [] && (t[0] == 'e' as int || t[0] == 'E' as int) then
      var sign := TakeSign(t[1..]);
      var digits := TakeDigits(t[1 + |sign|..]);
      assert t[..1 + |sign| + |digits|] == [t[0]] + sign + digits;
      if digits == [] then NoExponent else Exponent(t[0], sign, digits)
    else NoExponent
  }

  datatype NumberReading = NumberReading(numeral: Numeral, rest: Text)

  function ReadUnsigned(minus: bool, t: Text): (r: Option<NumberReading>)
    ensures r.Some? ==> |r.value.rest| < |t|
  {
    var whole := TakeWhole(t);
    if whole == [] then None
    else
      var t2 := t[|whole|..];
      var fraction := TakeFraction(t2);
      var t3 := t2[|PrintFraction(fraction)|..];
      var exponent := TakeExponent(t3);
      Some(NumberReading(Numeral(minus, whole, fraction, exponent), t3[|PrintExponent(exponent)|..]))
  }

  function ReadNumber(t: Text): (r: Option<NumberReading>)
    ensures r.Some? ==> |r.value.rest| < |t|
  {
    if t != [] && t[0] == MINUS then ReadUnsigned(true, t[1..]) else ReadUnsigned(false, t)
  }

  lemma ReadUnsignedSound(minus: bool, t: Text)
    requires ReadUnsigned(minus, t).Some?
    ensures var r := ReadUnsigned(minus, t).value;
      r.numeral.minus == minus && WfNumeral(r.numeral) && t == PrintUnsigned(r.numeral) + r.rest
  {
    var r := ReadUnsigned(minus, t).value;
    var whole := TakeWhole(t);
    var t2 := t[|whole|..];
    var fraction := TakeFraction(t2);
    var t3 := t2[|PrintFraction(fraction)|..];
    var exponent := TakeExponent(t3);
    assert r.numeral == Numeral(minus, whole, fraction, exponent);
    Uncut(whole, t);
    Uncut(PrintFraction(fraction), t2);
    Uncut(PrintExponent(exponent), t3);
    Assoc(whole, PrintFraction(fraction) + PrintExponent(exponent), r.rest);
    Assoc(PrintFraction(fraction), PrintExponent(exponent), r.rest);
  }

  lemma ReadNumberSound(t: Text)
    requires ReadNumber(t).Some?
    ensures var r := ReadNumber(t).value; WfNumeral(r.numeral) && t == PrintNumeral(r.numeral) + r.rest
  {
    var r := ReadNumber(t).value;
    var minus := t[0] == MINUS;
    var unsigned := if minus then t[1..] else t;
    ReadUnsignedSound(minus, unsigned);
    Assoc(PrintSign(minus), PrintUnsigned(r.numeral), r.rest);
    assert t == PrintSign(minus) + unsigned;
  }

  /** What may follow a value: the end, white space, a separator or a closing bracket. */
  predicate Stops(t: Text) {
    t == [] || IsSpace(t[0]) || t[0] == COMMA || t[0] == Close(true) || t[0] == Close(false)
  }

  lemma StopsIsNotNumeric(t: Text)
    requires Stops(t) && t != []
    ensures !IsDigit(t[0]) && t[0] != POINT && t[0] != 'e' as int && t[0] != 'E' as int
  {
  }

  lemma {:induction false} TakeDigitsOf(d: Text, rest: Text)
    requires AllDigits(d) && (rest == [] || !IsDigit(rest[0]))
    ensures TakeDigits(d + rest) == d
  {
    if d == [] {
      assert d + rest == rest;
    } else {
      assert (d + rest)[1..] == d[1..] + rest;
      TakeDigitsOf(d[1..], rest);
    }
  }

  lemma TakeSignOf(sign: Text, rest: Text)
    requires sign == [] || sign == [PLUS] || sign == [MINUS]
    requires rest != [] && IsDigit(rest[0])
    ensures TakeSign(sign + rest) == sign
  {
    if sign == [] { assert sign + rest == rest; }
  }

  lemma ExponentSplits(letter: CodeUnit, sign: Text, digits: Text, rest: Text)
    ensures var t := [letter] + sign + digits + rest;
      t[0] == letter && t[1..] == sign + (digits + rest) && t[1 + |sign|..] == digits + rest
  {
    var t := [letter] + sign + digits + rest;
    Assoc([letter] + sign, digits, rest);
    Assoc([letter], sign, digits + rest);
    Cut([letter], sign + (digits + rest));
    Cut([letter] + sign, digits + rest);
  }

  lemma ExponentStep(t: Text, letter: CodeUnit, sign: Text, digits: Text)
    requires t != [] && t[0] == letter && (letter == 'e' as int || letter == 'E' as int)
    requires TakeSign(t[1..]) == sign && 1 + |sign| <= |t| && TakeDigits(t[1 + |sign|..]) == digits && digits != []
    ensures TakeExponent(t) == Exponent(letter, sign, digits)
  {
  }

  lemma NoDigitNext(rest: Text)
    requires Stops(rest)
    ensures rest == [] || !IsDigit(rest[0])
  {
    if rest != [] { StopsIsNotNumeric(rest); }
  }

  lemma TakeExponentOf(e: Exponent, rest: Text)
    requires WfExponent(e) && Stops(rest)
    ensures TakeExponent(PrintExponent(e) + rest) == e
  {
    hide TakeSign, TakeDigits, Stops;
    if e.NoExponent? {
      assert PrintExponent(e) + rest == rest;
      if rest != [] { StopsIsNotNumeric(rest); }
    } else {
      ExponentSplits(e.letter, e.sign, e.digits, rest);
      NoDigitNext(rest);
      TakeDigitsOf(e.digits, rest);
      TakeSignOf(e.sign, e.digits + rest);
      ExponentStep(PrintExponent(e) + rest, e.letter, e.sign, e.digits);
    }
  }

  lemma ExponentStarts(e: Exponent, rest: Text)
    requires WfExponent(e) && (rest == [] || (!IsDigit(rest[0]) && rest[0] != POINT))
    ensures var t := PrintExponent(e) + rest; t == [] || (!IsDigit(t[0]) && t[0] != POINT)
  {
    var t := PrintExponent(e) + rest;
    if e.NoExponent? { assert t == rest; } else { assert t[0] == e.letter; }
  }

  lemma TakeFractionOf(fraction: Text, e: Exponent, rest: Text)
    requires AllDigits(fraction) && WfExponent(e) && Stops(rest)
    ensures TakeFraction(PrintFraction(fraction) + (PrintExponent(e) + rest)) == fraction
  {
    hide TakeDigits, PrintExponent, WfExponent, Stops;
    var tail := PrintExponent(e) + rest;
    if rest != [] { StopsIsNotNumeric(rest); }
    ExponentStarts(e, rest);
    if fraction == [] {
      assert PrintFraction(fraction) + tail == tail;
    } else {
      Assoc([POINT], fraction, tail);
      Cut([POINT], fraction + tail);
      TakeDigitsOf(fraction, tail);
    }
  }

  lemma TailAfterWhole(n: Numeral, rest: Text)
    requires WfNumeral(n) && Stops(rest)
    ensures var tail := PrintFraction(n.fraction) + (PrintExponent(n.exponent) + rest);
      tail == [] || !IsDigit(tail[0])
  {
    if rest != [] { StopsIsNotNumeric(rest); }
    ExponentStarts(n.exponent, rest);
    var e := PrintExponent(n.exponent) + rest;
    var tail := PrintFraction(n.fraction) + e;
    if n.fraction != [] { assert tail[0] == POINT; } else { assert tail == e; }
  }

  lemma TakeWholeOf(n: Numeral, rest: Text)
    requires WfNumeral(n) && Stops(rest)
    ensures TakeWhole(n.whole + (PrintFraction(n.fraction) + (PrintExponent(n.exponent) + rest))) == n.whole
  {
    var tail := PrintFraction(n.fraction) + (PrintExponent(n.exponent) + rest);
    if n.whole[0] == ZERO {
      assert n.whole == [ZERO];
    } else {
      TailAfterWhole(n, rest);
      TakeDigitsOf(n.whole, tail);
    }
  }

  lemma ReadUnsignedOf(n: Numeral, rest: Text)
    requires WfNumeral(n) && Stops(rest)
    ensures ReadUnsigned(n.minus, PrintUnsigned(n) + rest) == Some(NumberReading(n, rest))
  {
    var frac, exp := PrintFraction(n.fraction), PrintExponent(n.exponent);
    var t3 := exp + rest;
    var t2 := frac + t3;
    Assoc(n.whole, frac + exp, rest);
    Assoc(frac, exp, rest);
    Cut(n.whole, t2);
    Cut(frac, t3);
    Cut(exp, rest);
    TakeWholeOf(n, rest);
    TakeFractionOf(n.fraction, n.exponent, rest);
    TakeExponentOf(n.exponent, rest);
  }

  lemma ReadNumberOf(n: Numeral, rest: Text)
    requires WfNumeral(n) && Stops(rest)
    ensures ReadNumber(PrintNumeral(n) + rest) == Some(NumberReading(n, rest))
  {
    var unsigned := PrintUnsigned(n) + rest;
    Assoc(PrintSign(n.minus), PrintUnsigned(n), rest);
    var t := PrintSign(n.minus) + unsigned;
    assert t == PrintNumeral(n) + rest;
    assert unsigned[0] == n.whole[0];
    assert t[0] == MINUS <==> n.minus;
    Cut(PrintSign(n.minus), unsigned);
    ReadUnsignedOf(n, rest);
  }
}
