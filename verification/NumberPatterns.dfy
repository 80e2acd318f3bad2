/**
 The regular expressions for numbers, and the numerals of the JSON grammar as the texts of one of them.
 */
module NumberPatterns {
  import opened CodeUnits
  import opened JsonGrammar
  import opened Patterns

  function Just(c: char): Class
    requires c < 128 as char
  {
    [Range(c as int, c as int)]
  }

  const DIGIT: Class := [Range('0' as int, '9' as int)]
  const NONZERO: Class := [Range('1' as int, '9' as int)]

  /** [1-9][0-9]* */
  const COUNTER: Pattern := Then(One(NONZERO), Star(One(DIGIT)))

  /** 0|[1-9][0-9]* */
  const WHOLE: Pattern := Either(One(Just('0')), COUNTER)

  /** \.[0-9]+ */
  const FRACTION: Pattern := Then(One(Just('.')), Plus(DIGIT))

  /** [eE][+-]?[0-9]+ */
  const EXPONENT: Pattern := Then(One(Just('e') + Just('E')), Then(Optional(One(Just('+') + Just('-'))), Plus(DIGIT)))

  /** (0|[1-9][0-9]*)(\.[0-9]+)? */
  const DECIMAL: Pattern := Then(WHOLE, Optional(FRACTION))

  /** -?(0|[1-9][0-9]*)(\.[0-9]+)?([eE][+-]?[0-9]+)? */
  const NUMBER: Pattern := Then(Optional(One(Just('-'))), Then(WHOLE, Then(Optional(FRACTION), Optional(EXPONENT))))

  lemma DigitClass(u: CodeUnit)
    ensures Within(DIGIT, u) <==> IsDigit(u)
    ensures Within(NONZERO, u) <==> IsDigit(u) && u != ZERO
  {
    assert Range('0' as int, '9' as int) in DIGIT && Range('1' as int, '9' as int) in NONZERO;
  }

  lemma DigitsClass(t: Text)
    ensures AllWithin(DIGIT, t) <==> AllDigits(t)
  {
    hide Within, IsDigit;
    forall i | 0 <= i < |t| ensures Within(DIGIT, t[i]) <==> IsDigit(t[i]) { DigitClass(t[i]); }
  }

  lemma JustOne(c: char, u: CodeUnit)
    requires c < 128 as char
    ensures Within(Just(c), u) <==> u == c as int
  {
    assert Just(c)[0] in Just(c);
  }

  lemma JustTwo(c: char, d: char, u: CodeUnit)
    requires c < 128 as char && d < 128 as char
    ensures Within(Just(c) + Just(d), u) <==> u == c as int || u == d as int
  {
    var both := Just(c) + Just(d);
    assert both[0] in both && both[1] in both;
  }

  lemma DigitsPattern(t: Text)
    ensures Matches(Plus(DIGIT), t) <==> t != [] && AllDigits(t)
  {
    PlusOf(DIGIT, t);
    DigitsClass(t);
  }

  lemma CounterPattern(t: Text)
    ensures Matches(COUNTER, t) <==> t != [] && AllDigits(t) && t[0] != ZERO
  {
    OneThen(NONZERO, Star(One(DIGIT)), t);
    if t != [] {
      StarOf(DIGIT, t[1..]);
      DigitsClass(t[1..]);
      DigitClass(t[0]);
      assert t == [t[0]] + t[1..];
      assert AllDigits(t) <==> IsDigit(t[0]) && AllDigits(t[1..]);
    }
  }

  lemma WholePattern(t: Text)
    ensures Matches(WHOLE, t) <==> t != [] && AllDigits(t) && (t[0] == ZERO ==> |t| == 1)
  {
    CounterPattern(t);
    if |t| == 1 { JustOne('0', t[0]); }
  }

  lemma FractionPattern(t: Text)
    ensures Matches(FRACTION, t) <==> |t| > 1 && t[0] == POINT && AllDigits(t[1..])
  {
    OneThen(Just('.'), Plus(DIGIT), t);
    if t != [] {
      JustOne('.', t[0]);
      DigitsPattern(t[1..]);
    }
  }

  lemma OptionalOf(p: Pattern, t: Text)
    ensures Matches(Optional(p), t) <==> t == [] || Matches(p, t)
  {
  }

  // ----- a decimal number without sign and exponent -------------------------------------------

  /** A whole part and a fraction, and the token they spell. */
  lemma DecimalMatches(whole: Text, fraction: Text)
    requires Matches(WHOLE, whole) && AllDigits(fraction)
    ensures Matches(DECIMAL, whole + PrintFraction(fraction))
  {
    hide Matches;
    OptionalOf(FRACTION, PrintFraction(fraction));
    FractionPattern(PrintFraction(fraction));
    Joined(WHOLE, Optional(FRACTION), whole, PrintFraction(fraction));
  }

  lemma FractionOf(t: Text) returns (fraction: Text)
    requires Matches(Optional(FRACTION), t)
    ensures AllDigits(fraction) && t == PrintFraction(fraction)
  {
    hide Matches;
    OptionalOf(FRACTION, t);
    FractionPattern(t);
    fraction := if t == [] then [] else t[1..];
  }

  lemma DecimalParts(t: Text) returns (whole: Text, fraction: Text)
    requires Matches(DECIMAL, t)
    ensures Matches(WHOLE, whole) && AllDigits(fraction) && t == whole + PrintFraction(fraction)
  {
    hide Matches;
    var k := Split(WHOLE, Optional(FRACTION), t);
    fraction := FractionOf(t[k..]);
    whole := t[..k];
  }

  // ----- the numbers of JSON ------------------------------------------------------------------

  lemma ExponentMatches(e: Exponent)
    requires WfExponent(e)
    ensures Matches(Optional(EXPONENT), PrintExponent(e))
  {
    hide Matches;
    OptionalOf(EXPONENT, PrintExponent(e));
    if e.Exponent? {
      var sign := e.sign;
      OptionalOf(One(Just('+') + Just('-')), sign);
      if sign != [] { SignMatches(sign); }
      DigitsPattern(e.digits);
      Joined(Optional(One(Just('+') + Just('-'))), Plus(DIGIT), sign, e.digits);
      OneThen(Just('e') + Just('E'), Then(Optional(One(Just('+') + Just('-'))), Plus(DIGIT)), PrintExponent(e));
      JustTwo('e', 'E', e.letter);
      assert PrintExponent(e)[1..] == sign + e.digits;
    }
  }

  lemma SignMatches(t: Text)
    ensures Matches(One(Just('+') + Just('-')), t) <==> t == [PLUS] || t == [MINUS]
  {
    if |t| == 1 { JustTwo('+', '-', t[0]); }
  }

  lemma ExponentOf(t: Text) returns (e: Exponent)
    requires Matches(Optional(EXPONENT), t)
    ensures WfExponent(e) && t == PrintExponent(e)
  {
    hide Matches;
    OptionalOf(EXPONENT, t);
    if t == [] { return NoExponent; }
    var signed := Then(Optional(One(Just('+') + Just('-'))), Plus(DIGIT));
    OneThen(Just('e') + Just('E'), signed, t);
    JustTwo('e', 'E', t[0]);
    var k := Split(Optional(One(Just('+') + Just('-'))), Plus(DIGIT), t[1..]);
    OptionalOf(One(Just('+') + Just('-')), t[1..][..k]);
    SignMatches(t[1..][..k]);
    DigitsPattern(t[1..][k..]);
    e := Exponent(t[0], t[1..][..k], t[1..][k..]);
    assert t == [t[0]] + t[1..][..k] + t[1..][k..];
  }

  lemma MinusMatches(t: Text)
    ensures Matches(Optional(One(Just('-'))), t) <==> t == [] || t == [MINUS]
  {
    if |t| == 1 { JustOne('-', t[0]); }
  }

  /** Every numeral of the grammar matches the expression. */
  lemma NumeralMatches(n: Numeral)
    requires WfNumeral(n)
    ensures Matches(NUMBER, PrintNumeral(n))
  {
    hide Matches;
    MinusMatches(PrintSign(n.minus));
    WholePattern(n.whole);
    OptionalOf(FRACTION, PrintFraction(n.fraction));
    FractionPattern(PrintFraction(n.fraction));
    ExponentMatches(n.exponent);
    Joined(Optional(FRACTION), Optional(EXPONENT), PrintFraction(n.fraction), PrintExponent(n.exponent));
    Joined(WHOLE, Then(Optional(FRACTION), Optional(EXPONENT)), n.whole,
           PrintFraction(n.fraction) + PrintExponent(n.exponent));
    Joined(Optional(One(Just('-'))), Then(WHOLE, Then(Optional(FRACTION), Optional(EXPONENT))), PrintSign(n.minus),
           PrintUnsigned(n));
  }

  const TAIL: Pattern := Then(Optional(FRACTION), Optional(EXPONENT))

  lemma TailOf(t: Text) returns (fraction: Text, exponent: Exponent)
    requires Matches(TAIL, t)
    ensures AllDigits(fraction) && WfExponent(exponent) && t == PrintFraction(fraction) + PrintExponent(exponent)
  {
    hide Matches, WfExponent, PrintFraction, PrintExponent, AllDigits;
    var k := Split(Optional(FRACTION), Optional(EXPONENT), t);
    fraction := FractionOf(t[..k]);
    exponent := ExponentOf(t[k..]);
  }

  lemma UnsignedOf(t: Text) returns (whole: Text, fraction: Text, exponent: Exponent)
    requires Matches(Then(WHOLE, TAIL), t)
    ensures whole != [] && AllDigits(whole) && (whole[0] == ZERO ==> |whole| == 1)
    ensures AllDigits(fraction) && WfExponent(exponent)
    ensures t == whole + (PrintFraction(fraction) + PrintExponent(exponent))
  {
    hide Matches, WfExponent, PrintFraction, PrintExponent, AllDigits;
    var k := Split(WHOLE, TAIL, t);
    WholePattern(t[..k]);
    whole := t[..k];
    fraction, exponent := TailOf(t[k..]);
  }

  /** Every text that matches is a numeral of the grammar. */
  lemma NumeralOf(t: Text) returns (n: Numeral)
    requires Matches(NUMBER, t)
    ensures WfNumeral(n) && PrintNumeral(n) == t
  {
    hide Matches, WfExponent, PrintFraction, PrintExponent, AllDigits, WHOLE, TAIL;
    var minus := Optional(One(Just('-')));
    NumberIsMinusThenRest();
    var i := Split(minus, Then(WHOLE, TAIL), t);
    MinusMatches(t[..i]);
    var whole, fraction, exponent := UnsignedOf(t[i..]);
    n := Numeral(i == 1, whole, fraction, exponent);
    assert t == t[..i] + t[i..];
  }

  lemma NumberIsMinusThenRest()
    ensures NUMBER == Then(Optional(One(Just('-'))), Then(WHOLE, TAIL))
  {
  }

  /** The numerals of the grammar are exactly the texts of the expression. */
  lemma NumberIsThePattern(t: Text)
    ensures Matches(NUMBER, t) <==> exists n :: WfNumeral(n) && PrintNumeral(n) == t
  {
    hide Matches;
    if Matches(NUMBER, t) {
      var n := NumeralOf(t);
    }
    forall n | WfNumeral(n) && PrintNumeral(n) == t ensures Matches(NUMBER, t) {
      NumeralMatches(n);
    }
  }
}
