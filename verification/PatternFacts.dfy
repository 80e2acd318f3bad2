/**
 The tests on texts are the regular expressions of the source, each written out here as it stands there.
 */
module PatternFacts {
  import opened CodeUnits
  import opened JsonGrammar
  import opened NumberPatterns
  import opened Patterns
  import AssessmentEncoding
  import BusinessDates
  import CurrencyArithmetic
  import Gregorian
  import PolicyContext
  import RegistrarPrice
  import SelectionAssessment
  import SelectionIntent

  const CAPITAL: Class := [Range('A' as int, 'Z' as int)]
  const WORDLY: Class := CAPITAL + [Range('a' as int, 'z' as int)] + DIGIT
  const MARKED: Class := WORDLY + Just('.') + Just('_') + Just(':') + Just('-')
  const VISIBLE: Class := [Range(0x21, 0x7E)]
  const PRINTED: Class := [Range(0x20, 0x7E)]
  const HEX: Class := DIGIT + [Range('a' as int, 'f' as int)]
  const ANYHEX: Class := HEX + [Range('A' as int, 'F' as int)]

  // ----- identifiers of currencies and policies -------------------------------------------------

  /** [A-Z]{3} */
  const CODE: Pattern := InOrder(Times(CAPITAL, 3))

  /** [A-Za-z0-9][A-Za-z0-9._:-]* */
  const VERSION: Pattern := Then(One(WORDLY), Star(One(MARKED)))

  /** [\x21-\x7e](?:[\x20-\x7e]*[\x21-\x7e])? */
  const PROVENANCE: Pattern := Then(One(VISIBLE), Optional(Then(Star(One(PRINTED)), One(VISIBLE))))

  lemma CodeIsThePattern(t: Text)
    ensures PolicyContext.IsCode(t) <==> Matches(CODE, t)
  {
    InOrderOf(Times(CAPITAL, 3), t);
    assert Range('A' as int, 'Z' as int) in CAPITAL;
  }

  lemma VersionClasses(u: CodeUnit)
    ensures Within(WORDLY, u) <==> PolicyContext.IsAlphanumeric(u)
    ensures Within(MARKED, u) <==>
            PolicyContext.IsAlphanumeric(u) || u == POINT || u == '_' as int || u == COLON || u == MINUS
  {
    assert WORDLY == [Range('A' as int, 'Z' as int), Range('a' as int, 'z' as int), Range('0' as int, '9' as int)];
    assert MARKED == WORDLY + [Range(POINT, POINT), Range('_' as int, '_' as int), Range(COLON, COLON), Range(MINUS, MINUS)];
    assert forall r :: r in WORDLY ==> r in MARKED;
    assert MARKED[3] == Range(POINT, POINT) && MARKED[4] == Range('_' as int, '_' as int) && MARKED[5] == Range(COLON, COLON)
      && MARKED[6] == Range(MINUS, MINUS);
    assert WORDLY[0] in WORDLY && WORDLY[1] in WORDLY && WORDLY[2] in WORDLY;
  }

  lemma VersionIsThePattern(t: Text)
    ensures PolicyContext.IsVersion(t) <==> 1 <= |t| <= 64 && Matches(VERSION, t)
  {
    hide Within, PolicyContext.IsAlphanumeric;
    OneThen(WORDLY, Star(One(MARKED)), t);
    if t != [] {
      StarOf(MARKED, t[1..]);
      forall u: CodeUnit ensures (Within(WORDLY, u) <==> PolicyContext.IsAlphanumeric(u))
        && (Within(MARKED, u) <==>
            PolicyContext.IsAlphanumeric(u) || u == POINT || u == '_' as int || u == COLON || u == MINUS)
      {
        VersionClasses(u);
      }
      assert forall i | 0 < i < |t| :: t[1..][i - 1] == t[i];
      assert AllWithin(MARKED, t[1..]) <==> forall i | 1 <= i < |t| :: Within(MARKED, t[i]);
    }
  }

  lemma PrintedClasses(u: CodeUnit)
    ensures Within(VISIBLE, u) <==> 0x21 <= u <= 0x7E
    ensures Within(PRINTED, u) <==> 0x20 <= u <= 0x7E
  {
    assert VISIBLE[0] in VISIBLE && PRINTED[0] in PRINTED;
  }

  lemma OneOf(c: Class, t: Text)
    ensures Matches(One(c), t) <==> |t| == 1 && Within(c, t[0])
  {
  }

  /** A run of printed units that ends with a visible one. */
  lemma EndsVisible(t: Text)
    ensures Matches(Then(Star(One(PRINTED)), One(VISIBLE)), t)
            <==> t != [] && AllWithin(PRINTED, t[..|t| - 1]) && Within(VISIBLE, t[|t| - 1])
  {
    hide Matches, Within, AllWithin;
    if Matches(Then(Star(One(PRINTED)), One(VISIBLE)), t) {
      var k := Split(Star(One(PRINTED)), One(VISIBLE), t);
      OneOf(VISIBLE, t[k..]);
      StarOf(PRINTED, t[..k]);
    } else if t != [] {
      var visible := [t[|t| - 1]];
      StarOf(PRINTED, t[..|t| - 1]);
      OneOf(VISIBLE, visible);
      assert t[..|t| - 1] + visible == t;
      if Within(VISIBLE, t[|t| - 1]) && AllWithin(PRINTED, t[..|t| - 1]) {
        Joined(Star(One(PRINTED)), One(VISIBLE), t[..|t| - 1], visible);
      }
    }
  }

  lemma ProvenanceIsThePattern(t: Text)
    ensures PolicyContext.IsProvenance(t) <==> 1 <= |t| <= 256 && Matches(PROVENANCE, t)
  {
    hide Within;
    OneThen(VISIBLE, Optional(Then(Star(One(PRINTED)), One(VISIBLE))), t);
    if t != [] {
      var rest := t[1..];
      EndsVisible(rest);
      forall u: CodeUnit ensures (Within(VISIBLE, u) <==> 0x21 <= u <= 0x7E) && (Within(PRINTED, u) <==> 0x20 <= u <= 0x7E) {
        PrintedClasses(u);
      }
      if rest != [] {
        assert rest[|rest| - 1] == t[|t| - 1];
        assert forall i | 0 < i < |t| - 1 :: rest[..|rest| - 1][i - 1] == t[i];
        assert AllWithin(PRINTED, rest[..|rest| - 1]) <==> forall i | 1 <= i < |t| - 1 :: Within(PRINTED, t[i]);
      }
    }
  }

  // ----- ids, digests and counters --------------------------------------------------------------

  const DASH: Class := Just('-')

  /** hex{8}-hex{4}-[1-8]hex{3}-variant hex{3}-hex{12} */
  function UuidOf(hex: Class, variant: Class): (cs: seq<Class>)
    ensures |cs| == 36
  {
    Times(hex, 8) + [DASH] + Times(hex, 4) + [DASH] + [[Range('1' as int, '8' as int)]] + Times(hex, 3) + [DASH]
    + [variant] + Times(hex, 3) + [DASH] + Times(hex, 12)
  }

  /** The nil and the max UUID: one digit throughout. */
  function Same(c: char): seq<Class>
    requires c < 128 as char
  {
    Times(Just(c), 8) + [DASH] + Times(Just(c), 4) + [DASH] + Times(Just(c), 4) + [DASH] + Times(Just(c), 4) + [DASH]
    + Times(Just(c), 12)
  }

  function Uuids(hex: Class, variant: Class): Pattern {
    Either(InOrder(UuidOf(hex, variant)), Either(InOrder(Same('0')), InOrder(Same('f'))))
  }

  /** [89ab], and for request keys [89abAB]. */
  const VARIANT: Class := Just('8') + Just('9') + Just('a') + Just('b')
  const ANYVARIANT: Class := VARIANT + Just('A') + Just('B')

  lemma HexClasses(u: CodeUnit)
    ensures Within(HEX, u) <==> SelectionAssessment.IsLowerHex(u)
    ensures Within(ANYHEX, u) <==> SelectionIntent.IsHex(u)
  {
    assert HEX == [Range('0' as int, '9' as int), Range('a' as int, 'f' as int)];
    assert ANYHEX == HEX + [Range('A' as int, 'F' as int)];
    assert HEX[0] in HEX && HEX[1] in HEX;
    assert ANYHEX[0] in ANYHEX && ANYHEX[1] in ANYHEX && ANYHEX[2] in ANYHEX;
  }

  lemma VariantClasses(u: CodeUnit)
    ensures Within(VARIANT, u) <==> u == '8' as int || u == '9' as int || u == 'a' as int || u == 'b' as int
    ensures Within(ANYVARIANT, u) <==> Within(VARIANT, u) || u == 'A' as int || u == 'B' as int
  {
    assert VARIANT == [Range('8' as int, '8' as int), Range('9' as int, '9' as int), Range('a' as int, 'a' as int),
                       Range('b' as int, 'b' as int)];
    assert ANYVARIANT == VARIANT + [Range('A' as int, 'A' as int), Range('B' as int, 'B' as int)];
    assert VARIANT[0] in VARIANT && VARIANT[1] in VARIANT && VARIANT[2] in VARIANT && VARIANT[3] in VARIANT;
    assert ANYVARIANT[0] in ANYVARIANT && ANYVARIANT[1] in ANYVARIANT && ANYVARIANT[2] in ANYVARIANT
      && ANYVARIANT[3] in ANYVARIANT && ANYVARIANT[4] in ANYVARIANT && ANYVARIANT[5] in ANYVARIANT;
  }

  lemma VersionDigit(u: CodeUnit)
    ensures Within([Range('1' as int, '8' as int)], u) <==> '1' as int <= u <= '8' as int
  {
    var c := [Range('1' as int, '8' as int)];
    assert c[0] in c;
  }

  /** Which class stands where. */
  lemma UuidPlaces(hex: Class, variant: Class, i: nat)
    requires i < 36
    ensures UuidOf(hex, variant)[i] ==
      if SelectionAssessment.Separates(i) then DASH else if i == 14 then [Range('1' as int, '8' as int)]
      else if i == 19 then variant else hex
  {
  }

  lemma SamePlaces(c: char, i: nat)
    requires c < 128 as char && i < 36
    ensures |Same(c)| == 36 && Same(c)[i] == if SelectionAssessment.Separates(i) then DASH else Just(c)
  {
  }

  lemma SameIsUniform(c: char, t: Text)
    requires c < 128 as char
    ensures SelectionAssessment.Uniform(t, c as int) <==> Matches(InOrder(Same(c)), t)
    ensures SelectionAssessment.Uniform(t, c as int) ==> |t| == 36
  {
    hide Within, Same, Just;
    InOrderOf(Same(c), t);
    SamePlaces(c, 0);
    if |t| == 36 {
      forall i | 0 <= i < 36
        ensures Within(Same(c)[i], t[i]) <==> t[i] == if SelectionAssessment.Separates(i) then MINUS else c as int
      {
        SamePlaces(c, i);
        JustOne('-', t[i]);
        JustOne(c, t[i]);
      }
    }
  }

  lemma UuidPlace(hex: Class, variant: Class, i: nat, u: CodeUnit)
    requires i < 36
    ensures Within(UuidOf(hex, variant)[i], u) <==>
            if SelectionAssessment.Separates(i) then u == MINUS
            else if i == 14 then '1' as int <= u <= '8' as int
            else if i == 19 then Within(variant, u) else Within(hex, u)
  {
    hide Within, UuidOf, Just;
    UuidPlaces(hex, variant, i);
    JustOne('-', u);
    VersionDigit(u);
  }

  lemma UuidShape(t: Text)
    requires |t| == 36
    ensures (&& (forall i | 0 <= i < 36 :: if SelectionAssessment.Separates(i) then t[i] == MINUS
                                           else SelectionAssessment.IsLowerHex(t[i]))
             && '1' as int <= t[14] <= '8' as int && Within(VARIANT, t[19]))
            <==> forall i | 0 <= i < 36 :: Within(UuidOf(HEX, VARIANT)[i], t[i])
  {
    hide Within, UuidOf, SelectionAssessment.IsLowerHex;
    forall i | 0 <= i < 36
      ensures Within(UuidOf(HEX, VARIANT)[i], t[i]) <==>
        if SelectionAssessment.Separates(i) then t[i] == MINUS
        else if i == 14 then '1' as int <= t[i] <= '8' as int
        else if i == 19 then Within(VARIANT, t[i]) else SelectionAssessment.IsLowerHex(t[i])
    {
      UuidPlace(HEX, VARIANT, i, t[i]);
      HexClasses(t[i]);
    }
    LowHex(t[14]);
    LowHex(t[19]);
    VariantClasses(t[19]);
    assert Within(UuidOf(HEX, VARIANT)[14], t[14]) <==> '1' as int <= t[14] <= '8' as int;
    assert Within(UuidOf(HEX, VARIANT)[19], t[19]) <==> Within(VARIANT, t[19]);
  }

  lemma EitherOf(a: Pattern, b: Pattern, c: Pattern, t: Text)
    ensures Matches(Either(a, Either(b, c)), t) <==> Matches(a, t) || Matches(b, t) || Matches(c, t)
  {
    assert Matches(Either(a, Either(b, c)), t) <==> Matches(a, t) || Matches(Either(b, c), t);
  }

  lemma UuidIsThePattern(t: Text)
    ensures SelectionAssessment.IsUuid(t) <==> Matches(Uuids(HEX, VARIANT), t)
  {
    hide Within, UuidOf, Same, InOrder, SelectionAssessment.IsLowerHex, SelectionAssessment.Uniform;
    SameIsUniform('0', t);
    SameIsUniform('f', t);
    InOrderOf(UuidOf(HEX, VARIANT), t);
    EitherOf(InOrder(UuidOf(HEX, VARIANT)), InOrder(Same('0')), InOrder(Same('f')), t);
    if |t| == 36 {
      UuidShape(t);
      VariantClasses(t[19]);
    }
  }

  lemma LowHex(u: CodeUnit)
    ensures IsDigit(u) || 'a' as int <= u <= 'f' as int ==> SelectionAssessment.IsLowerHex(u) && SelectionIntent.IsHex(u)
    ensures 'A' as int <= u <= 'F' as int ==> SelectionIntent.IsHex(u)
  {
  }

  lemma RequestKeyShape(t: Text)
    requires |t| == 36
    ensures (&& (forall i | 0 <= i < 36 :: if SelectionAssessment.Separates(i) then t[i] == MINUS
                                           else SelectionIntent.IsHex(t[i]))
             && '1' as int <= t[14] <= '8' as int && Within(ANYVARIANT, t[19]))
            <==> forall i | 0 <= i < 36 :: Within(UuidOf(ANYHEX, ANYVARIANT)[i], t[i])
  {
    hide Within, UuidOf, SelectionIntent.IsHex;
    forall i | 0 <= i < 36
      ensures Within(UuidOf(ANYHEX, ANYVARIANT)[i], t[i]) <==>
        if SelectionAssessment.Separates(i) then t[i] == MINUS
        else if i == 14 then '1' as int <= t[i] <= '8' as int
        else if i == 19 then Within(ANYVARIANT, t[i]) else SelectionIntent.IsHex(t[i])
    {
      UuidPlace(ANYHEX, ANYVARIANT, i, t[i]);
      HexClasses(t[i]);
    }
    LowHex(t[14]);
    LowHex(t[19]);
    VariantClasses(t[19]);
    assert Within(UuidOf(ANYHEX, ANYVARIANT)[14], t[14]) <==> '1' as int <= t[14] <= '8' as int;
    assert Within(UuidOf(ANYHEX, ANYVARIANT)[19], t[19]) <==> Within(ANYVARIANT, t[19]);
  }

  lemma RequestKeyIsThePattern(t: Text)
    ensures SelectionIntent.IsRequestKey(t) <==> Matches(Uuids(ANYHEX, ANYVARIANT), t)
  {
    hide Within, UuidOf, Same, InOrder, SelectionIntent.IsHex, SelectionAssessment.Uniform;
    SameIsUniform('0', t);
    SameIsUniform('f', t);
    InOrderOf(UuidOf(ANYHEX, ANYVARIANT), t);
    EitherOf(InOrder(UuidOf(ANYHEX, ANYVARIANT)), InOrder(Same('0')), InOrder(Same('f')), t);
    if |t| == 36 {
      RequestKeyShape(t);
      VariantClasses(t[19]);
    }
  }

  /** [a-f0-9]{64} */
  const DIGEST: Pattern := InOrder(Times(HEX, 64))

  lemma DigestIsThePattern(t: Text)
    ensures SelectionAssessment.IsDigest(t) <==> Matches(DIGEST, t)
  {
    hide Within, SelectionAssessment.IsLowerHex;
    InOrderOf(Times(HEX, 64), t);
    forall u: CodeUnit ensures Within(HEX, u) <==> SelectionAssessment.IsLowerHex(u) { HexClasses(u); }
  }

  /** A positive number of PostgreSQL's BIGINT in plain decimal digits. */
  lemma CounterIsThePattern(t: Text)
    ensures SelectionAssessment.IsPositiveCounter(t) <==>
            |t| <= 19 && Matches(COUNTER, t) && SelectionAssessment.NumberOf(t) <= 9_223_372_036_854_775_807
    ensures SelectionIntent.IsGeneration(t) <==>
            |t| <= 19 && Matches(WHOLE, t) && SelectionAssessment.NumberOf(t) <= 9_223_372_036_854_775_807
  {
    hide AllDigits;
    CounterPattern(t);
    WholePattern(t);
    assert SelectionAssessment.NumberOf([]) == 0;
    if t == [ZERO] {
      assert t[..0] == [];
      assert AllDigits(t) by { ZeroIsDigits(); }
    }
    if |t| == 1 && t[0] == ZERO { assert t == [ZERO]; }
  }

  lemma ZeroIsDigits()
    ensures AllDigits([ZERO])
  {
  }

  // ----- times and dates ------------------------------------------------------------------------

  const COLONS: Class := Just(':')

  /** [0-9]{4}-[0-9]{2}-[0-9]{2} */
  const DATE: seq<Class> := Times(DIGIT, 4) + [DASH] + Times(DIGIT, 2) + [DASH] + Times(DIGIT, 2)

  /** date T [0-9]{2}:[0-9]{2}:[0-9]{2}.[0-9]{3} Z */
  const TIME: seq<Class> :=
    DATE + [Just('T')] + Times(DIGIT, 2) + [COLONS] + Times(DIGIT, 2) + [COLONS] + Times(DIGIT, 2) + [Just('.')]
    + Times(DIGIT, 3) + [Just('Z')]

  lemma DatePlaces(i: nat)
    requires i < 10
    ensures |DATE| == 10 && DATE[i] == if i == 4 || i == 7 then DASH else DIGIT
  {
  }

  lemma DateIsThePattern(t: Text)
    ensures BusinessDates.LooksLikeDate(t) <==> Matches(InOrder(DATE), t)
  {
    hide Within, Just, DATE;
    InOrderOf(DATE, t);
    DatePlaces(0);
    if |t| == 10 {
      forall i | 0 <= i < 10 ensures Within(DATE[i], t[i]) <==> if i == 4 || i == 7 then t[i] == MINUS else IsDigit(t[i]) {
        DatePlaces(i);
        DigitClass(t[i]);
        JustOne('-', t[i]);
      }
      assert AllDigits(t[..4]) <==> forall i | 0 <= i < 4 :: IsDigit(t[i]);
      assert AllDigits(t[5..7]) <==> IsDigit(t[5]) && IsDigit(t[6]) by { assert t[5..7] == [t[5], t[6]]; }
      assert AllDigits(t[8..]) <==> IsDigit(t[8]) && IsDigit(t[9]) by { assert t[8..] == [t[8], t[9]]; }
    }
  }

  lemma TimePlaces(i: nat)
    requires i < 24
    ensures |TIME| == 24
    ensures TIME[i] == if i == 4 || i == 7 then DASH else if i == 10 then Just('T') else if i == 13 || i == 16 then COLONS
                       else if i == 19 then Just('.') else if i == 23 then Just('Z') else DIGIT
  {
  }

  /** The digits of t from one place to another, as a number. */
  function Digits(t: Text, from: nat, to: nat): int
    requires from <= to <= |t|
  {
    SelectionAssessment.NumberOf(t[from..to])
  }

  lemma TwoDigits(t: Text)
    requires |t| == 2
    ensures SelectionAssessment.NumberOf(t) == BusinessDates.Number2(t)
  {
    assert t[..1] == [t[0]] && t[..1][..0] == [];
    assert SelectionAssessment.NumberOf(t[..1]) == t[0] - ZERO;
  }

  lemma FourDigits(t: Text)
    requires |t| == 4
    ensures SelectionAssessment.NumberOf(t) == 100 * BusinessDates.Number2(t[..2]) + BusinessDates.Number2(t[2..])
  {
    hide BusinessDates.Number2;
    TwoDigits(t[..2]);
    assert t[..3][..2] == t[..2] && t[..3][2] == t[2];
    assert SelectionAssessment.NumberOf(t[..3]) == 10 * SelectionAssessment.NumberOf(t[..2]) + (t[2] - ZERO);
    assert SelectionAssessment.NumberOf(t) == 10 * SelectionAssessment.NumberOf(t[..3]) + (t[3] - ZERO);
    assert BusinessDates.Number2(t[2..]) == 10 * (t[2] - ZERO) + (t[3] - ZERO) by { TwoOf(t); }
  }

  lemma TwoOf(t: Text)
    requires |t| == 4
    ensures BusinessDates.Number2(t[2..]) == 10 * (t[2] - ZERO) + (t[3] - ZERO)
  {
  }

  /** The shape, a date of the calendar, and a time of the day. */
  lemma UtcIsThePattern(t: Text)
    ensures AssessmentEncoding.IsUtc(t) <==>
            && Matches(InOrder(TIME), t) && |t| == 24
            && 1 <= Digits(t, 5, 7) <= 12
            && Gregorian.IsDate(Gregorian.Civil(Digits(t, 0, 4), Digits(t, 5, 7) - 1, Digits(t, 8, 10)))
            && Digits(t, 11, 13) < 24 && Digits(t, 14, 16) < 60 && Digits(t, 17, 19) < 60
  {
    hide Within, Just, TIME, Gregorian.IsDate, SelectionAssessment.NumberOf, BusinessDates.Number2;
    InOrderOf(TIME, t);
    TimePlaces(0);
    if |t| == 24 {
      forall i | 0 <= i < 24 ensures Within(TIME[i], t[i]) <==>
        if i == 4 || i == 7 then t[i] == MINUS else if i == 10 then t[i] == 'T' as int
        else if i == 13 || i == 16 then t[i] == COLON else if i == 19 then t[i] == POINT
        else if i == 23 then t[i] == 'Z' as int else IsDigit(t[i])
      {
        TimePlaces(i);
        DigitClass(t[i]);
        JustOne('-', t[i]);
        JustOne('T', t[i]);
        JustOne(':', t[i]);
        JustOne('.', t[i]);
        JustOne('Z', t[i]);
      }
      FourDigits(t[0..4]);
      assert t[0..4][..2] == t[..2] && t[0..4][2..] == t[2..4];
      TwoDigits(t[5..7]);
      TwoDigits(t[8..10]);
      TwoDigits(t[11..13]);
      TwoDigits(t[14..16]);
      TwoDigits(t[17..19]);
    }
  }

  // ----- decimal numbers ------------------------------------------------------------------------

  lemma NoPoint(t: Text)
    requires AllDigits(t)
    ensures forall j | 0 <= j < |t| :: t[j] != POINT
  {
    forall j | 0 <= j < |t| ensures t[j] != POINT { assert IsDigit(t[j]); }
  }

  lemma SlicesOf(a: Text, u: CodeUnit, b: Text)
    ensures var t := a + ([u] + b); t[|a|] == u && t[..|a|] == a && t[|a| + 1..] == b
  {
  }

  lemma WholePartOf(whole: Text, fraction: Text)
    requires AllDigits(whole)
    ensures var t := whole + PrintFraction(fraction);
      && CurrencyArithmetic.WholePart(t) == whole && CurrencyArithmetic.FractionPart(t) == fraction
      && (CurrencyArithmetic.PointIndex(t) < |t| <==> fraction != [])
  {
    var t := whole + PrintFraction(fraction);
    hide CurrencyArithmetic.PointIndex, AllDigits;
    var k := CurrencyArithmetic.PointIndex(t);
    NoPoint(whole);
    forall j | 0 <= j < |whole| ensures t[j] != POINT { assert t[j] == whole[j]; }
    assert k >= |whole|;
    if fraction == [] {
      assert k == |t| && t == whole;
    } else {
      SlicesOf(whole, POINT, fraction);
    }
  }

  lemma SplitAt(t: Text, k: nat)
    requires k < |t|
    ensures t == t[..k] + ([t[k]] + t[k + 1..])
  {
  }

  lemma PartsJoin(t: Text)
    requires CurrencyArithmetic.PointIndex(t) < |t| ==> CurrencyArithmetic.FractionPart(t) != []
    ensures t == CurrencyArithmetic.WholePart(t) + PrintFraction(CurrencyArithmetic.FractionPart(t))
  {
    hide CurrencyArithmetic.PointIndex;
    var k := CurrencyArithmetic.PointIndex(t);
    if k < |t| { SplitAt(t, k); }
  }

  lemma DecimalTokenMatches(t: Text)
    requires CurrencyArithmetic.IsDecimalToken(t)
    ensures Matches(DECIMAL, t)
  {
    hide Matches, WHOLE, AllDigits, CurrencyArithmetic.WholePart, CurrencyArithmetic.FractionPart;
    PartsJoin(t);
    WholePattern(CurrencyArithmetic.WholePart(t));
    DecimalMatches(CurrencyArithmetic.WholePart(t), CurrencyArithmetic.FractionPart(t));
  }

  /** The rate of a policy: at most 97 units of this shape. */
  lemma DecimalIsThePattern(t: Text)
    ensures CurrencyArithmetic.IsDecimalToken(t) <==> |t| <= 97 && Matches(DECIMAL, t)
  {
    hide Matches, WHOLE, AllDigits, CurrencyArithmetic.WholePart, CurrencyArithmetic.FractionPart;
    if CurrencyArithmetic.IsDecimalToken(t) {
      DecimalTokenMatches(t);
    }
    if Matches(DECIMAL, t) {
      var whole, fraction := DecimalParts(t);
      WholePattern(whole);
      WholePartOf(whole, fraction);
    }
  }

  const PRICE_WHOLE: Pattern := Either(One(Just('0')), Then(One(NONZERO), UpTo(DIGIT, 12)))
  const PRICE_FRACTION: Pattern := Optional(Then(One(Just('.')), Then(One(DIGIT), UpTo(DIGIT, 1))))

  /** (0|[1-9][0-9]{0,12})(\.[0-9]{1,2})? */
  const PRICE: Pattern := Then(PRICE_WHOLE, PRICE_FRACTION)

  lemma PriceWhole(t: Text)
    ensures Matches(PRICE_WHOLE, t) <==> |t| <= 13 && Matches(WHOLE, t)
  {
    hide UpTo;
    WholePattern(t);
    if |t| == 1 { JustOne('0', t[0]); }
    OneThen(NONZERO, UpTo(DIGIT, 12), t);
    if t != [] {
      UpToOf(DIGIT, 12, t[1..]);
      DigitsClass(t[1..]);
      DigitClass(t[0]);
      assert t == [t[0]] + t[1..];
      assert AllDigits(t) <==> IsDigit(t[0]) && AllDigits(t[1..]);
    }
  }

  lemma PriceFraction(t: Text)
    ensures Matches(PRICE_FRACTION, t) <==> |t| <= 3 && Matches(Optional(FRACTION), t)
  {
    hide Matches, UpTo;
    var p := Then(One(Just('.')), Then(One(DIGIT), UpTo(DIGIT, 1)));
    OptionalOf(p, t);
    OptionalOf(FRACTION, t);
    FractionPattern(t);
    OneThen(Just('.'), Then(One(DIGIT), UpTo(DIGIT, 1)), t);
    if t != [] {
      JustOne('.', t[0]);
      var d := t[1..];
      OneThen(DIGIT, UpTo(DIGIT, 1), d);
      if d != [] {
        DigitClass(d[0]);
        UpToOf(DIGIT, 1, d[1..]);
        DigitsClass(d[1..]);
        assert d == [d[0]] + d[1..];
        assert AllDigits(d) <==> IsDigit(d[0]) && AllDigits(d[1..]);
      }
    }
  }

  lemma PriceRead(t: Text)
    requires Matches(PRICE, t)
    ensures RegistrarPrice.IsPrice(t)
  {
    hide Matches, WHOLE, AllDigits, PRICE_WHOLE, PRICE_FRACTION, FRACTION,
         CurrencyArithmetic.WholePart, CurrencyArithmetic.FractionPart;
    var k := Split(PRICE_WHOLE, PRICE_FRACTION, t);
    PriceWhole(t[..k]);
    PriceFraction(t[k..]);
    var decimals := FractionOf(t[k..]);
    WholePattern(t[..k]);
    WholePartOf(t[..k], decimals);
    DecimalMatches(t[..k], decimals);
    assert t == t[..k] + PrintFraction(decimals);
    DecimalIsThePattern(t);
    assert |decimals| <= 2 by { FractionLength(decimals); }
  }

  lemma FractionLength(fraction: Text)
    ensures |PrintFraction(fraction)| <= 3 ==> |fraction| <= 2
    ensures |fraction| <= 2 ==> |PrintFraction(fraction)| <= 3
  {
  }

  lemma PriceMatches(t: Text)
    requires RegistrarPrice.IsPrice(t)
    ensures Matches(PRICE, t)
  {
    hide Matches, WHOLE, AllDigits, PRICE_WHOLE, PRICE_FRACTION, FRACTION,
         CurrencyArithmetic.WholePart, CurrencyArithmetic.FractionPart;
    DecimalIsThePattern(t);
    var whole, fraction := DecimalParts(t);
    WholePattern(whole);
    WholePartOf(whole, fraction);
    PriceWhole(whole);
    FractionLength(fraction);
    OptionalOf(FRACTION, PrintFraction(fraction));
    PrintedFraction(fraction);
    PriceFraction(PrintFraction(fraction));
    Joined(PRICE_WHOLE, PRICE_FRACTION, whole, PrintFraction(fraction));
  }

  lemma PrintedFraction(fraction: Text)
    requires AllDigits(fraction)
    ensures Matches(Optional(FRACTION), PrintFraction(fraction))
  {
    hide Matches;
    OptionalOf(FRACTION, PrintFraction(fraction));
    FractionPattern(PrintFraction(fraction));
  }

  /** A price in a registrar's answer. */
  lemma PriceIsThePattern(t: Text)
    ensures RegistrarPrice.IsPrice(t) <==> Matches(PRICE, t)
  {
    if Matches(PRICE, t) { PriceRead(t); }
    if RegistrarPrice.IsPrice(t) { PriceMatches(t); }
  }
}
