/**
 What decides a conversion, check by check and in exact numbers: which rates and amounts are refused, in
 which order, and from which amount on a result no longer fits.
 */
module CurrencyDecisions {
  import opened CodeUnits
  import opened CurrencyArithmetic
  import opened JsonGrammar
  import opened NumberPatterns
  import opened NumberTheory
  import opened Options
  import Patterns
  import PatternFacts

  // ----- numbers in digits --------------------------------------------------------------------

  /** The number of a run of digits, from its first digit on. */
  function Value(digits: Text): nat
    requires AllDigits(digits)
  {
    if digits == [] then 0 else (digits[0] - '0' as int) * Pow10(|digits| - 1) + Value(digits[1..])
  }

  lemma {:induction false} ValueSnoc(front: Text, u: CodeUnit)
    requires AllDigits(front + [u])
    ensures AllDigits(front) && Value(front + [u]) == 10 * Value(front) + (u - '0' as int)
  {
    var all := front + [u];
    assert IsDigit(all[|front|]);
    forall i | 0 <= i < |front| ensures IsDigit(front[i]) { assert all[i] == front[i]; }
    if front == [] {
      assert all[1..] == [];
    } else {
      assert all[1..] == front[1..] + [u];
      ValueSnoc(front[1..], u);
      var d := front[0] - '0' as int;
      assert d * Pow10(|front|) == 10 * (d * Pow10(|front| - 1));
    }
  }

  lemma {:induction false} NatOfIsTheValue(digits: Text)
    requires AllDigits(digits)
    ensures NatOf(digits) == Value(digits)
    decreases |digits|
  {
    if digits != [] {
      var front, last := digits[..|digits| - 1], digits[|digits| - 1];
      assert digits == front + [last];
      ValueSnoc(front, last);
      NatOfIsTheValue(front);
    }
  }

  lemma {:induction false} ZeroIsAllZeros(digits: Text)
    requires AllDigits(digits)
    ensures Value(digits) == 0 <==> forall i | 0 <= i < |digits| :: digits[i] == '0' as int
  {
    if digits != [] {
      ZeroIsAllZeros(digits[1..]);
      assert forall i | 0 < i < |digits| :: digits[1..][i - 1] == digits[i];
      assert IsDigit(digits[0]);
      if digits[0] != '0' as int { ProductIsPositive(digits[0] - '0' as int, Pow10(|digits| - 1)); }
    }
  }

  // ----- decimal rates ------------------------------------------------------------------------

  /**
   A rate is refused for its shape, then for more than 64 digits before the point or 32 after it, then for
   being zero; any other is the number that its digits say.
   */
  lemma RateDecides(t: Text, whole: Text, fraction: Text)
    requires Patterns.Matches(WHOLE, whole) && AllDigits(fraction) && t == whole + PrintFraction(fraction)
    ensures AllDigits(whole)
    ensures Classify(t) ==
      if |t| > 97 then Some(InvalidInput)
      else if |whole| > 64 || |fraction| > 32 then Some(RateExceedsLimits)
      else if forall i | 0 <= i < |whole + fraction| :: (whole + fraction)[i] == '0' as int then Some(RateNotPositive)
      else None
    ensures Classify(t).None? ==> DecimalValue(t) == Ratio(Value(whole + fraction), Pow10(|fraction|))
  {
    hide Patterns.Matches, WHOLE, AllDigits, WholePart, FractionPart, PointIndex, Value, NatOf;
    WholePattern(whole);
    DecimalMatches(whole, fraction);
    PatternFacts.DecimalIsThePattern(t);
    PatternFacts.WholePartOf(whole, fraction);
    DigitsJoin(whole, fraction);
    NatOfIsTheValue(whole + fraction);
    ZeroIsAllZeros(whole + fraction);
  }

  lemma DigitsJoin(a: Text, b: Text)
    requires AllDigits(a) && AllDigits(b)
    ensures AllDigits(a + b)
  {
  }

  lemma OtherRatesRefused(t: Text)
    requires !Patterns.Matches(DECIMAL, t)
    ensures Classify(t) == Some(InvalidInput)
  {
    hide Patterns.Matches;
    PatternFacts.DecimalIsThePattern(t);
  }

  // ----- conversions --------------------------------------------------------------------------

  ghost predicate Defines(d: Definition, r: Reference) {
    d.code == r.code && d.version == r.version
  }

  /** The amounts and ratios the schema lets through. */
  ghost predicate InputOk(input: Input) {
    && input.amount <= 9_223_372_036_854_775_807
    && (input.rate.Some? ==>
          && 1 <= input.rate.value.ratio.numerator <= Pow10(96) - 1
          && 1 <= input.rate.value.ratio.denominator <= Pow10(96) - 1)
  }

  ghost predicate ContextOk(ds: seq<Definition>) {
    && 1 <= |ds| <= 32
    && (forall d | d in ds :: d.exponent <= 4)
    && forall i, j | 0 <= i < |ds| && 0 <= j < |ds| && ds[i].code == ds[j].code && ds[i].version == ds[j].version :: i == j
  }

  /** The exact result rounds to more than PostgreSQL's BIGINT holds. */
  ghost predicate TooMuch(amount: nat, rate: Ratio, source: nat, target: nat) {
    2 * (amount * (rate.numerator * Pow10(target))) >= (2 * 9_223_372_036_854_775_807 + 1) * (rate.denominator * Pow10(source))
  }

  /** Rounding passes a bound exactly from the middle after it on, and at that middle when the bound is odd. */
  lemma RoundsAbove(n: nat, d: nat, bound: nat)
    requires d > 0 && bound % 2 == 1
    ensures HalfEven(n, d) > bound <==> 2 * n >= (2 * bound + 1) * d
  {
    var x := HalfEven(n, d);
    HalfEvenIsNearest(n, d);
    NearestBounds(n, d, x);
    assert (2 * bound + 1) * d == 2 * (bound * d) + d;
    if x > bound {
      ProductGap(x, bound, d);
    } else if 2 * n >= (2 * bound + 1) * d {
      if x < bound { ProductGap(bound, x, d); }
    }
  }

  lemma TooMuchRounds(amount: nat, rate: Ratio, source: nat, target: nat)
    requires Positive(rate)
    ensures TooMuch(amount, rate, source, target)
        <==> ConvertedAmount(amount, rate, source, target) > 9_223_372_036_854_775_807
  {
    hide HalfEven;
    ProductIsPositive(rate.denominator, Pow10(source));
    RoundsAbove(amount * (rate.numerator * Pow10(target)), rate.denominator * Pow10(source), 9_223_372_036_854_775_807);
  }

  lemma {:induction false} ResolvedIs(ds: seq<Definition>, r: Reference, d: Definition)
    requires ContextOk(ds) && d in ds && Defines(d, r)
    ensures Resolve(ds, r) == Some(d)
  {
    var e := Resolve(ds, r).value;
    var i :| 0 <= i < |ds| && ds[i] == d;
    var j :| 0 <= j < |ds| && ds[j] == e;
  }

  lemma ContextsAgree(ds: seq<Definition>)
    ensures ContextOk(ds) <==> ValidContext(ds)
  {
    if ContextOk(ds) {
      forall i | 0 <= i < |ds| ensures ds[i].exponent <= 4 { assert ds[i] in ds; }
    }
  }

  /** Refused for a malformed input or context, and for a currency that the context does not define. */
  lemma RefusedEarly(input: Input, ds: seq<Definition>)
    ensures !InputOk(input) || !ContextOk(ds) ==> Refusal(input, ds) == Some(InvalidInput)
    ensures InputOk(input) && ContextOk(ds)
            && !((exists d | d in ds :: Defines(d, input.source)) && (exists d | d in ds :: Defines(d, input.target))) ==>
      Refusal(input, ds) == Some(MetadataMissing)
  {
    hide Resolve, ConvertedAmount;
    ContextsAgree(ds);
  }

  /**
   Between two defined currencies: the same one needs the same version and no rate; different ones need the
   rate between them, and a result that fits.
   */
  lemma RefusalDecides(input: Input, ds: seq<Definition>, source: Definition, target: Definition)
    requires InputOk(input) && ContextOk(ds)
    requires source in ds && Defines(source, input.source) && target in ds && Defines(target, input.target)
    ensures Resolve(ds, input.source) == Some(source) && Resolve(ds, input.target) == Some(target)
    ensures Refusal(input, ds) ==
      if input.source.code == input.target.code then
        if input.source.version == input.target.version && input.rate == None then None else Some(IdentityMismatch)
      else if input.rate == None then Some(RateMismatch)
      else
        var rate := input.rate.value;
        if rate.source != input.source.code || rate.target != input.target.code then Some(RateMismatch)
        else if TooMuch(input.amount, rate.ratio, source.exponent, target.exponent) then Some(AmountOutOfRange)
        else None
  {
    hide Resolve, ConvertedAmount, TooMuch;
    ContextsAgree(ds);
    ResolvedIs(ds, input.source, source);
    ResolvedIs(ds, input.target, target);
    if input.rate.Some? && input.source.code != input.target.code {
      TooMuchRounds(input.amount, input.rate.value.ratio, source.exponent, target.exponent);
    }
  }

  /** A converted amount is an integer nearest to the exact one, and the even one of two. */
  lemma AmountDecides(amount: nat, rate: Ratio, source: nat, target: nat, x: int)
    requires Positive(rate)
    ensures var n, d := amount * (rate.numerator * Pow10(target)), rate.denominator * Pow10(source);
      x == ConvertedAmount(amount, rate, source, target) <==>
      0 - d <= 2 * (x * d - n) <= d && (2 * (x * d - n) == d || 2 * (n - x * d) == d ==> x % 2 == 0)
  {
    hide HalfEven;
    var n, d := amount * (rate.numerator * Pow10(target)), rate.denominator * Pow10(source);
    ProductIsPositive(rate.denominator, Pow10(source));
    HalfEvenIsTheNearest(n, d, x);
  }
}
