/**
 Exact currency arithmetic: decimal rates, lowest terms and half-even conversion of minor units.
 */
module CurrencyArithmetic {
  import opened CodeUnits
  import opened NumberTheory
  import opened Options

  const POSTGRES_BIGINT_MAX: nat := 9_223_372_036_854_775_807
  const RATIO_DIGITS: nat := 96
  const DECIMAL_WHOLE_DIGITS: nat := 64
  const DECIMAL_FRACTION_DIGITS: nat := 32
  const DECIMAL_TOKEN_LENGTH: nat := 97
  const MAX_DEFINITIONS: nat := 32
  const MAX_EXPONENT: nat := 4

  datatype Result<+T> = Success(value: T) | Failure(error: Error)

  datatype Error =
    | InvalidInput
    | RateExceedsLimits
    | RateNotPositive
    | MetadataMissing
    | IdentityMismatch
    | RateMismatch
    | AmountOutOfRange

  // ----- greatest common divisor --------------------------------------------------------------

  method GreatestCommonDivisor(left: nat, right: nat) returns (divisor: nat)
    ensures divisor == Gcd(left, right)
    ensures Divides(divisor, left) && Divides(divisor, right)
    ensures forall d: nat | Divides(d, left) && Divides(d, right) :: Divides(d, divisor)
  {
    var a, b := left, right;
    while b != 0
      invariant Gcd(a, b) == Gcd(left, right)
      decreases b
    {
      a, b := b, a % b;
    }
    GcdIsGreatest(left, right);
    return a;
  }

  method ReducedRatio(numerator: nat, denominator: nat) returns (ratio: Ratio)
    requires numerator > 0 && denominator > 0
    ensures ratio == Reduced(numerator, denominator)
    ensures InLowestTerms(ratio) && SameValue(ratio, Ratio(numerator, denominator))
  {
    var divisor := GreatestCommonDivisor(numerator, denominator);
    GcdPositive(numerator, denominator);
    ReducedIsLowest(numerator, denominator);
    ratio := Ratio(numerator / divisor, denominator / divisor);
  }

  function Pow10(n: nat): (p: nat)
    ensures p > 0
  {
    if n == 0 then 1 else 10 * Pow10(n - 1)
  }

  /** A ratio whose parts are written with 1 to 96 digits and no leading zero. */
  predicate ValidRatio(r: Ratio) {
    0 < r.numerator < Pow10(RATIO_DIGITS) && 0 < r.denominator < Pow10(RATIO_DIGITS)
  }

  function NormalizeExactRatio(r: Ratio): Result<Ratio> {
    if !ValidRatio(r) then Failure(InvalidInput) else Success(Reduced(r.numerator, r.denominator))
  }

  /** Two accepted ratios normalize alike exactly when they are the same number. */
  lemma NormalFormIsTheValue(r: Ratio, s: Ratio)
    requires NormalizeExactRatio(r).Success? && NormalizeExactRatio(s).Success?
    ensures NormalizeExactRatio(r) == NormalizeExactRatio(s) <==> SameValue(r, s)
    ensures InLowestTerms(NormalizeExactRatio(r).value) && SameValue(NormalizeExactRatio(r).value, r)
  {
    ReducedIsCanonical(r, s);
    ReducedIsLowest(r.numerator, r.denominator);
  }

  // ----- exact decimal rates ------------------------------------------------------------------

  /** BigInt of a run of digits. */
  function NatOf(digits: Text): nat
    requires AllDigits(digits)
  {
    if digits == [] then 0 else NatOf(digits[..|digits| - 1]) * 10 + (digits[|digits| - 1] - ZERO)
  }

  /** The position of the decimal point, or the length of the token. */
  function PointIndex(token: Text): (i: nat)
    ensures i <= |token| && (i < |token| ==> token[i] == POINT)
    ensures forall j | 0 <= j < i :: token[j] != POINT
  {
    if token == [] || token[0] == POINT then 0 else 1 + PointIndex(token[1..])
  }

  function WholePart(token: Text): Text {
    token[..PointIndex(token)]
  }

  function FractionPart(token: Text): Text {
    if PointIndex(token) == |token| then [] else token[PointIndex(token) + 1..]
  }

  /** The token schema: `0` or digits without a leading zero, then optionally a point and digits. */
  predicate IsDecimalToken(token: Text) {
    var whole := WholePart(token);
    && |token| <= DECIMAL_TOKEN_LENGTH
    && whole != [] && AllDigits(whole) && (whole[0] == ZERO ==> |whole| == 1)
    && AllDigits(FractionPart(token))
    && (PointIndex(token) < |token| ==> FractionPart(token) != [])
  }

  /** The digits of the token without its point, and the number they make. */
  function DecimalNumerator(token: Text): nat
    requires IsDecimalToken(token)
  {
    NatOf(WholePart(token) + FractionPart(token))
  }

  /** The rational number a token denotes. */
  function DecimalValue(token: Text): Ratio
    requires IsDecimalToken(token)
  {
    Ratio(DecimalNumerator(token), Pow10(|FractionPart(token)|))
  }

  method ParseExactDecimalRate(token: Text) returns (rate: Result<Ratio>)
    ensures rate == match Classify(token) case Some(error) => Failure(error)
                                          case None => Success(Reduced(DecimalNumerator(token), Pow10(|FractionPart(token)|)))
    ensures rate.Success? ==> InLowestTerms(rate.value) && SameValue(rate.value, DecimalValue(token))
  {
    if !IsDecimalToken(token) { return Failure(InvalidInput); }
    var whole, fraction := WholePart(token), FractionPart(token);
    if |whole| > DECIMAL_WHOLE_DIGITS || |fraction| > DECIMAL_FRACTION_DIGITS { return Failure(RateExceedsLimits); }
    var numerator := NatOf(whole + fraction);
    if numerator == 0 { return Failure(RateNotPositive); }
    var ratio := ReducedRatio(numerator, Pow10(|fraction|));
    return Success(ratio);
  }

  /** Which tokens are refused, and why. */
  function Classify(token: Text): (refusal: Option<Error>)
    ensures refusal.None? ==> IsDecimalToken(token) && DecimalNumerator(token) > 0
  {
    if !IsDecimalToken(token) then Some(InvalidInput)
    else if |WholePart(token)| > DECIMAL_WHOLE_DIGITS || |FractionPart(token)| > DECIMAL_FRACTION_DIGITS then
      Some(RateExceedsLimits)
    else if DecimalNumerator(token) == 0 then Some(RateNotPositive)
    else None
  }

  /** Two accepted tokens give the same ratio exactly when they denote the same number. */
  lemma DecimalRateIsTheValue(s: Text, t: Text)
    requires Classify(s).None? && Classify(t).None?
    ensures var r, q := DecimalValue(s), DecimalValue(t);
      Reduced(r.numerator, r.denominator) == Reduced(q.numerator, q.denominator) <==> SameValue(r, q)
  {
    ReducedIsCanonical(DecimalValue(s), DecimalValue(t));
  }

  lemma PointIndexIs(token: Text, i: nat)
    requires i < |token| && token[i] == POINT && forall j | 0 <= j < i :: token[j] != POINT
    ensures PointIndex(token) == i
  {
  }

  lemma AppendedSlices<T>(t: seq<T>, z: T, i: nat)
    requires i < |t|
    ensures (t + [z])[..i] == t[..i] && (t + [z])[i + 1..] == t[i + 1..] + [z]
    ensures forall j | 0 <= j <= i :: (t + [z])[j] == t[j]
  {
  }

  lemma AppendedZero(token: Text)
    requires PointIndex(token) < |token|
    ensures WholePart(token + [ZERO]) == WholePart(token)
    ensures FractionPart(token + [ZERO]) == FractionPart(token) + [ZERO]
    ensures PointIndex(token + [ZERO]) == PointIndex(token)
  {
    hide PointIndex;
    var i := PointIndex(token);
    AppendedSlices(token, ZERO, i);
    PointIndexIs(token + [ZERO], i);
  }

  lemma NatOfAppendedZero(digits: Text)
    requires AllDigits(digits)
    ensures AllDigits(digits + [ZERO]) && NatOf(digits + [ZERO]) == 10 * NatOf(digits)
  {
  }

  /** A trailing zero changes the token and not the rate. */
  lemma TrailingZero(token: Text)
    requires Classify(token).None? && PointIndex(token) < |token| && |FractionPart(token)| < DECIMAL_FRACTION_DIGITS
    requires |token| < DECIMAL_TOKEN_LENGTH
    ensures Classify(token + [ZERO]).None? && SameValue(DecimalValue(token + [ZERO]), DecimalValue(token))
  {
    hide PointIndex, WholePart, FractionPart, NatOf, Pow10;
    var longer := token + [ZERO];
    AppendedZero(token);
    var whole, fraction := WholePart(token), FractionPart(token);
    assert whole + (fraction + [ZERO]) == whole + fraction + [ZERO];
    NatOfAppendedZero(whole + fraction);
    assert DecimalNumerator(longer) == 10 * DecimalNumerator(token);
    TenTimes(DecimalNumerator(token), |fraction|);
  }

  lemma TenTimes(n: nat, k: nat)
    ensures (10 * n) * Pow10(k) == n * Pow10(k + 1)
  {
  }

  // ----- half-even rounding -------------------------------------------------------------------

  function HalfEven(n: nat, d: nat): nat
    requires d > 0
  {
    var quotient := n / d;
    var remainder := n % d;
    if remainder * 2 > d || (remainder * 2 == d && quotient % 2 == 1) then quotient + 1 else quotient
  }

  /** Twice the distance of x from n/d, times d. */
  function Gap(n: nat, d: nat, x: int): int {
    if x * d >= n then 2 * (x * d - n) else 2 * (n - x * d)
  }

  /** x is an integer nearest to n/d, and the even one of two. */
  predicate NearestEven(n: nat, d: nat, x: int) {
    Gap(n, d, x) <= d && (Gap(n, d, x) == d ==> x % 2 == 0)
  }

  lemma HalfEvenIsNearest(n: nat, d: nat)
    requires d > 0
    ensures NearestEven(n, d, HalfEven(n, d))
  {
  }

  /** No other integer is: the rounding rule determines the result. */
  lemma HalfEvenIsTheNearest(n: nat, d: nat, x: int)
    requires d > 0
    ensures NearestEven(n, d, x) <==> x == HalfEven(n, d)
  {
    var y := HalfEven(n, d);
    HalfEvenIsNearest(n, d);
    if NearestEven(n, d, x) && x != y {
      if x < y { NeighboursTie(n, d, x, y); } else { NeighboursTie(n, d, y, x); }
    }
  }

  lemma NeighboursTie(n: nat, d: nat, x: int, y: int)
    requires d > 0 && x < y && Gap(n, d, x) <= d && Gap(n, d, y) <= d
    ensures y == x + 1 && Gap(n, d, x) == d && Gap(n, d, y) == d
  {
    assert (x + 1) * d == x * d + d;
    if y > x + 1 { ProductGap(y, x + 1, d); }
  }

  lemma SignOfProduct(k: int, d: nat)
    requires k >= 0
    ensures k * d >= 0
  {
  }

  /** Rounding sees the quotient only: a common factor of numerator and divisor cancels. */
  lemma HalfEvenCancels(n: nat, d: nat, k: nat)
    requires d > 0 && k > 0
    ensures k * d > 0 && HalfEven(k * n, k * d) == HalfEven(n, d)
  {
    var x := HalfEven(n, d);
    HalfEvenIsNearest(n, d);
    assert x * (k * d) == k * (x * d);
    var gap := Gap(n, d, x);
    assert Gap(k * n, k * d, x) == k * gap by {
      if x * d >= n { ScaleDifference(k, x * d, n); } else { ScaleDifference(k, n, x * d); }
    }
    ScaleOrder(k, gap, d);
    HalfEvenIsTheNearest(k * n, k * d, x);
  }

  lemma ScaleDifference(k: nat, a: nat, b: nat)
    requires a >= b
    ensures k * a >= k * b && 2 * (k * a - k * b) == k * (2 * (a - b))
  {
  }

  lemma ScaleOrder(k: nat, a: int, b: int)
    requires k > 0 && a <= b
    ensures k * a <= k * b && (k * a == k * b ==> a == b)
  {
  }

  /** Equal rates round equally, however they are written. */
  lemma HalfEvenOfValue(r: Ratio, s: Ratio)
    requires Positive(r) && Positive(s) && SameValue(r, s)
    ensures HalfEven(r.numerator, r.denominator) == HalfEven(s.numerator, s.denominator)
  {
    HalfEvenCancels(r.numerator, r.denominator, s.denominator);
    HalfEvenCancels(s.numerator, s.denominator, r.denominator);
    assert s.denominator * r.numerator == r.denominator * s.numerator;
    assert s.denominator * r.denominator == r.denominator * s.denominator;
  }

  /** x/1 times d lies within half of d of n. */
  lemma NearestBounds(n: nat, d: nat, x: int)
    requires Gap(n, d, x) <= d
    ensures 0 - d <= 2 * (x * d - n) <= d
  {
  }

  lemma ProductGap(x: int, y: int, d: nat)
    requires x >= y + 1
    ensures x * d >= y * d + d
  {
    assert x * d == y * d + (x - y) * d;
    assert (x - y) * d == d + (x - y - 1) * d;
    SignOfProduct(x - y - 1, d);
  }

  lemma HalfEvenIsMonotone(m: nat, n: nat, d: nat)
    requires d > 0 && m <= n
    ensures HalfEven(m, d) <= HalfEven(n, d)
  {
    hide HalfEven, Gap;
    var x, y := HalfEven(m, d), HalfEven(n, d);
    HalfEvenIsNearest(m, d);
    HalfEvenIsNearest(n, d);
    NearestBounds(m, d, x);
    NearestBounds(n, d, y);
    if y < x {
      ProductGap(x, y, d);
      var p, q := x * d, y * d;
      assert m == n;
    }
  }

  lemma HalfEvenIsNearlyAdditive(m: nat, n: nat, d: nat)
    requires d > 0
    ensures -1 <= HalfEven(m + n, d) - (HalfEven(m, d) + HalfEven(n, d)) <= 1
  {
    hide HalfEven, Gap;
    var x, y, z := HalfEven(m, d), HalfEven(n, d), HalfEven(m + n, d);
    HalfEvenIsNearest(m, d);
    HalfEvenIsNearest(n, d);
    HalfEvenIsNearest(m + n, d);
    NearestBounds(m, d, x);
    NearestBounds(n, d, y);
    NearestBounds(m + n, d, z);
    NearlyAdditive(m, n, d, x, y, z);
  }

  lemma NearlyAdditive(m: nat, n: nat, d: nat, x: int, y: int, z: int)
    requires d > 0 && 0 - d <= 2 * (x * d - m) <= d && 0 - d <= 2 * (y * d - n) <= d && 0 - d <= 2 * (z * d - m - n) <= d
    ensures -1 <= z - (x + y) <= 1
  {
    assert (x + y + 1) * d == x * d + y * d + d;
    assert (z + 1) * d == z * d + d;
    if z > x + y + 1 { ProductGap(z, x + y + 1, d); }
    assert (x + y) * d == x * d + y * d;
    if x + y > z + 1 { ProductGap(x + y, z + 1, d); }
  }

  /** Converting out at a scale of at least one and back again loses nothing. */
  lemma HalfEvenRoundTrip(a: nat, n: nat, d: nat)
    requires 0 < d <= n
    ensures HalfEven(HalfEven(a * n, d) * d, n) == a
  {
    hide HalfEven;
    var x := HalfEven(a * n, d);
    HalfEvenIsNearest(a * n, d);
    var there, back := a * n, x * d;
    assert Gap(back, n, a) == Gap(there, d, x);
    if Gap(back, n, a) == n {
      // then d is n, and twice a multiple of n would be n itself
      OddMultiple(a, x, n);
    }
    HalfEvenIsTheNearest(back, n, a);
  }

  lemma OddMultiple(a: int, x: int, n: nat)
    requires n > 0
    ensures 2 * (a * n - x * n) != n && 2 * (x * n - a * n) != n
  {
    if a > x { ProductGap(a, x, n); }
    if x > a { ProductGap(x, a, n); }
  }

  // ----- conversion of minor units ------------------------------------------------------------

  datatype Definition = Definition(code: string, version: string, exponent: nat, provenance: string, current: bool)

  datatype Reference = Reference(code: string, version: string)

  datatype DirectedRate = DirectedRate(ratio: Ratio, source: string, target: string)

  datatype Input = Input(amount: nat, source: Reference, target: Reference, rate: Option<DirectedRate>)

  datatype Converted = Converted(
    identity: bool, amount: nat, source: Definition, target: Definition, rate: Option<DirectedRate>,
    quotient: nat, remainder: nat, divisor: nat, incremented: bool)

  predicate Matches(d: Definition, r: Reference) {
    d.code == r.code && d.version == r.version
  }

  predicate ValidContext(definitions: seq<Definition>) {
    && 0 < |definitions| <= MAX_DEFINITIONS
    && (forall i | 0 <= i < |definitions| :: definitions[i].exponent <= MAX_EXPONENT)
    && forall i, j | 0 <= i < j < |definitions| ::
         definitions[i].code != definitions[j].code || definitions[i].version != definitions[j].version
  }

  predicate ValidInput(input: Input) {
    input.amount <= POSTGRES_BIGINT_MAX && (input.rate.Some? ==> ValidRatio(input.rate.value.ratio))
  }

  /** The definition a reference names. */
  function Resolve(definitions: seq<Definition>, reference: Reference): (d: Option<Definition>)
    ensures d.Some? ==> d.value in definitions && Matches(d.value, reference)
    ensures d.None? ==> forall e | e in definitions :: !Matches(e, reference)
  {
    if definitions == [] then None
    else if Matches(definitions[0], reference) then Some(definitions[0])
    else Resolve(definitions[1..], reference)
  }

  /** amount * rate * 10^(target exponent - source exponent), to the nearest integer, ties to even. */
  function ConvertedAmount(amount: nat, rate: Ratio, source: nat, target: nat): nat
    requires Positive(rate)
  {
    ProductIsPositive(rate.denominator, Pow10(source));
    HalfEven(amount * (rate.numerator * Pow10(target)), rate.denominator * Pow10(source))
  }

  lemma ProductIsPositive(m: nat, n: nat)
    requires m > 0 && n > 0
    ensures m * n > 0
  {
  }

  /** Why an input is refused, in the order of the checks; None when a conversion or identity goes through. */
  function Refusal(input: Input, definitions: seq<Definition>): Option<Error> {
    if !ValidInput(input) || !ValidContext(definitions) then Some(InvalidInput)
    else
      match (Resolve(definitions, input.source), Resolve(definitions, input.target))
      case (Some(source), Some(target)) =>
        if source.code == target.code then
          if source.version != target.version || input.rate.Some? then Some(IdentityMismatch) else None
        else if input.rate.None? || input.rate.value.source != source.code || input.rate.value.target != target.code then
          Some(RateMismatch)
        else if ConvertedAmount(input.amount, input.rate.value.ratio, source.exponent, target.exponent) > POSTGRES_BIGINT_MAX then
          Some(AmountOutOfRange)
        else None
      case _ => Some(MetadataMissing)
  }

  lemma DivMod(n: nat, d: nat)
    requires d > 0
    ensures (n / d) * d + n % d == n && n % d < d
  {
  }

  /** The rounding of an exact quotient, with the division it is based on. */
  method RoundHalfEven(numerator: nat, divisor: nat) returns (quotient: nat, remainder: nat, incremented: bool, rounded: nat)
    requires divisor > 0
    ensures quotient * divisor + remainder == numerator && remainder < divisor
    ensures rounded == quotient + (if incremented then 1 else 0)
    ensures NearestEven(numerator, divisor, rounded) && rounded == HalfEven(numerator, divisor)
  {
    hide NearestEven;
    DivMod(numerator, divisor);
    quotient, remainder := numerator / divisor, numerator % divisor;
    incremented := remainder * 2 > divisor || (remainder * 2 == divisor && quotient % 2 == 1);
    rounded := quotient + if incremented then 1 else 0;
    HalfEvenIsNearest(numerator, divisor);
  }

  /** What a conversion between two different currencies must deliver. */
  predicate IsConversion(c: Converted, amount: nat, given: Ratio)
    requires Positive(given)
  {
    // the rate counts as it was given, reduced or not
    && c.amount == ConvertedAmount(amount, given, c.source.exponent, c.target.exponent)
    // the recorded rate is that number in lowest terms
    && c.rate.Some? && InLowestTerms(c.rate.value.ratio) && SameValue(c.rate.value.ratio, given)
    // the recorded division explains the amount
    && c.remainder < c.divisor && c.amount == c.quotient + (if c.incremented then 1 else 0)
    && c.quotient * c.divisor + c.remainder == amount * c.rate.value.ratio.numerator * Pow10(c.target.exponent)
  }

  method Convert(amount: nat, given: Ratio, source: Definition, target: Definition) returns (c: Converted)
    requires Positive(given)
    ensures IsConversion(c, amount, given) && c.source == source && c.target == target && !c.identity
  {
    hide HalfEven, SameValue, InLowestTerms, Pow10, ConvertedAmount;
    var ratio := ReducedRatio(given.numerator, given.denominator);
    LowestIsPositive(ratio);
    var numerator := amount * ratio.numerator * Pow10(target.exponent);
    var divisor := ratio.denominator * Pow10(source.exponent);
    ProductIsPositive(ratio.denominator, Pow10(source.exponent));
    var quotient, remainder, incremented, rounded := RoundHalfEven(numerator, divisor);
    AmountIs(amount, ratio, source.exponent, target.exponent);
    ConversionSeesTheValue(amount, ratio, given, source.exponent, target.exponent);
    c := Converted(false, rounded, source, target, Some(DirectedRate(ratio, source.code, target.code)),
                   quotient, remainder, divisor, incremented);
  }

  lemma AmountIs(amount: nat, r: Ratio, source: nat, target: nat)
    requires Positive(r)
    ensures r.denominator * Pow10(source) > 0
    ensures ConvertedAmount(amount, r, source, target)
         == HalfEven(amount * r.numerator * Pow10(target), r.denominator * Pow10(source))
  {
    hide HalfEven, Pow10;
    ProductIsPositive(r.denominator, Pow10(source));
    MulAssoc(amount, r.numerator, Pow10(target));
  }

  lemma MulAssoc(a: nat, b: nat, c: nat)
    ensures a * b * c == a * (b * c)
  {
  }

  lemma LowestIsPositive(r: Ratio)
    requires InLowestTerms(r)
    ensures Positive(r)
  {
  }

  method ConvertCurrencyMinorUnits(input: Input, definitions: seq<Definition>) returns (result: Result<Converted>)
    // refused exactly when a check fails, the range check on the exact rounded amount included
    ensures var refusal := Refusal(input, definitions);
      if refusal.Some? then result == Failure(refusal.value) else result.Success?
    ensures result.Success? ==>
              var c := result.value;
              && Some(c.source) == Resolve(definitions, input.source) && Some(c.target) == Resolve(definitions, input.target)
              && c.amount <= POSTGRES_BIGINT_MAX
              && (c.identity <==> c.source.code == c.target.code)
              && (c.identity ==> c.amount == input.amount && c.rate.None?)
              && (!c.identity ==> IsConversion(c, input.amount, input.rate.value.ratio))
  {
    hide ConvertedAmount, SameValue, InLowestTerms;
    if !ValidInput(input) || !ValidContext(definitions) { return Failure(InvalidInput); }
    var source, target := Resolve(definitions, input.source), Resolve(definitions, input.target);
    if source.None? || target.None? { return Failure(MetadataMissing); }
    if source.value.code == target.value.code {
      if source.value.version != target.value.version || input.rate.Some? { return Failure(IdentityMismatch); }
      return Success(Converted(true, input.amount, source.value, target.value, None, input.amount, 0, 1, false));
    }
    if input.rate.None? || input.rate.value.source != source.value.code || input.rate.value.target != target.value.code {
      return Failure(RateMismatch);
    }
    var c := Convert(input.amount, input.rate.value.ratio, source.value, target.value);
    if c.amount > POSTGRES_BIGINT_MAX { return Failure(AmountOutOfRange); }
    return Success(c);
  }

  /** The amount depends on the number the rate is, not on how it is written. */
  lemma ConversionSeesTheValue(amount: nat, r: Ratio, s: Ratio, source: nat, target: nat)
    requires Positive(r) && Positive(s) && SameValue(r, s)
    ensures ConvertedAmount(amount, r, source, target) == ConvertedAmount(amount, s, source, target)
  {
    var up, down := Pow10(target), Pow10(source);
    ProductIsPositive(r.denominator, down);
    ProductIsPositive(s.denominator, down);
    if amount == 0 {
      assert amount * (r.numerator * up) == 0 == amount * (s.numerator * up);
    } else {
      var x := Ratio(amount * (r.numerator * up), r.denominator * down);
      var y := Ratio(amount * (s.numerator * up), s.denominator * down);
      ProductIsPositive(r.numerator, up);
      ProductIsPositive(s.numerator, up);
      ProductIsPositive(amount, r.numerator * up);
      ProductIsPositive(amount, s.numerator * up);
      Rearrange(amount, r.numerator, up, s.denominator, down);
      Rearrange(amount, s.numerator, up, r.denominator, down);
      HalfEvenOfValue(x, y);
    }
  }

  lemma Rearrange(a: nat, n: nat, u: nat, d: nat, w: nat)
    ensures (a * (n * u)) * (d * w) == (n * d) * (a * u * w)
  {
  }

  /** More money never converts to less. */
  lemma ConversionIsMonotone(a: nat, b: nat, r: Ratio, source: nat, target: nat)
    requires Positive(r) && a <= b
    ensures ConvertedAmount(a, r, source, target) <= ConvertedAmount(b, r, source, target)
  {
    var scale := r.numerator * Pow10(target);
    ProductIsPositive(r.denominator, Pow10(source));
    assert b * scale == a * scale + (b - a) * scale;
    SignOfProduct(b - a, scale);
    HalfEvenIsMonotone(a * scale, b * scale, r.denominator * Pow10(source));
  }

  /** Converting a sum differs from summing the conversions by at most one minor unit. */
  lemma ConversionIsNearlyAdditive(a: nat, b: nat, r: Ratio, source: nat, target: nat)
    requires Positive(r)
    ensures -1 <= ConvertedAmount(a + b, r, source, target)
                  - (ConvertedAmount(a, r, source, target) + ConvertedAmount(b, r, source, target)) <= 1
  {
    var scale := r.numerator * Pow10(target);
    ProductIsPositive(r.denominator, Pow10(source));
    assert (a + b) * scale == a * scale + b * scale;
    HalfEvenIsNearlyAdditive(a * scale, b * scale, r.denominator * Pow10(source));
  }

  /** There at the rate and back at its reciprocal. */
  function ThereAndBack(a: nat, r: Ratio, source: nat, target: nat): nat
    requires Positive(r)
  {
    ConvertedAmount(ConvertedAmount(a, r, source, target), Ratio(r.denominator, r.numerator), target, source)
  }

  /** Exact for every amount, if exact at all amounts conversions never bring two amounts together. */
  lemma {:induction false} ExactMeansGrowing(a: nat, r: Ratio, source: nat, target: nat)
    requires Positive(r) && forall x: nat :: ThereAndBack(x, r, source, target) == x
    ensures ConvertedAmount(a, r, source, target) >= a
  {
    if a > 0 {
      ExactMeansGrowing(a - 1, r, source, target);
      ConversionIsMonotone(a - 1, a, r, source, target);
      assert ThereAndBack(a - 1, r, source, target) == a - 1 && ThereAndBack(a, r, source, target) == a;
    }
  }

  /**
   Converting back at the reciprocal rate returns every amount exactly when one source unit is worth
   at least one target unit; below that scale some amount is lost.
   */
  lemma RoundTripExactlyAtScale(r: Ratio, source: nat, target: nat)
    requires Positive(r)
    ensures (forall a: nat :: ThereAndBack(a, r, source, target) == a)
       <==> r.numerator * Pow10(target) >= r.denominator * Pow10(source)
  {
    var n, d := r.numerator * Pow10(target), r.denominator * Pow10(source);
    ProductIsPositive(r.denominator, Pow10(source));
    ProductIsPositive(r.numerator, Pow10(target));
    if n >= d {
      forall a: nat ensures ThereAndBack(a, r, source, target) == a {
        HalfEvenRoundTrip(a, n, d);
      }
    }
    if forall a: nat :: ThereAndBack(a, r, source, target) == a {
      ExactMeansGrowing(d, r, source, target);
      ExactQuotient(n, d);
    }
  }

  lemma ExactQuotient(n: nat, d: nat)
    requires d > 0
    ensures HalfEven(d * n, d) == n
  {
  }
}
