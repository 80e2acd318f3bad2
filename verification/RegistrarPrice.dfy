/**
 Registrar prices in minor units (packages/database/src/registrar/logicboxes-sandbox.ts): the exact
 characters of a price become an integer without passing through floating point.
 */
module RegistrarPrice {
  import opened CodeUnits
  import opened CurrencyArithmetic
  import opened NumberTheory
  import opened Options

  /** Up to thirteen digits without a leading zero, then at most two decimals. */
  predicate IsPrice(t: Text) {
    IsDecimalToken(t) && |WholePart(t)| <= 13 && |FractionPart(t)| <= 2
  }

  /** padEnd(2, '0'). */
  function Padded(fraction: Text): (p: Text)
    requires |fraction| <= 2
    ensures |p| == 2
  {
    if |fraction| == 2 then fraction else if |fraction| == 1 then fraction + [ZERO] else [ZERO, ZERO]
  }

  function RegistrarDecimalMinor(t: Text): Option<nat> {
    if !IsPrice(t) then None
    else
      var amount := NatOf(WholePart(t)) * 100 + NatOf(Padded(FractionPart(t)));
      if amount <= 0 then None else Some(amount)
  }

  lemma NatOfSnoc(t: Text, u: CodeUnit)
    requires AllDigits(t) && IsDigit(u)
    ensures AllDigits(t + [u]) && NatOf(t + [u]) == 10 * NatOf(t) + (u - ZERO)
  {
  }

  lemma SmallNumbers()
    ensures Pow10(0) == 1 && Pow10(1) == 10 && Pow10(2) == 100 && NatOf([]) == 0
  {
  }

  lemma OneDigit(u: CodeUnit)
    requires IsDigit(u)
    ensures NatOf([u]) == u - ZERO
  {
  }

  lemma TwoDigits(u: CodeUnit, v: CodeUnit)
    requires IsDigit(u) && IsDigit(v)
    ensures NatOf([u, v]) == 10 * (u - ZERO) + (v - ZERO)
  {
    hide NatOf;
    OneDigit(u);
    NatOfSnoc([u], v);
    assert [u] + [v] == [u, v];
  }

  lemma TwoMore(whole: Text, u: CodeUnit, v: CodeUnit)
    requires AllDigits(whole) && IsDigit(u) && IsDigit(v)
    ensures AllDigits(whole + [u, v]) && NatOf(whole + [u, v]) == 100 * NatOf(whole) + NatOf([u, v])
  {
    hide NatOf;
    NatOfSnoc(whole, u);
    NatOfSnoc(whole + [u], v);
    TwoDigits(u, v);
    assert whole + [u] + [v] == whole + [u, v];
  }

  /** A hundred times the decimal value, whatever the number of decimals. */
  lemma PaddingKeepsTheValue(whole: Text, fraction: Text)
    requires AllDigits(whole) && AllDigits(fraction) && |fraction| <= 2
    ensures AllDigits(Padded(fraction)) && AllDigits(whole + fraction)
    ensures (NatOf(whole) * 100 + NatOf(Padded(fraction))) * Pow10(|fraction|) == NatOf(whole + fraction) * 100
  {
    hide NatOf, Pow10;
    SmallNumbers();
    if fraction == [] {
      TwoDigits(ZERO, ZERO);
      assert whole + fraction == whole;
    } else if |fraction| == 1 {
      TwoDigits(fraction[0], ZERO);
      NatOfSnoc(whole, fraction[0]);
      assert fraction == [fraction[0]] && Padded(fraction) == [fraction[0], ZERO];
    } else {
      TwoMore(whole, fraction[0], fraction[1]);
      assert fraction == [fraction[0], fraction[1]];
    }
  }

  /** The minor amount is exactly a hundred times the price; only a price of zero is refused. */
  lemma MinorIsExact(t: Text)
    requires IsPrice(t)
    ensures RegistrarDecimalMinor(t).Some? <==> DecimalNumerator(t) > 0
    ensures RegistrarDecimalMinor(t).Some? ==> SameValue(Ratio(RegistrarDecimalMinor(t).value, 100), DecimalValue(t))
  {
    PaddingKeepsTheValue(WholePart(t), FractionPart(t));
    var amount := NatOf(WholePart(t)) * 100 + NatOf(Padded(FractionPart(t)));
    if amount == 0 { assert 0 * Pow10(|FractionPart(t)|) == 0; }
    if amount > 0 { Positive(amount, Pow10(|FractionPart(t)|)); }
  }

  lemma Positive(a: nat, b: nat)
    requires a > 0 && b > 0
    ensures a * b > 0
  {
  }
}
