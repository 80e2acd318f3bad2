/**
 Divisibility, Euclid's algorithm and lowest terms.
 */
module NumberTheory {

  ghost predicate Divides(d: nat, n: nat) {
    exists q: nat :: n == d * q
  }

  /** Euclid's recursion; the loop of the source is proved against it. */
  function Gcd(a: nat, b: nat): nat
    decreases b
  {
    if b == 0 then a else Gcd(b, a % b)
  }

  lemma DividesTimes(d: nat, n: nat, k: nat)
    requires Divides(d, n)
    ensures Divides(d, n * k)
  {
    var q: nat :| n == d * q;
    assert n * k == d * (q * k);
  }

  lemma DividesSum(d: nat, m: nat, n: nat)
    requires Divides(d, m) && Divides(d, n)
    ensures Divides(d, m + n)
  {
    var p: nat :| m == d * p;
    var q: nat :| n == d * q;
    assert m + n == d * (p + q);
  }

  lemma DividesDifference(d: nat, m: nat, n: nat)
    requires Divides(d, m) && Divides(d, n) && n <= m
    ensures Divides(d, m - n)
  {
    var p: nat :| m == d * p;
    var q: nat :| n == d * q;
    if d == 0 {
      assert m - n == d * 0;
    } else {
      assert p >= q by { if p < q { MulStrict(d, p, q); } }
      assert m - n == d * (p - q);
    }
  }

  lemma MulStrict(d: nat, p: nat, q: nat)
    requires d > 0 && p < q
    ensures d * p < d * q
  {
  }

  /** Gcd divides both arguments, and every common divisor divides it. */
  lemma {:induction false} GcdIsGreatest(a: nat, b: nat)
    ensures Divides(Gcd(a, b), a) && Divides(Gcd(a, b), b)
    ensures forall d: nat | Divides(d, a) && Divides(d, b) :: Divides(d, Gcd(a, b))
    decreases b
  {
    hide Divides;
    if b == 0 {
      SelfAndZero(a);
    } else {
      GcdIsGreatest(b, a % b);
      forall d: nat ensures Divides(d, a) && Divides(d, b) <==> Divides(d, b) && Divides(d, a % b) {
        EuclidStep(d, a, b);
      }
    }
  }

  lemma SelfAndZero(a: nat)
    ensures Divides(a, a) && Divides(a, 0)
  {
    assert a == a * 1 && 0 == a * 0;
  }

  /** One step keeps the common divisors. */
  lemma EuclidStep(d: nat, a: nat, b: nat)
    requires b > 0
    ensures Divides(d, a) && Divides(d, b) <==> Divides(d, b) && Divides(d, a % b)
  {
    var whole := b * (a / b);
    assert a == whole + a % b;
    if Divides(d, b) {
      DividesTimes(d, b, a / b);
      if Divides(d, a) { DividesDifference(d, a, whole); }
      if Divides(d, a % b) { DividesSum(d, whole, a % b); }
    }
  }

  lemma GcdPositive(a: nat, b: nat)
    requires a > 0 || b > 0
    ensures Gcd(a, b) > 0
    decreases b
  {
    if b > 0 { GcdPositive(b, a % b); }
  }

  /** Bezout's identity. */
  lemma {:induction false} Bezout(a: nat, b: nat) returns (x: int, y: int)
    ensures a * x + b * y == Gcd(a, b)
    decreases b
  {
    if b == 0 {
      x, y := 1, 0;
    } else {
      var u, v := Bezout(b, a % b);
      x, y := v, u - (a / b) * v;
      assert a == b * (a / b) + a % b;
      BezoutStep(a, b, a / b, a % b, u, v);
    }
  }

  lemma BezoutStep(a: nat, b: nat, q: nat, r: nat, u: int, v: int)
    requires a == b * q + r
    ensures a * v + b * (u - q * v) == b * u + r * v
  {
  }

  /** A divisor of a product that has nothing in common with one factor divides the other. */
  lemma Gauss(a: nat, b: nat, c: nat)
    requires Gcd(a, b) == 1 && a > 0 && Divides(a, b * c)
    ensures Divides(a, c)
  {
    var x, y := Bezout(a, b);
    var q: nat :| b * c == a * q;
    var k := c * x + q * y;
    GaussArithmetic(a, b, c, x, y, q);
    if k < 0 { NegativeProduct(a, k); }
    var n: nat := k;
    assert c == a * n;
  }

  lemma GaussArithmetic(a: nat, b: nat, c: nat, x: int, y: int, q: nat)
    requires a * x + b * y == 1 && b * c == a * q
    ensures c == a * (c * x + q * y)
  {
  }

  lemma NegativeProduct(a: nat, k: int)
    requires a > 0 && k < 0
    ensures a * k < 0
  {
  }

  lemma DividesBothWays(a: nat, b: nat)
    requires a > 0 && b > 0 && Divides(a, b) && Divides(b, a)
    ensures a == b
  {
  }

  lemma CancelFactor(k: nat, m: nat, n: nat)
    requires k > 0 && k * m == k * n
    ensures m == n
  {
  }

  // ----- lowest terms -------------------------------------------------------------------------

  datatype Ratio = Ratio(numerator: nat, denominator: nat)

  predicate Positive(r: Ratio) {
    r.numerator > 0 && r.denominator > 0
  }

  /** r and s are the same rational number. */
  predicate SameValue(r: Ratio, s: Ratio) {
    r.numerator * s.denominator == s.numerator * r.denominator
  }

  predicate InLowestTerms(r: Ratio) {
    Positive(r) && Gcd(r.numerator, r.denominator) == 1
  }

  function Reduced(n: nat, d: nat): Ratio
    requires n > 0 && d > 0
  {
    GcdPositive(n, d);
    Ratio(n / Gcd(n, d), d / Gcd(n, d))
  }

  lemma DivideOut(g: nat, n: nat)
    requires g > 0 && Divides(g, n)
    ensures n == g * (n / g)
  {
    var q: nat :| n == g * q;
    assert n / g == q by { DivOfProduct(g, q); }
  }

  lemma DivOfProduct(g: nat, q: nat)
    requires g > 0
    ensures (g * q) / g == q
  {
    var n := g * q;
    assert n == g * (n / g) + n % g;
    if n / g < q { MulGap(g, n / g, q); }
    if q < n / g { MulGap(g, q, n / g); }
  }

  lemma MulGap(g: nat, p: nat, q: nat)
    requires p < q
    ensures g * p + g <= g * q
  {
    assert g * q == g * p + g * (q - p);
    assert g * (q - p) == g + g * (q - p - 1);
  }

  lemma ProductPositive(g: nat, p: nat)
    requires g * p > 0
    ensures g > 0 && p > 0
  {
  }

  lemma CrossMultiply(g: nat, p: nat, q: nat)
    ensures p * (g * q) == (g * p) * q
  {
  }

  /** Nothing above 1 divides both quotients by the greatest common divisor. */
  lemma QuotientsCoprime(g: nat, p: nat, q: nat)
    requires g > 0 && p > 0 && q > 0
    requires forall d: nat | Divides(d, g * p) && Divides(d, g * q) :: Divides(d, g)
    ensures Gcd(p, q) == 1
  {
    var h := Gcd(p, q);
    GcdIsGreatest(p, q);
    GcdPositive(p, q);
    FactorInside(g, h, p);
    FactorInside(g, h, q);
    var k: nat :| g == (g * h) * k;
    assert g * 1 == g * (h * k) by { assert (g * h) * k == g * (h * k); }
    CancelFactor(g, 1, h * k);
    if h > 1 {
      ProductPositive(h, k);
      MulGap(k, 1, h);
    }
  }

  lemma FactorInside(g: nat, h: nat, p: nat)
    requires Divides(h, p)
    ensures Divides(g * h, g * p)
  {
    var a: nat :| p == h * a;
    assert g * (h * a) == (g * h) * a;
  }

  /** Dividing by the greatest common divisor keeps the value and leaves nothing in common. */
  lemma ReducedIsLowest(n: nat, d: nat)
    requires n > 0 && d > 0
    ensures InLowestTerms(Reduced(n, d)) && SameValue(Reduced(n, d), Ratio(n, d))
  {
    hide Divides;
    var g := Gcd(n, d);
    GcdPositive(n, d);
    GcdIsGreatest(n, d);
    var p, q := n / g, d / g;
    DivideOut(g, n);
    DivideOut(g, d);
    ProductPositive(g, p);
    ProductPositive(g, q);
    CrossMultiply(g, p, q);
    QuotientsCoprime(g, p, q);
  }

  /** Lowest terms are unique: equal numbers have equal numerators and denominators. */
  lemma LowestTermsUnique(r: Ratio, s: Ratio)
    requires InLowestTerms(r) && InLowestTerms(s)
    ensures SameValue(r, s) <==> r == s
  {
    if SameValue(r, s) {
      var p, q, u, v := r.numerator, r.denominator, s.numerator, s.denominator;
      assert p * v == u * q;
      GcdSymmetric(p, q);
      GcdSymmetric(u, v);
      assert q * u == p * v;
      assert Divides(p, q * u);
      Gauss(p, q, u);
      assert v * p == u * q;
      assert Divides(u, v * p);
      Gauss(u, v, p);
      DividesBothWays(p, u);
      CancelFactor(p, v, q);
    }
  }

  lemma GcdSymmetric(a: nat, b: nat)
    requires a > 0 && b > 0
    ensures Gcd(a, b) == Gcd(b, a)
  {
    GcdIsGreatest(a, b);
    GcdIsGreatest(b, a);
    GcdPositive(a, b);
    GcdPositive(b, a);
    DividesBothWays(Gcd(a, b), Gcd(b, a));
  }

  lemma SameValueTransitive(r: Ratio, s: Ratio, t: Ratio)
    requires Positive(r) && Positive(s) && Positive(t) && SameValue(r, s) && SameValue(s, t)
    ensures SameValue(r, t)
  {
  }

  /** The reduced form depends on the number alone. */
  lemma ReducedIsCanonical(r: Ratio, s: Ratio)
    requires Positive(r) && Positive(s)
    ensures SameValue(r, s) <==> Reduced(r.numerator, r.denominator) == Reduced(s.numerator, s.denominator)
  {
    var a, b := Reduced(r.numerator, r.denominator), Reduced(s.numerator, s.denominator);
    ReducedIsLowest(r.numerator, r.denominator);
    ReducedIsLowest(s.numerator, s.denominator);
    LowestTermsUnique(a, b);
    if SameValue(r, s) {
      SameValueTransitive(a, r, s);
      SameValueTransitive(a, s, b);
    }
    if a == b {
      SameValueTransitive(r, a, s);
    }
  }
}
