/**
 Regular expressions and the texts they match, for the expressions that the repository tests its texts with.
 */
module Patterns {
  import opened CodeUnits

  datatype Range = Range(lo: CodeUnit, hi: CodeUnit)

  /** The ranges of a bracket expression. */
  type Class = seq<Range>

  predicate Within(c: Class, u: CodeUnit) {
    exists r | r in c :: r.lo <= u <= r.hi
  }

  predicate AllWithin(c: Class, t: Text) {
    forall i | 0 <= i < |t| :: Within(c, t[i])
  }

  datatype Pattern =
    | Nothing
    | One(class_: Class)
    | Then(first: Pattern, second: Pattern)
    | Either(left: Pattern, right: Pattern)
    | Star(repeated: Pattern)

  function Optional(p: Pattern): Pattern {
    Either(Nothing, p)
  }

  function Plus(c: Class): Pattern {
    Then(One(c), Star(One(c)))
  }

  /** Between none and n of them. */
  function UpTo(c: Class, n: nat): Pattern {
    if n == 0 then Nothing else Optional(Then(One(c), UpTo(c, n - 1)))
  }

  function Times(c: Class, n: nat): (cs: seq<Class>)
    ensures |cs| == n && forall i | 0 <= i < n :: cs[i] == c
  {
    seq(n, _ => c)
  }

  /** One of each class, in order. */
  function InOrder(cs: seq<Class>): Pattern {
    if cs == [] then Nothing else Then(One(cs[0]), InOrder(cs[1..]))
  }

  predicate Matches(p: Pattern, t: Text)
    decreases |t|, p
  {
    match p
    case Nothing => t == []
    case One(c) => |t| == 1 && Within(c, t[0])
    case Then(a, b) => exists k | 0 <= k <= |t| :: Matches(a, t[..k]) && Matches(b, t[k..])
    case Either(a, b) => Matches(a, t) || Matches(b, t)
    case Star(a) => t == [] || exists k | 0 < k <= |t| :: Matches(a, t[..k]) && Matches(p, t[k..])
  }

  // ----- how they match -----------------------------------------------------------------------

  lemma Joined(a: Pattern, b: Pattern, x: Text, y: Text)
    requires Matches(a, x) && Matches(b, y)
    ensures Matches(Then(a, b), x + y)
  {
    assert (x + y)[..|x|] == x && (x + y)[|x|..] == y;
  }

  lemma Split(a: Pattern, b: Pattern, t: Text) returns (k: nat)
    requires Matches(Then(a, b), t)
    ensures k <= |t| && Matches(a, t[..k]) && Matches(b, t[k..])
  {
    k :| 0 <= k <= |t| && Matches(a, t[..k]) && Matches(b, t[k..]);
  }

  lemma OneThen(c: Class, b: Pattern, t: Text)
    ensures Matches(Then(One(c), b), t) <==> t != [] && Within(c, t[0]) && Matches(b, t[1..])
  {
    if Matches(Then(One(c), b), t) {
      var k := Split(One(c), b, t);
      assert t[..k][0] == t[0];
    } else if t != [] && Within(c, t[0]) && Matches(b, t[1..]) {
      assert [t[0]] + t[1..] == t;
      Joined(One(c), b, [t[0]], t[1..]);
    }
  }

  lemma {:induction false} StarOf(c: Class, t: Text)
    ensures Matches(Star(One(c)), t) <==> AllWithin(c, t)
    decreases |t|
  {
    if t != [] {
      StarOf(c, t[1..]);
      assert AllWithin(c, t) <==> Within(c, t[0]) && AllWithin(c, t[1..]) by { AllOf(c, t); }
      if AllWithin(c, t) {
        assert Matches(One(c), t[..1]) && Matches(Star(One(c)), t[1..]);
      }
      if Matches(Star(One(c)), t) {
        var k :| 0 < k <= |t| && Matches(One(c), t[..k]) && Matches(Star(One(c)), t[k..]);
        assert k == 1 && t[..1][0] == t[0];
      }
    }
  }

  lemma AllOf(c: Class, t: Text)
    requires t != []
    ensures AllWithin(c, t) <==> Within(c, t[0]) && AllWithin(c, t[1..])
  {
    hide Within;
    assert t == [t[0]] + t[1..];
  }

  lemma PlusOf(c: Class, t: Text)
    ensures Matches(Plus(c), t) <==> t != [] && AllWithin(c, t)
  {
    OneThen(c, Star(One(c)), t);
    if t != [] {
      StarOf(c, t[1..]);
      AllOf(c, t);
    }
  }

  lemma {:induction false} UpToOf(c: Class, n: nat, t: Text)
    ensures Matches(UpTo(c, n), t) <==> |t| <= n && AllWithin(c, t)
    decreases n
  {
    if n > 0 {
      OneThen(c, UpTo(c, n - 1), t);
      if t != [] {
        UpToOf(c, n - 1, t[1..]);
        AllOf(c, t);
      }
    }
  }

  lemma {:induction false} InOrderOf(cs: seq<Class>, t: Text)
    ensures Matches(InOrder(cs), t) <==> |t| == |cs| && forall i | 0 <= i < |t| :: Within(cs[i], t[i])
    decreases |cs|
  {
    hide Within;
    if cs != [] {
      OneThen(cs[0], InOrder(cs[1..]), t);
      if t != [] {
        InOrderOf(cs[1..], t[1..]);
        assert forall i | 0 <= i < |t| - 1 :: t[1..][i] == t[i + 1];
        assert forall i | 0 <= i < |cs| - 1 :: cs[1..][i] == cs[i + 1];
        if |t| == |cs| {
          assert (forall i | 0 <= i < |t| :: Within(cs[i], t[i])) <==>
            Within(cs[0], t[0]) && forall i | 0 <= i < |t| - 1 :: Within(cs[1..][i], t[1..][i]) by { Shifted(cs, t); }
        }
      }
    }
  }

  lemma Shifted(cs: seq<Class>, t: Text)
    requires t != [] && |t| == |cs|
    ensures (forall i | 0 <= i < |t| :: Within(cs[i], t[i])) <==>
            Within(cs[0], t[0]) && forall i | 0 <= i < |t| - 1 :: Within(cs[1..][i], t[1..][i])
  {
    hide Within;
    if Within(cs[0], t[0]) && forall i | 0 <= i < |t| - 1 :: Within(cs[1..][i], t[1..][i]) {
      forall i | 0 <= i < |t| ensures Within(cs[i], t[i]) {
        if i > 0 { assert cs[1..][i - 1] == cs[i] && t[1..][i - 1] == t[i]; }
      }
    }
  }
}
