/**
 What a policy context is, member by member: the tuple its text must be, the rules between its lists, and
 the order of the canonical form.
 */
module PolicyDecisions {
  import opened CodeUnits
  import opened JsonArrays
  import opened JsonGrammar
  import opened Options
  import opened PolicyContext
  import opened Sorting

  // ----- the tuple ----------------------------------------------------------------------------

  function Listed(ts: seq<Tree>): Trees {
    if ts == [] then NoTrees else Tree(ts[0], Listed(ts[1..]))
  }

  function Tuple(ts: seq<Tree>): Tree {
    Array(Listed(ts))
  }

  function Flag(b: bool): Tree {
    Atom(if b then True else False)
  }

  function ReferenceForm(r: Reference): Tree {
    Tuple([TextLeaf(r.code), TextLeaf(r.version)])
  }

  function CapabilityForm(c: Capability): Tree {
    Tuple([TextLeaf(c.code), TextLeaf(c.version), Flag(c.display), Flag(c.newSales), Flag(c.collection)])
  }

  /** The exponent is a number token of any spelling. */
  function DefinitionForm(d: Definition, exponent: Text): Tree {
    Tuple([TextLeaf(d.code), TextLeaf(d.version), NumberToken(exponent), TextLeaf(d.provenance),
           TextLeaf(Units(if d.historical then "historical" else "current"))])
  }

  function SecondaryForm(r: Option<Reference>): Tree {
    match r case None => Atom(Null) case Some(reference) => ReferenceForm(reference)
  }

  function CapabilityForms(cs: seq<Capability>): seq<Tree> {
    seq(|cs|, i requires 0 <= i < |cs| => CapabilityForm(cs[i]))
  }

  function DefinitionForms(ds: seq<Definition>, exponents: seq<Text>): seq<Tree>
    requires |exponents| == |ds|
  {
    seq(|ds|, i requires 0 <= i < |ds| => DefinitionForm(ds[i], exponents[i]))
  }

  function ContextForm(c: Context, exponents: seq<Text>): Tree
    requires |exponents| == |c.definitions|
  {
    Tuple([Tuple([TextLeaf(c.revision), ReferenceForm(c.base), ReferenceForm(c.browsing), SecondaryForm(c.secondary),
                  Tuple(CapabilityForms(c.capabilities))]),
           Tuple(DefinitionForms(c.definitions, exponents))])
  }

  lemma {:induction false} ListOfListed(ts: seq<Tree>)
    ensures ListOf(Listed(ts)) == ts
  {
    if ts != [] { ListOfListed(ts[1..]); }
  }

  lemma {:induction false} ListedOfList(items: Trees)
    ensures Listed(ListOf(items)) == items
  {
    if items.Tree? {
      ListedOfList(items.tail);
      assert ListOf(items)[1..] == ListOf(items.tail);
    }
  }

  /** A tuple is read as its members, and as nothing else. */
  lemma TupleMeans(t: Tree, ts: seq<Tree>)
    ensures t == Tuple(ts) <==> t.Array? && ListOf(t.items) == ts
    ensures t == Tuple(ts) <==> TupleOf(t, |ts|) == Some(ts)
  {
    ListOfListed(ts);
    if t.Array? { ListedOfList(t.items); }
  }

  /** A tuple of this many members. */
  lemma TupleOfMeans(t: Tree, arity: nat)
    requires TupleOf(t, arity).Some?
    ensures t == Tuple(TupleOf(t, arity).value) && |TupleOf(t, arity).value| == arity
  {
    TupleMeans(t, ListOf(t.items));
  }

  lemma FlagMeans(t: Tree, b: bool)
    ensures BoolOf(t) == Some(b) <==> t == Flag(b)
  {
  }

  lemma StatusMeans(t: Tree, historical: bool)
    ensures StatusOf(t) == Some(historical) <==> t == TextLeaf(Units(if historical then "historical" else "current"))
  {
    assert |Units("historical")| == 10 && |Units("current")| == 7;
  }

  lemma ReferenceMeans(t: Tree, r: Reference)
    ensures ReferenceOf(t) == Some(r) <==> t == ReferenceForm(r) && IsReference(r)
  {
    hide IsCode, IsVersion, Tuple;
    TupleMeans(t, [TextLeaf(r.code), TextLeaf(r.version)]);
    if TupleOf(t, 2).Some? { TwoOf(TupleOf(t, 2).value); }
  }

  lemma TwoOf<T>(f: seq<T>)
    requires |f| == 2
    ensures f == [f[0], f[1]]
  {
  }

  lemma FiveOf<T>(f: seq<T>)
    requires |f| == 5
    ensures f == [f[0], f[1], f[2], f[3], f[4]]
  {
  }

  lemma CapabilityMeans(t: Tree, c: Capability)
    ensures CapabilityOf(t) == Some(c) <==> t == CapabilityForm(c) && IsCapability(c)
  {
    hide IsCode, IsVersion, Tuple, BoolOf, Flag;
    TupleMeans(t, [TextLeaf(c.code), TextLeaf(c.version), Flag(c.display), Flag(c.newSales), Flag(c.collection)]);
    if TupleOf(t, 5).Some? {
      var f := TupleOf(t, 5).value;
      FiveOf(f);
      FlagMeans(f[2], c.display);
      FlagMeans(f[3], c.newSales);
      FlagMeans(f[4], c.collection);
    }
  }

  /** The token stands for the exponent. */
  predicate Spells(exponent: Text, d: Definition, numeric: Numeric) {
    numeric(exponent) == Some(d.exponent)
  }

  lemma DefinitionRead(t: Tree, numeric: Numeric) returns (exponent: Text)
    requires DefinitionOf(t, numeric).Some?
    ensures var d := DefinitionOf(t, numeric).value; Spells(exponent, d, numeric) && t == DefinitionForm(d, exponent)
  {
    hide IsCode, IsVersion, IsProvenance, Tuple, StatusOf;
    var d := DefinitionOf(t, numeric).value;
    var f := TupleOf(t, 5).value;
    FiveOf(f);
    exponent := f[2].token;
    StatusMeans(f[4], d.historical);
    TupleMeans(t, f);
  }

  lemma DefinitionMeans(t: Tree, numeric: Numeric, d: Definition)
    ensures DefinitionOf(t, numeric) == Some(d)
            <==> IsDefinition(d) && exists exponent :: Spells(exponent, d, numeric) && t == DefinitionForm(d, exponent)
  {
    hide IsCode, IsVersion, IsProvenance, Tuple, StatusOf, DefinitionForm;
    if DefinitionOf(t, numeric) == Some(d) {
      var exponent := DefinitionRead(t, numeric);
    }
    forall exponent | IsDefinition(d) && Spells(exponent, d, numeric) && t == DefinitionForm(d, exponent)
      ensures DefinitionOf(t, numeric) == Some(d)
    {
      DefinitionWritten(t, numeric, d, exponent);
    }
  }

  lemma ExponentRead(exponent: Text, d: Definition, numeric: Numeric)
    requires d.exponent <= 4 && Spells(exponent, d, numeric)
    ensures ExponentOf(NumberToken(exponent), numeric) == Some(d.exponent)
  {
  }

  lemma DefinitionFrom(t: Tree, numeric: Numeric, d: Definition, f: seq<Tree>)
    requires IsDefinition(d) && TupleOf(t, 5) == Some(f)
    requires f[0] == TextLeaf(d.code) && f[1] == TextLeaf(d.version) && f[3] == TextLeaf(d.provenance)
    requires ExponentOf(f[2], numeric) == Some(d.exponent) && StatusOf(f[4]) == Some(d.historical)
    ensures DefinitionOf(t, numeric) == Some(d)
  {
    hide IsCode, IsVersion, IsProvenance, StatusOf, ExponentOf;
  }

  lemma DefinitionWritten(t: Tree, numeric: Numeric, d: Definition, exponent: Text)
    requires IsDefinition(d) && Spells(exponent, d, numeric) && t == DefinitionForm(d, exponent)
    ensures DefinitionOf(t, numeric) == Some(d)
  {
    hide IsCode, IsVersion, IsProvenance, Tuple, StatusOf, TupleOf, ExponentOf, DefinitionOf, Spells;
    var status := TextLeaf(Units(if d.historical then "historical" else "current"));
    StatusMeans(status, d.historical);
    var f := [TextLeaf(d.code), TextLeaf(d.version), NumberToken(exponent), TextLeaf(d.provenance), status];
    TupleMeans(t, f);
    ExponentRead(exponent, d, numeric);
    DefinitionFrom(t, numeric, d, f);
  }

  lemma {:induction false} CapabilitiesMean(ts: seq<Tree>, cs: seq<Capability>)
    ensures CapabilitiesOf(ts) == Some(cs)
            <==> ts == CapabilityForms(cs) && forall i | 0 <= i < |cs| :: IsCapability(cs[i])
  {
    hide CapabilityOf, CapabilityForm, IsCapability;
    if ts != [] && cs != [] {
      CapabilityMeans(ts[0], cs[0]);
      CapabilitiesMean(ts[1..], cs[1..]);
      assert CapabilityForms(cs)[1..] == CapabilityForms(cs[1..]) && CapabilityForms(cs)[0] == CapabilityForm(cs[0]);
      assert ts == [ts[0]] + ts[1..] && cs == [cs[0]] + cs[1..];
      assert CapabilityForms(cs) == [CapabilityForms(cs)[0]] + CapabilityForms(cs)[1..];
    }
  }

  predicate AllSpelled(exponents: seq<Text>, ds: seq<Definition>, numeric: Numeric) {
    |exponents| == |ds| && forall i | 0 <= i < |ds| :: Spells(exponents[i], ds[i], numeric)
  }

  lemma {:induction false} DefinitionsRead(ts: seq<Tree>, numeric: Numeric) returns (exponents: seq<Text>)
    requires DefinitionsOf(ts, numeric).Some?
    ensures var ds := DefinitionsOf(ts, numeric).value;
      AllSpelled(exponents, ds, numeric) && ts == DefinitionForms(ds, exponents)
  {
    hide DefinitionOf, DefinitionForm, Spells;
    if ts == [] { return []; }
    var first := DefinitionRead(ts[0], numeric);
    var rest := DefinitionsRead(ts[1..], numeric);
    exponents := [first] + rest;
    var ds := DefinitionsOf(ts, numeric).value;
    assert ds[1..] == DefinitionsOf(ts[1..], numeric).value;
    forall i | 0 <= i < |ts| ensures ts[i] == DefinitionForms(ds, exponents)[i] && Spells(exponents[i], ds[i], numeric) {
      if i > 0 { assert ts[1..][i - 1] == DefinitionForms(ds[1..], rest)[i - 1]; }
    }
  }

  lemma {:induction false} DefinitionsWritten(ts: seq<Tree>, numeric: Numeric, ds: seq<Definition>, exponents: seq<Text>)
    requires AllSpelled(exponents, ds, numeric) && ts == DefinitionForms(ds, exponents)
    requires forall i | 0 <= i < |ds| :: IsDefinition(ds[i])
    ensures DefinitionsOf(ts, numeric) == Some(ds)
    decreases |ts|
  {
    hide DefinitionOf, DefinitionForm, Spells, IsDefinition;
    if ts != [] {
      DefinitionWritten(ts[0], numeric, ds[0], exponents[0]);
      assert ts[1..] == DefinitionForms(ds[1..], exponents[1..]);
      DefinitionsWritten(ts[1..], numeric, ds[1..], exponents[1..]);
      assert ds == [ds[0]] + ds[1..];
    }
  }

  lemma SecondaryMeans(t: Tree, s: Option<Reference>)
    ensures SecondaryOf(t) == Some(s) <==> t == SecondaryForm(s) && (s.Some? ==> IsReference(s.value))
  {
    hide IsReference, ReferenceOf;
    if s.Some? { ReferenceMeans(t, s.value); }
  }

  /** The tuple that a context is given as. */
  lemma ContextRead(t: Tree, numeric: Numeric) returns (exponents: seq<Text>)
    requires ContextOf(t, numeric).Some?
    ensures var c := ContextOf(t, numeric).value; AllSpelled(exponents, c.definitions, numeric) && t == ContextForm(c, exponents)
  {
    hide IsVersion, Tuple, ReferenceOf, SecondaryOf, CapabilitiesOf, DefinitionsOf, CapabilityForms, DefinitionForms, AllSpelled,
      IsReference, SecondaryForm, ReferenceForm, IsCapability;
    var c := ContextOf(t, numeric).value;
    var input := TupleOf(t, 2).value;
    var p := TupleOf(input[0], 5).value;
    TwoOf(input);
    FiveOf(p);
    TupleMeans(t, input);
    TupleMeans(input[0], p);
    ReferenceMeans(p[1], c.base);
    ReferenceMeans(p[2], c.browsing);
    SecondaryMeans(p[3], c.secondary);
    TupleMeans(p[4], ListOf(p[4].items));
    CapabilitiesMean(ListOf(p[4].items), c.capabilities);
    TupleMeans(input[1], ListOf(input[1].items));
    exponents := DefinitionsRead(ListOf(input[1].items), numeric);
  }

  lemma ContextWritten(t: Tree, numeric: Numeric, c: Context, exponents: seq<Text>)
    requires WellTyped(c) && AllSpelled(exponents, c.definitions, numeric) && t == ContextForm(c, exponents)
    ensures ContextOf(t, numeric) == Some(c)
  {
    hide IsVersion, Tuple, ReferenceOf, SecondaryOf, CapabilitiesOf, DefinitionsOf, CapabilityForms, DefinitionForms,
      IsReference, SecondaryForm, ReferenceForm, IsCapability, IsDefinition;
    var cs, ds := CapabilityForms(c.capabilities), DefinitionForms(c.definitions, exponents);
    assert |cs| == |c.capabilities| && |ds| == |c.definitions| by { TupleCounts(c.capabilities, c.definitions, exponents); }
    var p := [TextLeaf(c.revision), ReferenceForm(c.base), ReferenceForm(c.browsing), SecondaryForm(c.secondary), Tuple(cs)];
    TupleMeans(t, [Tuple(p), Tuple(ds)]);
    TupleMeans(Tuple(p), p);
    TupleMeans(Tuple(cs), cs);
    TupleMeans(Tuple(ds), ds);
    ReferenceMeans(p[1], c.base);
    ReferenceMeans(p[2], c.browsing);
    SecondaryMeans(p[3], c.secondary);
    CapabilitiesMean(cs, c.capabilities);
    DefinitionsWritten(ds, numeric, c.definitions, exponents);
  }

  lemma TupleCounts(cs: seq<Capability>, ds: seq<Definition>, exponents: seq<Text>)
    requires |exponents| == |ds|
    ensures |CapabilityForms(cs)| == |cs| && |DefinitionForms(ds, exponents)| == |ds|
  {
  }

  /** A context is read from exactly its own tuple, the spelling of its exponents left open. */
  lemma ContextMeans(t: Tree, numeric: Numeric, c: Context)
    ensures ContextOf(t, numeric) == Some(c)
            <==> WellTyped(c) && exists exponents :: AllSpelled(exponents, c.definitions, numeric) && t == ContextForm(c, exponents)
  {
    hide WellTyped, Spells, ContextForm, ContextOf;
    if ContextOf(t, numeric) == Some(c) {
      var exponents := ContextRead(t, numeric);
    }
    forall exponents | WellTyped(c) && AllSpelled(exponents, c.definitions, numeric) && t == ContextForm(c, exponents)
      ensures ContextOf(t, numeric) == Some(c)
    {
      ContextWritten(t, numeric, c, exponents);
    }
  }

  // ----- the rules ----------------------------------------------------------------------------

  /** A listed currency at this version, offered for display if it has to be. */
  ghost predicate Offered(c: Context, r: Reference, shown: bool) {
    exists e | e in c.capabilities :: e.code == r.code && e.version == r.version && (shown ==> e.display)
  }

  /** Its definition, and a current one if it has to be. */
  ghost predicate Defined(c: Context, code: Text, version: Text, current: bool) {
    exists d | d in c.definitions :: d.code == code && d.version == version && (current ==> !d.historical)
  }

  ghost predicate FieldsOk(c: Context) {
    && IsVersion(c.revision)
    && 1 <= |c.capabilities| <= 32 && 1 <= |c.definitions| <= 32
    && (forall e | e in c.capabilities :: IsCode(e.code) && IsVersion(e.version))
    && (forall d | d in c.definitions :: IsCode(d.code) && IsVersion(d.version) && d.exponent <= 4 && IsProvenance(d.provenance))
    && (forall r | r == c.base || r == c.browsing || c.secondary == Some(r) :: IsCode(r.code) && IsVersion(r.version))
  }

  ghost predicate ListsOk(c: Context) {
    && |c.definitions| == |c.capabilities|
    && (forall i, j | 0 <= i < |c.capabilities| && 0 <= j < |c.capabilities|
          && c.capabilities[i].code == c.capabilities[j].code :: i == j)
    && (forall i, j | 0 <= i < |c.definitions| && 0 <= j < |c.definitions|
          && c.definitions[i].code == c.definitions[j].code && c.definitions[i].version == c.definitions[j].version :: i == j)
  }

  /**
   The base is a listed currency with a definition; browsing and secondary are shown ones with a current
   definition, in different currencies; and whatever is shown or newly sold has a current definition.
   */
  ghost predicate RolesOk(c: Context) {
    && Offered(c, c.base, false) && Defined(c, c.base.code, c.base.version, false)
    && Offered(c, c.browsing, true) && Defined(c, c.browsing.code, c.browsing.version, true)
    && (c.secondary.Some? ==>
          && c.secondary.value.code != c.browsing.code
          && Offered(c, c.secondary.value, true) && Defined(c, c.secondary.value.code, c.secondary.value.version, true))
    && forall e | e in c.capabilities :: Defined(c, e.code, e.version, e.display || e.newSales)
  }

  lemma FieldsAreTyped(c: Context)
    ensures FieldsOk(c) <==> WellTyped(c)
  {
    hide IsCode, IsVersion, IsProvenance;
    forall i | 0 <= i < |c.capabilities| ensures c.capabilities[i] in c.capabilities { }
    forall i | 0 <= i < |c.definitions| ensures c.definitions[i] in c.definitions { }
    if FieldsOk(c) {
      assert IsReference(c.base) && IsReference(c.browsing);
      if c.secondary.Some? { assert IsReference(c.secondary.value); }
    }
  }

  lemma RolesAreConsistent(c: Context)
    ensures RolesOk(c) <==> Consistent(c, Elements(c.capabilities), Elements(c.definitions))
  {
    var cs, ds := Elements(c.capabilities), Elements(c.definitions);
    assert forall e :: e in cs <==> e in c.capabilities;
    assert forall d :: d in ds <==> d in c.definitions;
    KnownMeans(c, c.base, false);
    KnownMeans(c, c.browsing, true);
    if c.secondary.Some? { KnownMeans(c, c.secondary.value, true); }
    forall e | e in cs ensures Covered(e, ds) <==> Defined(c, e.code, e.version, e.display || e.newSales) { }
  }

  lemma KnownMeans(c: Context, r: Reference, inUse: bool)
    ensures Known(r, inUse, Elements(c.capabilities), Elements(c.definitions))
        <==> Offered(c, r, inUse) && Defined(c, r.code, r.version, inUse)
  {
    assert forall e :: e in Elements(c.capabilities) <==> e in c.capabilities;
    assert forall d :: d in Elements(c.definitions) <==> d in c.definitions;
  }

  /** Which contexts are accepted. */
  lemma ValidMeans(c: Context)
    ensures Valid(c) <==> FieldsOk(c) && ListsOk(c) && RolesOk(c)
  {
    hide IsVersion, IsProvenance, Consistent, RolesOk, FieldsOk, UnitKey, IsCode;
    FieldsAreTyped(c);
    RolesAreConsistent(c);
    if WellTyped(c) {
      forall i, j | 0 <= i < |c.definitions| && 0 <= j < |c.definitions|
        ensures UnitKey(c.definitions[i].code, c.definitions[i].version) == UnitKey(c.definitions[j].code, c.definitions[j].version)
            <==> c.definitions[i].code == c.definitions[j].code && c.definitions[i].version == c.definitions[j].version
      {
        assert IsDefinition(c.definitions[i]) && IsDefinition(c.definitions[j]);
        UnitKeyInjective(c.definitions[i].code, c.definitions[i].version, c.definitions[j].code, c.definitions[j].version);
      }
    }
  }

  // ----- the canonical order ------------------------------------------------------------------

  /** The order of JavaScript's comparison: at the first difference, or by length after a common start. */
  ghost predicate Precedes(a: Text, b: Text) {
    exists k | 0 <= k <= |a| && k < |b| :: a[..k] == b[..k] && (k == |a| || a[k] < b[k])
  }

  lemma {:induction false} PrecedingIsLess(a: Text, b: Text)
    requires Precedes(a, b)
    ensures TextLess(a, b)
  {
    var k :| 0 <= k <= |a| && k < |b| && a[..k] == b[..k] && (k == |a| || a[k] < b[k]);
    if k > 0 {
      assert a[0] == a[..k][0] == b[0];
      assert a[1..][..k - 1] == a[..k][1..] == b[1..][..k - 1];
      assert k - 1 == |a[1..]| || a[1..][k - 1] < b[1..][k - 1];
      PrecedingIsLess(a[1..], b[1..]);
    }
  }

  lemma {:induction false} LessPrecedes(a: Text, b: Text)
    requires TextLess(a, b)
    ensures Precedes(a, b)
  {
    if a == [] || a[0] < b[0] {
      assert a[..0] == b[..0];
    } else {
      LessPrecedes(a[1..], b[1..]);
      var k :| 0 <= k <= |a[1..]| && k < |b[1..]| && a[1..][..k] == b[1..][..k] && (k == |a[1..]| || a[1..][k] < b[1..][k]);
      assert a[..k + 1] == [a[0]] + a[1..][..k] && b[..k + 1] == [b[0]] + b[1..][..k];
      assert k + 1 == |a| || a[k + 1] < b[k + 1];
    }
  }

  lemma PrecedesIsLess(a: Text, b: Text)
    ensures Precedes(a, b) <==> TextLess(a, b)
  {
    hide Precedes, TextLess;
    if Precedes(a, b) { PrecedingIsLess(a, b); }
    if TextLess(a, b) { LessPrecedes(a, b); }
  }

  lemma {:induction false} AscendingAt<T(!new)>(s: seq<T>, less: (T, T) -> bool, i: nat, j: nat)
    requires Ascending(less, s) && i < j < |s|
    ensures less(s[i], s[j])
    decreases |s|
  {
    if i == 0 {
      assert s[j] == s[1..][j - 1];
    } else {
      AscendingAt(s[1..], less, i - 1, j - 1);
    }
  }

  /** Capabilities ascend by code, definitions by code and then by version. */
  lemma CanonicalOrder(c: Context)
    requires Valid(c)
    ensures var t := PolicyContext.Canonical(c);
      && (forall i, j | 0 <= i < j < |t.capabilities| :: Precedes(t.capabilities[i].code, t.capabilities[j].code))
      && (forall i, j | 0 <= i < j < |t.definitions| ::
            || Precedes(t.definitions[i].code, t.definitions[j].code)
            || (t.definitions[i].code == t.definitions[j].code && Precedes(t.definitions[i].version, t.definitions[j].version)))
      && Elements(t.capabilities) == Elements(c.capabilities) && Elements(t.definitions) == Elements(c.definitions)
  {
    hide Precedes, TextLess, Consistent, Elements, Ascending, OnePerCode, OnePerUnit, IsCapability, IsDefinition, Sort;
    var t := PolicyContext.Canonical(c);
    SortedCapabilities(c.capabilities);
    SortedDefinitions(c.definitions);
    forall i, j | 0 <= i < j < |t.capabilities| ensures Precedes(t.capabilities[i].code, t.capabilities[j].code) {
      AscendingAt(t.capabilities, CapabilityLess, i, j);
      PrecedesIsLess(t.capabilities[i].code, t.capabilities[j].code);
    }
    forall i, j | 0 <= i < j < |t.definitions|
      ensures Precedes(t.definitions[i].code, t.definitions[j].code)
           || (t.definitions[i].code == t.definitions[j].code && Precedes(t.definitions[i].version, t.definitions[j].version))
    {
      AscendingAt(t.definitions, DefinitionLess, i, j);
      PrecedesIsLess(t.definitions[i].code, t.definitions[j].code);
      PrecedesIsLess(t.definitions[i].version, t.definitions[j].version);
    }
  }
}
