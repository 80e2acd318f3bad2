/**
 encodeCurrencyPolicyContext: checking a policy context given as JSON text and writing it in one
 canonical form.
 */
module PolicyContext {
  import opened CodeUnits
  import opened JsonGrammar
  import opened JsonReader
  import opened JsonComplete
  import opened JsonStringify
  import opened JsonArrays
  import opened Options
  import opened Sorting
  import LosslessJson

  const INPUT_BYTES: nat := 65_536
  const CANONICAL_BYTES: nat := 24_576
  const ENTRIES: nat := 32

  datatype Reference = Reference(code: Text, version: Text)

  datatype Capability = Capability(code: Text, version: Text, display: bool, newSales: bool, collection: bool)

  datatype Definition = Definition(code: Text, version: Text, exponent: nat, provenance: Text, historical: bool)

  datatype Context = Context(
    revision: Text, base: Reference, browsing: Reference, secondary: Option<Reference>,
    capabilities: seq<Capability>, definitions: seq<Definition>)

  /**
   The integer a number token stands for as a JavaScript number, if it is one; how other tokens are
   rounded is left open.
   */
  type Numeric = f: Text -> Option<int> | forall n: nat | n < 10 :: f([ZERO + n]) == Some(n)
    witness t => if t == [] then None else Some(t[0] - ZERO)

  // ----- the field tests ----------------------------------------------------------------------

  predicate IsCode(t: Text) {
    |t| == 3 && forall i | 0 <= i < 3 :: 'A' as int <= t[i] <= 'Z' as int
  }

  predicate IsAlphanumeric(u: CodeUnit) {
    'A' as int <= u <= 'Z' as int || 'a' as int <= u <= 'z' as int || IsDigit(u)
  }

  predicate IsVersion(t: Text) {
    && 1 <= |t| <= 64 && IsAlphanumeric(t[0])
    && forall i | 0 <= i < |t| ::
         IsAlphanumeric(t[i]) || t[i] == POINT || t[i] == '_' as int || t[i] == COLON || t[i] == MINUS
  }

  predicate IsProvenance(t: Text) {
    && 1 <= |t| <= 256 && t[0] != 0x20 && t[|t| - 1] != 0x20
    && forall i | 0 <= i < |t| :: 0x20 <= t[i] <= 0x7E
  }

  predicate IsReference(r: Reference) {
    IsCode(r.code) && IsVersion(r.version)
  }

  predicate IsCapability(c: Capability) {
    IsCode(c.code) && IsVersion(c.version)
  }

  predicate IsDefinition(d: Definition) {
    IsCode(d.code) && IsVersion(d.version) && d.exponent <= 4 && IsProvenance(d.provenance)
  }

  /** Each field passes its own test. */
  predicate WellTyped(c: Context) {
    && IsVersion(c.revision) && IsReference(c.base) && IsReference(c.browsing)
    && (c.secondary.Some? ==> IsReference(c.secondary.value))
    && 1 <= |c.capabilities| <= ENTRIES && 1 <= |c.definitions| <= ENTRIES
    && (forall i | 0 <= i < |c.capabilities| :: IsCapability(c.capabilities[i]))
    && forall i | 0 <= i < |c.definitions| :: IsDefinition(c.definitions[i])
  }

  // ----- the rules between fields -------------------------------------------------------------

  /** The key of the definition map. */
  function UnitKey(code: Text, version: Text): Text {
    code + [COLON] + version
  }

  /** Three-letter codes make the key unambiguous. */
  lemma UnitKeyInjective(a: Text, v: Text, b: Text, w: Text)
    requires IsCode(a) && IsCode(b)
    ensures UnitKey(a, v) == UnitKey(b, w) <==> a == b && v == w
  {
    if UnitKey(a, v) == UnitKey(b, w) {
      assert a == UnitKey(a, v)[..3] && b == UnitKey(b, w)[..3];
      assert v == UnitKey(a, v)[4..] && w == UnitKey(b, w)[4..];
    }
  }

  /** No two capabilities share a code. */
  predicate OnePerCode(cs: seq<Capability>) {
    forall i, j | 0 <= i < j < |cs| :: cs[i].code != cs[j].code
  }

  /** No two definitions share a code and version. */
  predicate OnePerUnit(ds: seq<Definition>) {
    forall i, j | 0 <= i < j < |ds| :: UnitKey(ds[i].code, ds[i].version) != UnitKey(ds[j].code, ds[j].version)
  }

  /** This capability has its definition, and a historical one is neither shown nor sold. */
  predicate Covered(c: Capability, ds: set<Definition>) {
    exists d | d in ds ::
      d.code == c.code && d.version == c.version && (d.historical ==> !c.display && !c.newSales)
  }

  /** A reference names a listed capability at its version, with a definition; all but the base must be in use. */
  predicate Known(r: Reference, inUse: bool, cs: set<Capability>, ds: set<Definition>) {
    && (exists c | c in cs :: c.code == r.code && c.version == r.version && (inUse ==> c.display))
    && (exists d | d in ds :: d.code == r.code && d.version == r.version && (inUse ==> !d.historical))
  }

  /** The rules that look at the lists as sets only. */
  predicate Consistent(c: Context, cs: set<Capability>, ds: set<Definition>) {
    && (c.secondary.Some? ==> c.secondary.value.code != c.browsing.code)
    && (forall e | e in cs :: Covered(e, ds))
    && Known(c.base, false, cs, ds) && Known(c.browsing, true, cs, ds)
    && (c.secondary.Some? ==> Known(c.secondary.value, true, cs, ds))
  }

  predicate Valid(c: Context) {
    && WellTyped(c)
    && OnePerCode(c.capabilities) && OnePerUnit(c.definitions)
    && |c.definitions| == |c.capabilities|
    && Consistent(c, Elements(c.capabilities), Elements(c.definitions))
  }

  // ----- the canonical form -------------------------------------------------------------------

  predicate CapabilityLess(a: Capability, b: Capability) {
    TextLess(a.code, b.code)
  }

  predicate DefinitionLess(a: Definition, b: Definition) {
    TextLess(a.code, b.code) || (a.code == b.code && TextLess(a.version, b.version))
  }

  function Canonical(c: Context): Context {
    c.(capabilities := Sort(c.capabilities, CapabilityLess), definitions := Sort(c.definitions, DefinitionLess))
  }

  /** Two contexts state the same facts: equal but for the order of their lists. */
  predicate SameFacts(c: Context, e: Context) {
    && c.revision == e.revision && c.base == e.base && c.browsing == e.browsing && c.secondary == e.secondary
    && Elements(c.capabilities) == Elements(e.capabilities) && Elements(c.definitions) == Elements(e.definitions)
  }

  // ----- reading a context from parsed JSON ---------------------------------------------------

  function TextOf(t: Tree): Option<Text> {
    if t.TextLeaf? then Some(t.text) else None
  }

  function BoolOf(t: Tree): Option<bool> {
    if t == Atom(True) then Some(true) else if t == Atom(False) then Some(false) else None
  }

  /** `isTuple`: an array of exactly this length. */
  function TupleOf(t: Tree, arity: nat): Option<seq<Tree>> {
    if t.Array? && |ListOf(t.items)| == arity then Some(ListOf(t.items)) else None
  }

  /** `isList`: an array of 1 to 32 entries. */
  function EntriesOf(t: Tree): Option<seq<Tree>> {
    if t.Array? && 1 <= |ListOf(t.items)| <= ENTRIES then Some(ListOf(t.items)) else None
  }

  function ReferenceOf(t: Tree): (r: Option<Reference>)
    ensures r.Some? ==> IsReference(r.value)
  {
    match TupleOf(t, 2)
    case None => None
    case Some(f) =>
      match (TextOf(f[0]), TextOf(f[1]))
      case (Some(code), Some(version)) => if IsCode(code) && IsVersion(version) then Some(Reference(code, version)) else None
      case _ => None
  }

  function CapabilityOf(t: Tree): (r: Option<Capability>)
    ensures r.Some? ==> IsCapability(r.value)
  {
    match TupleOf(t, 5)
    case None => None
    case Some(f) =>
      match (TextOf(f[0]), TextOf(f[1]), BoolOf(f[2]), BoolOf(f[3]), BoolOf(f[4]))
      case (Some(code), Some(version), Some(display), Some(newSales), Some(collection)) =>
        if IsCode(code) && IsVersion(version) then Some(Capability(code, version, display, newSales, collection)) else None
      case _ => None
  }

  function ExponentOf(t: Tree, numeric: Numeric): (r: Option<nat>)
    ensures r.Some? ==> r.value <= 4
  {
    if !t.NumberToken? then None
    else
      match numeric(t.token)
      case None => None
      case Some(n) => if 0 <= n <= 4 then Some(n) else None
  }

  function StatusText(historical: bool): Text {
    if historical then Units("historical") else Units("current")
  }

  function StatusOf(t: Tree): Option<bool> {
    if t == TextLeaf(Units("historical")) then Some(true)
    else if t == TextLeaf(Units("current")) then Some(false)
    else None
  }

  function DefinitionOf(t: Tree, numeric: Numeric): (r: Option<Definition>)
    ensures r.Some? ==> IsDefinition(r.value)
  {
    match TupleOf(t, 5)
    case None => None
    case Some(f) =>
      match (TextOf(f[0]), TextOf(f[1]), ExponentOf(f[2], numeric), TextOf(f[3]), StatusOf(f[4]))
      case (Some(code), Some(version), Some(exponent), Some(provenance), Some(historical)) =>
        if IsCode(code) && IsVersion(version) && IsProvenance(provenance)
        then Some(Definition(code, version, exponent, provenance, historical)) else None
      case _ => None
  }

  function CapabilitiesOf(ts: seq<Tree>): (r: Option<seq<Capability>>)
    ensures r.Some? ==> |r.value| == |ts| && forall i | 0 <= i < |ts| :: CapabilityOf(ts[i]) == Some(r.value[i])
  {
    if ts == [] then Some([])
    else
      match (CapabilityOf(ts[0]), CapabilitiesOf(ts[1..]))
      case (Some(c), Some(cs)) => Some([c] + cs)
      case _ => None
  }

  function DefinitionsOf(ts: seq<Tree>, numeric: Numeric): (r: Option<seq<Definition>>)
    ensures r.Some? ==> |r.value| == |ts| && forall i | 0 <= i < |ts| :: DefinitionOf(ts[i], numeric) == Some(r.value[i])
  {
    if ts == [] then Some([])
    else
      match (DefinitionOf(ts[0], numeric), DefinitionsOf(ts[1..], numeric))
      case (Some(d), Some(ds)) => Some([d] + ds)
      case _ => None
  }

  /** `null` or a reference. */
  function SecondaryOf(t: Tree): Option<Option<Reference>> {
    if t == Atom(Null) then Some(None)
    else match ReferenceOf(t) case None => None case Some(r) => Some(Some(r))
  }

  function ContextOf(t: Tree, numeric: Numeric): (r: Option<Context>)
    ensures r.Some? ==> WellTyped(r.value)
  {
    match TupleOf(t, 2)
    case None => None
    case Some(input) =>
      match (TupleOf(input[0], 5), EntriesOf(input[1]))
      case (Some(p), Some(units)) =>
        (match (EntriesOf(p[4]), TextOf(p[0]), ReferenceOf(p[1]), ReferenceOf(p[2]), SecondaryOf(p[3]))
         case (Some(entries), Some(revision), Some(base), Some(browsing), Some(secondary)) =>
           (match (CapabilitiesOf(entries), DefinitionsOf(units, numeric))
            case (Some(cs), Some(ds)) =>
              if IsVersion(revision) then Some(Context(revision, base, browsing, secondary, cs, ds)) else None
            case _ => None)
         case _ => None)
      case _ => None
  }

  // ----- writing a context --------------------------------------------------------------------

  function WriteReference(r: Reference): Value {
    WriteArray([WriteString(r.code), WriteString(r.version)])
  }

  function WriteCapability(c: Capability): Value {
    WriteArray([WriteString(c.code), WriteString(c.version),
                WriteBool(c.display), WriteBool(c.newSales), WriteBool(c.collection)])
  }

  function WriteDefinition(d: Definition): Value
    requires IsDefinition(d)
  {
    WriteArray([WriteString(d.code), WriteString(d.version), WriteDigit(d.exponent), WriteString(d.provenance),
                WriteString(StatusText(d.historical))])
  }

  function WriteSecondary(s: Option<Reference>): Value {
    match s
    case None => Constant(Null)
    case Some(r) => WriteReference(r)
  }

  function WriteCapabilities(cs: seq<Capability>): seq<Value> {
    seq(|cs|, i requires 0 <= i < |cs| => WriteCapability(cs[i]))
  }

  function WriteDefinitions(ds: seq<Definition>): seq<Value>
    requires forall i | 0 <= i < |ds| :: IsDefinition(ds[i])
  {
    seq(|ds|, i requires 0 <= i < |ds| => WriteDefinition(ds[i]))
  }

  function WritePolicy(c: Context): Value
    requires WellTyped(c)
  {
    WriteArray([WriteString(c.revision), WriteReference(c.base), WriteReference(c.browsing),
                WriteSecondary(c.secondary), WriteArray(WriteCapabilities(c.capabilities))])
  }

  function WriteContext(c: Context): Value
    requires WellTyped(c)
  {
    WriteArray([WritePolicy(c), WriteArray(WriteDefinitions(c.definitions))])
  }

  /** The text of a context as JSON.stringify writes its tuple. */
  function TextOfContext(c: Context): Text
    requires WellTyped(c)
  {
    Print(WriteContext(c))
  }

  // ----- what is written reads back -----------------------------------------------------------

  lemma ReferenceReads(r: Reference)
    requires IsReference(r)
    ensures Wf(WriteReference(r)) && ReferenceOf(Meaning(WriteReference(r))) == Some(r)
  {
    var vs := [WriteString(r.code), WriteString(r.version)];
    StringReads(r.code);
    StringReads(r.version);
    ArrayReads(vs);
    assert Meanings(vs) == [TextLeaf(r.code), TextLeaf(r.version)];
  }

  lemma CapabilityReads(c: Capability)
    requires IsCapability(c)
    ensures Wf(WriteCapability(c)) && CapabilityOf(Meaning(WriteCapability(c))) == Some(c)
  {
    var vs := [WriteString(c.code), WriteString(c.version),
               WriteBool(c.display), WriteBool(c.newSales), WriteBool(c.collection)];
    StringReads(c.code);
    StringReads(c.version);
    ArrayReads(vs);
    var f := Meanings(vs);
    assert f[0] == TextLeaf(c.code) && f[1] == TextLeaf(c.version);
    assert BoolOf(f[2]) == Some(c.display) && BoolOf(f[3]) == Some(c.newSales) && BoolOf(f[4]) == Some(c.collection);
  }

  lemma DefinitionTuple(t: Tree, d: Definition, numeric: Numeric)
    requires IsDefinition(d) && t.Array?
    requires ListOf(t.items) == [TextLeaf(d.code), TextLeaf(d.version), NumberToken([ZERO + d.exponent]),
                                 TextLeaf(d.provenance), TextLeaf(StatusText(d.historical))]
    ensures DefinitionOf(t, numeric) == Some(d)
  {
  }

  lemma DefinitionReads(d: Definition, numeric: Numeric)
    requires IsDefinition(d)
    ensures Wf(WriteDefinition(d)) && DefinitionOf(Meaning(WriteDefinition(d)), numeric) == Some(d)
  {
    hide WriteString, WriteArray, Wf, Meaning, DefinitionOf, IsProvenance, IsVersion, IsCode, Units;
    var status := StatusText(d.historical);
    var vs := [WriteString(d.code), WriteString(d.version), WriteDigit(d.exponent), WriteString(d.provenance),
               WriteString(status)];
    StringReads(d.code);
    StringReads(d.version);
    StringReads(d.provenance);
    StringReads(status);
    DigitReads(d.exponent);
    ArrayReads(vs);
    assert Meanings(vs) == [TextLeaf(d.code), TextLeaf(d.version), NumberToken([ZERO + d.exponent]),
                            TextLeaf(d.provenance), TextLeaf(status)];
    DefinitionTuple(Meaning(WriteArray(vs)), d, numeric);
  }

  lemma MeaningsCons(vs: seq<Value>)
    requires vs != [] && AllWf(vs)
    ensures Meanings(vs) != [] && Meanings(vs)[0] == Meaning(vs[0]) && Meanings(vs)[1..] == Meanings(vs[1..])
  {
  }

  lemma {:induction false} CapabilitiesRead(cs: seq<Capability>)
    requires forall i | 0 <= i < |cs| :: IsCapability(cs[i])
    ensures AllWf(WriteCapabilities(cs)) && CapabilitiesOf(Meanings(WriteCapabilities(cs))) == Some(cs)
  {
    forall i | 0 <= i < |cs| ensures Wf(WriteCapabilities(cs)[i]) { CapabilityReads(cs[i]); }
    if cs != [] {
      hide CapabilityOf, WriteCapability, IsCapability;
      var vs := WriteCapabilities(cs);
      CapabilityReads(cs[0]);
      CapabilitiesRead(cs[1..]);
      assert vs[1..] == WriteCapabilities(cs[1..]);
      MeaningsCons(vs);
      assert cs == [cs[0]] + cs[1..];
    }
  }

  lemma DefinitionsWf(ds: seq<Definition>, numeric: Numeric)
    requires forall i | 0 <= i < |ds| :: IsDefinition(ds[i])
    ensures AllWf(WriteDefinitions(ds))
  {
    forall i | 0 <= i < |ds| ensures Wf(WriteDefinitions(ds)[i]) { DefinitionReads(ds[i], numeric); }
  }

  lemma DefinitionsStep(ts: seq<Tree>, d: Definition, ds: seq<Definition>, numeric: Numeric)
    requires ts != [] && DefinitionOf(ts[0], numeric) == Some(d) && DefinitionsOf(ts[1..], numeric) == Some(ds)
    ensures DefinitionsOf(ts, numeric) == Some([d] + ds)
  {
  }

  lemma WriteDefinitionsTail(ds: seq<Definition>)
    requires ds != [] && forall i | 0 <= i < |ds| :: IsDefinition(ds[i])
    ensures WriteDefinitions(ds) != [] && WriteDefinitions(ds)[0] == WriteDefinition(ds[0])
    ensures WriteDefinitions(ds)[1..] == WriteDefinitions(ds[1..])
  {
  }

  lemma {:induction false} DefinitionsRead(ds: seq<Definition>, numeric: Numeric)
    requires forall i | 0 <= i < |ds| :: IsDefinition(ds[i])
    ensures AllWf(WriteDefinitions(ds)) && DefinitionsOf(Meanings(WriteDefinitions(ds)), numeric) == Some(ds)
  {
    DefinitionsWf(ds, numeric);
    if ds != [] {
      hide DefinitionsOf, DefinitionOf, WriteDefinition, WriteDefinitions, IsDefinition, Meaning, Meanings, Wf;
      DefinitionReads(ds[0], numeric);
      DefinitionsRead(ds[1..], numeric);
      WriteDefinitionsTail(ds);
      MeaningsCons(WriteDefinitions(ds));
      DefinitionsStep(Meanings(WriteDefinitions(ds)), ds[0], ds[1..], numeric);
      assert ds == [ds[0]] + ds[1..];
    }
  }

  lemma SecondaryReads(s: Option<Reference>)
    requires s.Some? ==> IsReference(s.value)
    ensures Wf(WriteSecondary(s)) && SecondaryOf(Meaning(WriteSecondary(s))) == Some(s)
  {
    if s.Some? { ReferenceReads(s.value); }
  }

  /** A tree that reads as the policy's five parts. */
  ghost predicate ReadsAsPolicy(t: Tree, c: Context) {
    TupleOf(t, 5).Some?
    && var p := TupleOf(t, 5).value;
      && TextOf(p[0]) == Some(c.revision) && ReferenceOf(p[1]) == Some(c.base) && ReferenceOf(p[2]) == Some(c.browsing)
      && SecondaryOf(p[3]) == Some(c.secondary)
      && EntriesOf(p[4]).Some? && CapabilitiesOf(EntriesOf(p[4]).value) == Some(c.capabilities)
  }

  lemma PolicyReads(c: Context)
    requires WellTyped(c)
    ensures Wf(WritePolicy(c)) && ReadsAsPolicy(Meaning(WritePolicy(c)), c)
  {
    hide ReferenceOf, SecondaryOf, CapabilitiesOf, WriteReference, WriteSecondary, WriteString;
    var entries := WriteCapabilities(c.capabilities);
    var vs := [WriteString(c.revision), WriteReference(c.base), WriteReference(c.browsing),
               WriteSecondary(c.secondary), WriteArray(entries)];
    StringReads(c.revision);
    ReferenceReads(c.base);
    ReferenceReads(c.browsing);
    SecondaryReads(c.secondary);
    CapabilitiesRead(c.capabilities);
    ArrayReads(entries);
    ArrayReads(vs);
  }

  lemma ContextTuple(t: Tree, policy: Tree, units: Tree, c: Context, numeric: Numeric)
    requires WellTyped(c) && t.Array? && ListOf(t.items) == [policy, units] && ReadsAsPolicy(policy, c)
    requires EntriesOf(units).Some? && DefinitionsOf(EntriesOf(units).value, numeric) == Some(c.definitions)
    ensures ContextOf(t, numeric) == Some(c)
  {
  }

  lemma ContextReads(c: Context, numeric: Numeric)
    requires WellTyped(c)
    ensures Wf(WriteContext(c)) && ContextOf(Meaning(WriteContext(c)), numeric) == Some(c)
  {
    hide ContextOf, ReadsAsPolicy, CapabilitiesOf, DefinitionsOf, WritePolicy, WriteArray, Wf, Meaning,
      IsVersion, IsReference, IsCapability, IsDefinition;
    var units := WriteDefinitions(c.definitions);
    var vs := [WritePolicy(c), WriteArray(units)];
    PolicyReads(c);
    DefinitionsRead(c.definitions, numeric);
    ArrayReads(units);
    ArrayReads(vs);
    assert Meanings(vs) == [Meaning(WritePolicy(c)), Meaning(WriteArray(units))];
    ContextTuple(Meaning(WriteArray(vs)), Meaning(WritePolicy(c)), Meaning(WriteArray(units)), c, numeric);
  }

  /** JSON.parse of the written text gives the context back. */
  lemma TextReadsBack(c: Context, numeric: Numeric)
    requires WellTyped(c)
    ensures LosslessJson.JsonParse(TextOfContext(c)).Some?
    ensures ContextOf(LosslessJson.JsonParse(TextOfContext(c)).value, numeric) == Some(c)
  {
    ContextReads(c, numeric);
    CompactPrints(WriteContext(c));
    ReadIsComplete(Standard, Compact(WriteContext(c)));
  }

  /** Different contexts have different texts. */
  lemma TextIsInjective(c: Context, e: Context, numeric: Numeric)
    requires WellTyped(c) && WellTyped(e) && TextOfContext(c) == TextOfContext(e)
    ensures c == e
  {
    TextReadsBack(c, numeric);
    TextReadsBack(e, numeric);
  }

  // ----- size ---------------------------------------------------------------------------------

  lemma VersionLength(t: Text)
    requires IsVersion(t)
    ensures |Print(WriteString(t))| <= 66 && Ascii(Print(WriteString(t)))
  {
    assert NeedsNoEscape(t);
    StringLength(t);
  }

  lemma CodeLength(t: Text)
    requires IsCode(t)
    ensures |Print(WriteString(t))| == 5 && Ascii(Print(WriteString(t)))
  {
    assert NeedsNoEscape(t);
    StringLength(t);
  }

  lemma BoolLength(b: bool)
    ensures |Print(WriteBool(b))| <= 5 && Ascii(Print(WriteBool(b)))
  {
  }

  lemma DigitLength(n: nat)
    requires n < 10
    ensures |Print(WriteDigit(n))| == 1 && Ascii(Print(WriteDigit(n)))
  {
  }

  lemma StatusLength(historical: bool)
    ensures var v := WriteString(StatusText(historical));
      |Print(v)| <= 12 && Ascii(Print(v))
  {
    var t := StatusText(historical);
    assert NeedsNoEscape(t);
    StringLength(t);
  }

  lemma Sum2(a: Value, b: Value)
    ensures SumLengths([a, b]) == |Print(a)| + |Print(b)|
  {
    assert [a, b][1..] == [b] && [b][1..] == [];
    assert SumLengths([b]) == |Print(b)|;
  }

  lemma Sum5(a: Value, b: Value, c: Value, d: Value, e: Value)
    ensures SumLengths([a, b, c, d, e]) == |Print(a)| + |Print(b)| + |Print(c)| + |Print(d)| + |Print(e)|
  {
    assert [a, b, c, d, e][1..] == [b, c, d, e] && [b, c, d, e][1..] == [c, d, e] && [c, d, e][1..] == [d, e];
    Sum2(d, e);
    assert SumLengths([c, d, e]) == |Print(c)| + SumLengths([d, e]);
    assert SumLengths([b, c, d, e]) == |Print(b)| + SumLengths([c, d, e]);
  }

  lemma ReferenceLength(r: Reference)
    requires IsReference(r)
    ensures |Print(WriteReference(r))| <= 74 && Ascii(Print(WriteReference(r)))
  {
    hide WriteString, IsCode, IsVersion;
    var vs := [WriteString(r.code), WriteString(r.version)];
    CodeLength(r.code);
    VersionLength(r.version);
    Sum2(vs[0], vs[1]);
    ArrayLength(vs);
    ArrayAscii(vs);
  }

  lemma CapabilityLength(c: Capability)
    requires IsCapability(c)
    ensures |Print(WriteCapability(c))| <= 92 && Ascii(Print(WriteCapability(c)))
  {
    hide WriteString, WriteBool, IsCode, IsVersion;
    var vs := [WriteString(c.code), WriteString(c.version),
               WriteBool(c.display), WriteBool(c.newSales), WriteBool(c.collection)];
    CodeLength(c.code);
    VersionLength(c.version);
    BoolLength(c.display);
    BoolLength(c.newSales);
    BoolLength(c.collection);
    Sum5(vs[0], vs[1], vs[2], vs[3], vs[4]);
    ArrayLength(vs);
    ArrayAscii(vs);
  }

  lemma DefinitionLength(d: Definition)
    requires IsDefinition(d)
    ensures |Print(WriteDefinition(d))| <= 604 && Ascii(Print(WriteDefinition(d)))
  {
    hide WriteString, WriteDigit, IsCode, IsVersion;
    var vs := [WriteString(d.code), WriteString(d.version), WriteDigit(d.exponent), WriteString(d.provenance),
               WriteString(StatusText(d.historical))];
    CodeLength(d.code);
    VersionLength(d.version);
    DigitLength(d.exponent);
    StringLength(d.provenance);
    StatusLength(d.historical);
    Sum5(vs[0], vs[1], vs[2], vs[3], vs[4]);
    ArrayLength(vs);
    ArrayAscii(vs);
  }

  lemma EntriesLength(vs: seq<Value>, bound: nat)
    requires 1 <= |vs| <= ENTRIES && forall i | 0 <= i < |vs| :: |Print(vs[i])| <= bound && Ascii(Print(vs[i]))
    ensures |Print(WriteArray(vs))| <= ENTRIES * bound + ENTRIES + 1 && Ascii(Print(WriteArray(vs)))
  {
    hide Print, WriteArray, SumLengths;
    SumBound(vs, bound);
    ArrayLength(vs);
    ArrayAscii(vs);
    TimesMonotone(|vs|, ENTRIES, bound);
  }

  lemma TimesMonotone(m: nat, n: nat, k: nat)
    requires m <= n
    ensures m * k <= n * k
  {
  }

  lemma SecondaryLength(s: Option<Reference>)
    requires s.Some? ==> IsReference(s.value)
    ensures |Print(WriteSecondary(s))| <= 74 && Ascii(Print(WriteSecondary(s)))
  {
    hide WriteReference, IsReference;
    if s.Some? { ReferenceLength(s.value); }
  }

  lemma PolicyLength(c: Context)
    requires WellTyped(c)
    ensures |Print(WritePolicy(c))| <= 3_271 && Ascii(Print(WritePolicy(c)))
  {
    hide WriteString, WriteReference, WriteArray, WriteCapability, IsCapability, IsVersion, IsReference, IsDefinition, Print, Ascii;
    var entries := WriteCapabilities(c.capabilities);
    forall i | 0 <= i < |entries| ensures |Print(entries[i])| <= 92 && Ascii(Print(entries[i])) {
      CapabilityLength(c.capabilities[i]);
    }
    EntriesLength(entries, 92);
    var vs := [WriteString(c.revision), WriteReference(c.base), WriteReference(c.browsing),
               WriteSecondary(c.secondary), WriteArray(entries)];
    VersionLength(c.revision);
    ReferenceLength(c.base);
    ReferenceLength(c.browsing);
    SecondaryLength(c.secondary);
    Sum5(vs[0], vs[1], vs[2], vs[3], vs[4]);
    ArrayLength(vs);
    ArrayAscii(vs);
  }

  lemma ContextAscii(c: Context)
    requires WellTyped(c)
    ensures Ascii(Print(WriteContext(c)))
  {
    hide WritePolicy, WriteArray, IsDefinition;
    var units := WriteDefinitions(c.definitions);
    forall i | 0 <= i < |units| ensures |Print(units[i])| <= 604 && Ascii(Print(units[i])) {
      DefinitionLength(c.definitions[i]);
    }
    EntriesLength(units, 604);
    PolicyLength(c);
    ArrayAscii([WritePolicy(c), WriteArray(units)]);
  }

  /** No context whose fields pass their tests comes near the ceiling: its text has at most 22,635 bytes. */
  lemma CanonicalTextFits(c: Context)
    requires WellTyped(c)
    ensures Utf8Length(TextOfContext(c)) == |TextOfContext(c)| <= 22_635
  {
    hide WritePolicy, WriteArray, IsDefinition;
    var units := WriteDefinitions(c.definitions);
    forall i | 0 <= i < |units| ensures |Print(units[i])| <= 604 && Ascii(Print(units[i])) {
      DefinitionLength(c.definitions[i]);
    }
    EntriesLength(units, 604);
    PolicyLength(c);
    var vs := [WritePolicy(c), WriteArray(units)];
    Sum2(vs[0], vs[1]);
    ArrayLength(vs);
    ContextAscii(c);
    AsciiLength(TextOfContext(c));
  }

  // ----- one canonical form per set of facts --------------------------------------------------

  lemma CapabilityOrder(cs: seq<Capability>)
    requires OnePerCode(cs)
    ensures NoRepeats(cs) && StrictOn(CapabilityLess, Elements(cs))
  {
    var s := Elements(cs);
    forall a, b | a in s && b in s && a != b ensures CapabilityLess(a, b) != CapabilityLess(b, a) {
      assert a.code != b.code;
      TextLessIsStrict(a.code, b.code);
    }
    forall a | a in s ensures !CapabilityLess(a, a) { TextLessIsStrict(a.code, a.code); }
    forall a, b, c | a in s && b in s && c in s && CapabilityLess(a, b) && CapabilityLess(b, c)
      ensures CapabilityLess(a, c)
    {
      TextLessTransitive(a.code, b.code, c.code);
    }
  }

  lemma DefinitionOrder(ds: seq<Definition>)
    requires OnePerUnit(ds)
    ensures NoRepeats(ds) && StrictOn(DefinitionLess, Elements(ds))
  {
    var s := Elements(ds);
    forall a, b | a in s && b in s && a != b ensures DefinitionLess(a, b) != DefinitionLess(b, a) {
      assert a.code != b.code || a.version != b.version;
      TextLessIsStrict(a.code, b.code);
      TextLessIsStrict(a.version, b.version);
    }
    forall a | a in s ensures !DefinitionLess(a, a) {
      TextLessIsStrict(a.code, a.code);
      TextLessIsStrict(a.version, a.version);
    }
    forall a, b, c | a in s && b in s && c in s && DefinitionLess(a, b) && DefinitionLess(b, c)
      ensures DefinitionLess(a, c)
    {
      DefinitionLessTransitive(a, b, c);
    }
  }

  lemma DefinitionLessTransitive(a: Definition, b: Definition, c: Definition)
    requires DefinitionLess(a, b) && DefinitionLess(b, c)
    ensures DefinitionLess(a, c)
  {
    TextLessIsStrict(a.code, b.code);
    TextLessIsStrict(b.code, c.code);
    if TextLess(a.code, b.code) && TextLess(b.code, c.code) { TextLessTransitive(a.code, b.code, c.code); }
    if a.code == b.code == c.code { TextLessTransitive(a.version, b.version, c.version); }
  }

  lemma SortedCapabilities(cs: seq<Capability>)
    requires OnePerCode(cs) && forall i | 0 <= i < |cs| :: IsCapability(cs[i])
    ensures var t := Sort(cs, CapabilityLess);
      && |t| == |cs| && Elements(t) == Elements(cs) && Ascending(CapabilityLess, t) && OnePerCode(t)
      && forall i | 0 <= i < |t| :: IsCapability(t[i])
  {
    hide IsCapability;
    CapabilityOrder(cs);
    SortSorts(cs, CapabilityLess);
    var t := Sort(cs, CapabilityLess);
    AscendingHasNoRepeats(t, CapabilityLess);
    forall i, j | 0 <= i < j < |t| ensures t[i].code != t[j].code {
      assert t[i] in Elements(cs) && t[j] in Elements(cs) && t[i] != t[j];
    }
    forall i | 0 <= i < |t| ensures IsCapability(t[i]) { assert t[i] in Elements(cs); }
  }

  lemma SortedDefinitions(ds: seq<Definition>)
    requires OnePerUnit(ds) && forall i | 0 <= i < |ds| :: IsDefinition(ds[i])
    ensures var t := Sort(ds, DefinitionLess);
      && |t| == |ds| && Elements(t) == Elements(ds) && Ascending(DefinitionLess, t) && OnePerUnit(t)
      && forall i | 0 <= i < |t| :: IsDefinition(t[i])
  {
    hide IsDefinition, UnitKey;
    DefinitionOrder(ds);
    SortSorts(ds, DefinitionLess);
    var t := Sort(ds, DefinitionLess);
    AscendingHasNoRepeats(t, DefinitionLess);
    forall i, j | 0 <= i < j < |t| ensures UnitKey(t[i].code, t[i].version) != UnitKey(t[j].code, t[j].version) {
      assert t[i] in Elements(ds) && t[j] in Elements(ds) && t[i] != t[j];
    }
    forall i | 0 <= i < |t| ensures IsDefinition(t[i]) { assert t[i] in Elements(ds); }
  }

  /** The canonical form states the same facts, is valid again, and is its own canonical form. */
  lemma CanonicalIsStable(c: Context)
    requires Valid(c)
    ensures Valid(Canonical(c)) && SameFacts(c, Canonical(c)) && Canonical(Canonical(c)) == Canonical(c)
  {
    hide IsCapability, IsDefinition, OnePerCode, OnePerUnit, Covered, Known, Sort;
    SortedCapabilities(c.capabilities);
    SortedDefinitions(c.definitions);
    var cs, ds := Canonical(c).capabilities, Canonical(c).definitions;
    CapabilityOrder(cs);
    DefinitionOrder(ds);
    SortKeepsAscending(cs, CapabilityLess);
    SortKeepsAscending(ds, DefinitionLess);
  }

  /** Whatever the order of the lists, the same facts have the same canonical form, and only they do. */
  lemma CanonicalIsTheFacts(c: Context, e: Context)
    requires Valid(c) && Valid(e)
    ensures SameFacts(c, e) <==> Canonical(c) == Canonical(e)
  {
    hide IsCapability, IsDefinition, OnePerCode, OnePerUnit, Covered, Known, Sort;
    CanonicalIsStable(c);
    CanonicalIsStable(e);
    if SameFacts(c, e) {
      SortedCapabilities(c.capabilities);
      SortedCapabilities(e.capabilities);
      SortedDefinitions(c.definitions);
      SortedDefinitions(e.definitions);
      CapabilityOrder(c.capabilities);
      DefinitionOrder(c.definitions);
      AscendingUnique(Canonical(c).capabilities, Canonical(e).capabilities, CapabilityLess);
      AscendingUnique(Canonical(c).definitions, Canonical(e).definitions, DefinitionLess);
    }
  }

  // ----- the encoder --------------------------------------------------------------------------

  /** The context a text states, if the text is in bounds and the context valid. */
  function Accepted(text: Text, numeric: Numeric): (c: Option<Context>)
    ensures c.Some? ==> Valid(c.value)
  {
    if Utf8Length(text) > INPUT_BYTES then None
    else
      match LosslessJson.JsonParse(text)
      case None => None
      case Some(tree) =>
        match ContextOf(tree, numeric)
        case None => None
        case Some(c) => if Valid(c) then Some(c) else None
  }

  /** A context is what its own text states, and is accepted exactly when it is valid. */
  lemma AcceptsTyped(c: Context, numeric: Numeric)
    requires WellTyped(c)
    ensures Accepted(TextOfContext(c), numeric) == if Valid(c) then Some(c) else None
  {
    hide WellTyped, ContextOf, LosslessJson.JsonParse, Consistent, OnePerCode, OnePerUnit, Utf8Length, WriteContext, Print,
      IsVersion;
    CanonicalTextFits(c);
    TextReadsBack(c, numeric);
  }

  /** The canonical text of a context. */
  function Encoded(c: Context): Text
    requires Valid(c)
  {
    CanonicalIsStable(c);
    TextOfContext(Canonical(c))
  }

  lemma EncodedIs(c: Context)
    requires Valid(c)
    ensures WellTyped(Canonical(c)) && Encoded(c) == TextOfContext(Canonical(c))
  {
    hide Valid, TextOfContext, Canonical, WellTyped, SameFacts;
    CanonicalIsStable(c);
    ValidIsWellTyped(Canonical(c));
  }

  /** Encoding the output again returns it unchanged. */
  lemma EncodingIsIdempotent(c: Context, numeric: Numeric)
    requires Valid(c)
    ensures Accepted(Encoded(c), numeric) == Some(Canonical(c)) && Valid(Canonical(c))
    ensures Encoded(Canonical(c)) == Encoded(c)
  {
    hide Accepted, TextOfContext, Canonical, Valid, SameFacts, WellTyped;
    CanonicalIsStable(c);
    ValidIsWellTyped(Canonical(c));
    AcceptsTyped(Canonical(c), numeric);
  }

  lemma ValidIsWellTyped(c: Context)
    requires Valid(c)
    ensures WellTyped(c)
  {
  }

  /** Two valid contexts encode alike exactly when they state the same facts. */
  lemma EncodingIsTheFacts(c: Context, e: Context, numeric: Numeric)
    requires Valid(c) && Valid(e)
    ensures Encoded(c) == Encoded(e) <==> SameFacts(c, e)
  {
    hide TextOfContext, Canonical, Valid, WellTyped, SameFacts;
    CanonicalIsStable(c);
    CanonicalIsStable(e);
    CanonicalIsTheFacts(c, e);
    ValidIsWellTyped(Canonical(c));
    ValidIsWellTyped(Canonical(e));
    if Encoded(c) == Encoded(e) {
      TextIsInjective(Canonical(c), Canonical(e), numeric);
    }
  }
}
