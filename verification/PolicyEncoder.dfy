/**
 encodeCurrencyPolicyContext as it runs: loops that copy the lists and fill the two lookup maps, the
 checks made through those maps, and the sorted output.
 */
module PolicyEncoder {
  import opened CodeUnits
  import opened JsonGrammar
  import opened Options
  import opened Sorting
  import opened PolicyContext
  import LosslessJson

  // ----- what the lookup maps hold ------------------------------------------------------------

  /** byCode finds exactly the listed capabilities. */
  ghost predicate IndexesCodes(byCode: map<Text, Capability>, cs: seq<Capability>) {
    && (forall c | c in cs :: c.code in byCode && byCode[c.code] == c)
    && (forall k | k in byCode :: byCode[k] in cs && byCode[k].code == k)
  }

  /** byUnit finds exactly the listed definitions. */
  ghost predicate IndexesUnits(byUnit: map<Text, Definition>, ds: seq<Definition>) {
    && (forall d | d in ds :: UnitKey(d.code, d.version) in byUnit && byUnit[UnitKey(d.code, d.version)] == d)
    && (forall k | k in byUnit :: byUnit[k] in ds && UnitKey(byUnit[k].code, byUnit[k].version) == k)
  }

  // ----- the copying loops --------------------------------------------------------------------

  method CopyCapabilities(entries: seq<Tree>) returns (ok: bool, capabilities: seq<Capability>, byCode: map<Text, Capability>)
    ensures ok <==> CapabilitiesOf(entries).Some? && OnePerCode(CapabilitiesOf(entries).value)
    ensures ok ==> CapabilitiesOf(entries) == Some(capabilities) && IndexesCodes(byCode, capabilities)
  {
    hide CapabilityOf, CapabilitiesOf;
    capabilities, byCode := [], map[];
    for i := 0 to |entries|
      invariant |capabilities| == i && forall j | 0 <= j < i :: CapabilityOf(entries[j]) == Some(capabilities[j])
      invariant OnePerCode(capabilities) && IndexesCodes(byCode, capabilities)
    {
      var copy := CapabilityOf(entries[i]);
      if copy.None? {
        CapabilitiesOfEach(entries);
        return false, capabilities, byCode;
      }
      if copy.value.code in byCode {
        if CapabilitiesOf(entries).Some? {
          var all := CapabilitiesOf(entries).value;
          assert all[..i] == capabilities && all[i] == copy.value;
          ghost var twin :| 0 <= twin < i && capabilities[twin] == byCode[copy.value.code];
          assert all[twin].code == all[i].code;
        }
        return false, capabilities, byCode;
      }
      byCode := byCode[copy.value.code := copy.value];
      capabilities := capabilities + [copy.value];
    }
    CapabilitiesOfEach(entries);
    assert CapabilitiesOf(entries).value == capabilities;
    return true, capabilities, byCode;
  }

  /** Reading a list succeeds exactly when every entry reads. */
  lemma {:induction false} CapabilitiesOfEach(ts: seq<Tree>)
    ensures CapabilitiesOf(ts).Some? <==> forall i | 0 <= i < |ts| :: CapabilityOf(ts[i]).Some?
  {
    if ts != [] {
      CapabilitiesOfEach(ts[1..]);
      assert ts == [ts[0]] + ts[1..];
    }
  }

  method CopyDefinitions(units: seq<Tree>, numeric: Numeric)
    returns (ok: bool, definitions: seq<Definition>, byUnit: map<Text, Definition>)
    ensures ok <==> DefinitionsOf(units, numeric).Some? && OnePerUnit(DefinitionsOf(units, numeric).value)
    ensures ok ==> DefinitionsOf(units, numeric) == Some(definitions) && IndexesUnits(byUnit, definitions)
  {
    hide DefinitionOf, DefinitionsOf, UnitKey;
    definitions, byUnit := [], map[];
    for i := 0 to |units|
      invariant |definitions| == i && forall j | 0 <= j < i :: DefinitionOf(units[j], numeric) == Some(definitions[j])
      invariant OnePerUnit(definitions) && IndexesUnits(byUnit, definitions)
    {
      var copy := DefinitionOf(units[i], numeric);
      if copy.None? {
        DefinitionsOfEach(units, numeric);
        return false, definitions, byUnit;
      }
      var key := UnitKey(copy.value.code, copy.value.version);
      if key in byUnit {
        if DefinitionsOf(units, numeric).Some? {
          var all := DefinitionsOf(units, numeric).value;
          assert all[..i] == definitions && all[i] == copy.value;
          ghost var twin :| 0 <= twin < i && definitions[twin] == byUnit[key];
          assert UnitKey(all[twin].code, all[twin].version) == UnitKey(all[i].code, all[i].version);
        }
        return false, definitions, byUnit;
      }
      byUnit := byUnit[key := copy.value];
      definitions := definitions + [copy.value];
    }
    DefinitionsOfEach(units, numeric);
    assert DefinitionsOf(units, numeric).value == definitions;
    return true, definitions, byUnit;
  }

  lemma {:induction false} DefinitionsOfEach(ts: seq<Tree>, numeric: Numeric)
    ensures DefinitionsOf(ts, numeric).Some? <==> forall i | 0 <= i < |ts| :: DefinitionOf(ts[i], numeric).Some?
  {
    if ts != [] {
      DefinitionsOfEach(ts[1..], numeric);
      assert ts == [ts[0]] + ts[1..];
    }
  }

  // ----- the checks through the maps ----------------------------------------------------------

  /** One lookup decides whether a capability is covered. */
  lemma CoveredByLookup(c: Capability, ds: seq<Definition>, byUnit: map<Text, Definition>)
    requires IsCode(c.code) && (forall i | 0 <= i < |ds| :: IsDefinition(ds[i])) && IndexesUnits(byUnit, ds)
    ensures var key := UnitKey(c.code, c.version);
      Covered(c, Elements(ds)) <==> key in byUnit && !(byUnit[key].historical && (c.display || c.newSales))
  {
    hide IsDefinition;
    var key := UnitKey(c.code, c.version);
    if key in byUnit {
      var d := byUnit[key];
      DefinitionsHaveCodes(ds, d);
      UnitKeyInjective(c.code, c.version, d.code, d.version);
      assert d in Elements(ds);
    }
  }

  lemma DefinitionsHaveCodes(ds: seq<Definition>, d: Definition)
    requires d in ds && forall i | 0 <= i < |ds| :: IsDefinition(ds[i])
    ensures IsCode(d.code)
  {
  }

  method CheckCoverage(capabilities: seq<Capability>, definitions: seq<Definition>, byUnit: map<Text, Definition>) returns (ok: bool)
    requires forall i | 0 <= i < |capabilities| :: IsCapability(capabilities[i])
    requires (forall i | 0 <= i < |definitions| :: IsDefinition(definitions[i])) && IndexesUnits(byUnit, definitions)
    ensures ok <==> forall e | e in Elements(capabilities) :: Covered(e, Elements(definitions))
  {
    hide Covered, IndexesUnits, UnitKey, IsDefinition;
    for i := 0 to |capabilities|
      invariant forall j | 0 <= j < i :: Covered(capabilities[j], Elements(definitions))
    {
      var entry := capabilities[i];
      CoveredByLookup(entry, definitions, byUnit);
      var key := UnitKey(entry.code, entry.version);
      if key !in byUnit || (byUnit[key].historical && (entry.display || entry.newSales)) {
        assert entry in Elements(capabilities);
        return false;
      }
    }
    return true;
  }

  /** The two lookups of the reference loop decide whether a reference is known. */
  method CheckReference(
    reference: Reference, inUse: bool, capabilities: seq<Capability>, byCode: map<Text, Capability>,
    definitions: seq<Definition>, byUnit: map<Text, Definition>) returns (ok: bool)
    requires IsReference(reference) && forall i | 0 <= i < |definitions| :: IsDefinition(definitions[i])
    requires IndexesCodes(byCode, capabilities) && IndexesUnits(byUnit, definitions)
    ensures ok <==> Known(reference, inUse, Elements(capabilities), Elements(definitions))
  {
    hide IsDefinition;
    var key := UnitKey(reference.code, reference.version);
    if key in byUnit {
      DefinitionsHaveCodes(definitions, byUnit[key]);
      UnitKeyInjective(reference.code, reference.version, byUnit[key].code, byUnit[key].version);
      assert byUnit[key] in Elements(definitions);
    }
    if reference.code in byCode { assert byCode[reference.code] in Elements(capabilities); }
    if reference.code !in byCode || byCode[reference.code].version != reference.version || key !in byUnit {
      return false;
    }
    if inUse && (!byCode[reference.code].display || byUnit[key].historical) { return false; }
    return true;
  }

  // ----- the whole function -------------------------------------------------------------------

  /** The checks after parsing: the context a tree states, if it is valid. */
  method CopyContext(input: Tree, numeric: Numeric) returns (context: Option<Context>)
    ensures context == match ContextOf(input, numeric)
                       case None => None
                       case Some(c) => if Valid(c) then Some(c) else None
  {
    hide ReferenceOf, SecondaryOf, CapabilitiesOf, DefinitionsOf, OnePerCode, OnePerUnit, Covered, Known, IsCapability, IsDefinition;
    var parts := TupleOf(input, 2);
    if parts.None? { return None; }
    var policy, units := TupleOf(parts.value[0], 5), EntriesOf(parts.value[1]);
    if policy.None? || units.None? { return None; }
    var p := policy.value;
    var entries := EntriesOf(p[4]);
    if entries.None? { return None; }
    var revision, base, browsing, secondary := TextOf(p[0]), ReferenceOf(p[1]), ReferenceOf(p[2]), SecondaryOf(p[3]);
    if revision.None? || !IsVersion(revision.value) || base.None? || browsing.None? || secondary.None? { return None; }
    if secondary.value.Some? && secondary.value.value.code == browsing.value.code { return None; }
    var copied, capabilities, byCode := CopyCapabilities(entries.value);
    if !copied { return None; }
    var defined, definitions, byUnit := CopyDefinitions(units.value, numeric);
    if !defined || |definitions| != |capabilities| { return None; }
    var c := Context(revision.value, base.value, browsing.value, secondary.value, capabilities, definitions);
    assert ContextOf(input, numeric) == Some(c);
    var covered := CheckCoverage(capabilities, definitions, byUnit);
    if !covered { return None; }
    var known := CheckReference(base.value, false, capabilities, byCode, definitions, byUnit);
    if !known { return None; }
    known := CheckReference(browsing.value, true, capabilities, byCode, definitions, byUnit);
    if !known { return None; }
    if secondary.value.Some? {
      known := CheckReference(secondary.value.value, true, capabilities, byCode, definitions, byUnit);
      if !known { return None; }
    }
    return Some(c);
  }

  /**
   The encoder.  Its last check, the ceiling on the canonical text, is in the source; that it refuses
   nothing is part of what is proved.
   */
  method EncodeCurrencyPolicyContext(text: Text, numeric: Numeric) returns (canonicalText: Option<Text>)
    ensures canonicalText.Some? <==> Accepted(text, numeric).Some?
    ensures canonicalText.Some? ==> canonicalText.value == Encoded(Accepted(text, numeric).value)
    ensures canonicalText.Some? ==> Utf8Length(canonicalText.value) <= CANONICAL_BYTES
  {
    hide ContextOf, LosslessJson.JsonParse, Valid, WriteContext, Utf8Length, SameFacts;
    LengthAtMostBytes(text);
    if |text| > INPUT_BYTES { return None; }
    if Utf8Length(text) > INPUT_BYTES { return None; }
    var input := LosslessJson.JsonParse(text);
    if input.None? { return None; }
    var context := CopyContext(input.value, numeric);
    if context.None? { return None; }
    var c := context.value;
    CanonicalIsStable(c);
    ValidIsWellTyped(Canonical(c));
    var sorted := c.(capabilities := Sort(c.capabilities, CapabilityLess), definitions := Sort(c.definitions, DefinitionLess));
    var output := TextOfContext(sorted);
    CanonicalTextFits(sorted);
    if Utf8Length(output) > CANONICAL_BYTES { return None; }
    return Some(output);
  }
}
