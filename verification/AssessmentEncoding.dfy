/**
 The whole assessment (packages/database/src/private/currency-selection-assessment.ts): the rules between
 its parts and the stable intent, and one canonical text for each set of facts.
 */
module AssessmentEncoding {
  import opened CodeUnits
  import opened Gregorian
  import opened JsonArrays
  import opened JsonGrammar
  import opened Options
  import opened PolicyContext
  import opened SelectionAssessment
  import opened SelectionIntent
  import opened Sorting
  import BusinessDates

  const TITLE: Text := Units("currency-selection-assessment-v1")
  const ABSENT: Text := Units("absent")
  const UNASSESSED: Text := Units("unassessed")
  const SELECTED: Text := Units("selected")
  const TOTP: Text := Units("totp")
  const RECOVERY: Text := Units("recovery")

  // ----- the parts ----------------------------------------------------------------------------

  datatype Control =
    | Absent
    | Unassessed(createdAt: Text)
    | Selected(generation: Text, revision: Text, latch: bool, code: Text, version: Text, exponent: nat, createdAt: Text)

  /** recovery is the factor's id when the kind is recovery, and null when it is totp. */
  datatype Auth = Auth(
    id: Text, domain: Text, actor: Text, profile: Text, session: Text, epoch: Text, credential: Text,
    recoveryEpoch: Text, recovery: Option<Text>)

  datatype Assessment = Assessment(
    digest: Text, control: Control, proposed: Context, prior: Option<Context>, anchor: Option<Definition>,
    auth: Auth, evidence: seq<Evidence>)

  predicate DigitsAt(t: Text, from: nat, to: nat) {
    to <= |t| && forall i | from <= i < to :: IsDigit(t[i])
  }

  /** A UTC time that toISOString writes back as it stands. */
  predicate IsUtc(t: Text) {
    && |t| == 24
    && DigitsAt(t, 0, 4) && DigitsAt(t, 5, 7) && DigitsAt(t, 8, 10) && DigitsAt(t, 11, 13) && DigitsAt(t, 14, 16)
    && DigitsAt(t, 17, 19) && DigitsAt(t, 20, 23)
    && t[4] == MINUS && t[7] == MINUS && t[10] == 'T' as int && t[13] == COLON && t[16] == COLON && t[19] == POINT
    && t[23] == 'Z' as int
    && 1 <= BusinessDates.Number2(t[5..7]) <= 12
    && IsDate(Civil(100 * BusinessDates.Number2(t[..2]) + BusinessDates.Number2(t[2..4]),
                    BusinessDates.Number2(t[5..7]) - 1, BusinessDates.Number2(t[8..10])))
    && BusinessDates.Number2(t[11..13]) < 24 && BusinessDates.Number2(t[14..16]) < 60
    && BusinessDates.Number2(t[17..19]) < 60
  }

  predicate IsControl(c: Control) {
    match c
    case Absent => true
    case Unassessed(createdAt) => IsUtc(createdAt)
    case Selected(generation, revision, _, code, version, exponent, createdAt) =>
      IsPositiveCounter(generation) && IsVersion(revision) && IsCode(code) && IsVersion(version) && exponent <= 4
      && IsUtc(createdAt)
  }

  predicate IsAuth(a: Auth) {
    && IsUuid(a.id) && IsUuid(a.domain) && IsUuid(a.actor) && IsUuid(a.profile) && IsUuid(a.session)
    && IsPositiveCounter(a.epoch) && IsUuid(a.credential) && IsPositiveCounter(a.recoveryEpoch)
    && (a.recovery.Some? ==> IsUuid(a.recovery.value))
  }

  // ----- the canonical tuple ------------------------------------------------------------------

  function Null(): Value {
    Constant(JsonGrammar.Null)
  }

  function ControlTag(c: Control): Text {
    match c
    case Absent => ABSENT
    case Unassessed(_) => UNASSESSED
    case Selected(_, _, _, _, _, _, _) => SELECTED
  }

  function ControlFields(c: Control): (vs: seq<Value>)
    requires IsControl(c)
    ensures |vs| == 8 && vs[0] == WriteString(ControlTag(c))
  {
    match c
    case Absent => [WriteString(ABSENT), Null(), Null(), Null(), Null(), Null(), Null(), Null()]
    case Unassessed(createdAt) =>
      [WriteString(UNASSESSED), WriteString([ZERO]), Null(), Null(), Null(), Null(), Null(), WriteString(createdAt)]
    case Selected(generation, revision, latch, code, version, exponent, createdAt) =>
      [WriteString(SELECTED), WriteString(generation), WriteString(revision), WriteBool(latch),
       WriteString(code), WriteString(version), WriteDigit(exponent), WriteString(createdAt)]
  }

  function WriteControl(c: Control): Value
    requires IsControl(c)
  {
    WriteArray(ControlFields(c))
  }

  function FactorKind(recovery: Option<Text>): Text {
    if recovery.None? then TOTP else RECOVERY
  }

  function AuthFields(a: Auth): (vs: seq<Value>)
    ensures |vs| == 10
  {
    [WriteString(a.id), WriteString(a.domain), WriteString(a.actor), WriteString(a.profile),
     WriteString(a.session), WriteString(a.epoch), WriteString(a.credential), WriteString(a.recoveryEpoch),
     WriteString(FactorKind(a.recovery)), WriteOptional(a.recovery)]
  }

  function WriteAuth(a: Auth): Value {
    WriteArray(AuthFields(a))
  }

  function WriteEvidences(es: seq<Evidence>): seq<Value> {
    seq(|es|, i requires 0 <= i < |es| => WriteEvidence(es[i]))
  }

  function WritePrior(c: Option<Context>): Value
    requires c.Some? ==> WellTyped(c.value)
  {
    match c case None => Null() case Some(context) => WriteContext(context)
  }

  function WriteAnchor(d: Option<Definition>): Value
    requires d.Some? ==> IsDefinition(d.value)
  {
    match d case None => Null() case Some(unit) => WriteDefinition(unit)
  }

  /** Each part passes its own test; only a selected control has a prior context and an anchor. */
  predicate Typed(a: Assessment) {
    && IsDigest(a.digest) && IsControl(a.control) && WellTyped(a.proposed)
    && (a.control.Selected? <==> a.prior.Some?) && (a.prior.Some? <==> a.anchor.Some?)
    && (a.prior.Some? ==> WellTyped(a.prior.value)) && (a.anchor.Some? ==> IsDefinition(a.anchor.value))
    && IsAuth(a.auth) && 1 <= |a.evidence| <= ENTRIES && forall i | 0 <= i < |a.evidence| :: IsEvidence(a.evidence[i])
  }

  function AssessmentFields(a: Assessment): (vs: seq<Value>)
    requires Typed(a)
    ensures |vs| == 8
  {
    [WriteString(TITLE), WriteString(a.digest), WriteControl(a.control), WriteContext(a.proposed), WritePrior(a.prior),
     WriteAnchor(a.anchor), WriteAuth(a.auth), WriteArray(WriteEvidences(a.evidence))]
  }

  function WriteAssessment(a: Assessment): Value
    requires Typed(a)
  {
    WriteArray(AssessmentFields(a))
  }

  function TextOfAssessment(a: Assessment): Text
    requires Typed(a)
  {
    Print(WriteAssessment(a))
  }

  // ----- the rules ----------------------------------------------------------------------------

  function FindUnit(ds: seq<Definition>, r: Reference): Option<Definition> {
    if ds == [] then None
    else if ds[0].code == r.code && ds[0].version == r.version then Some(ds[0])
    else FindUnit(ds[1..], r)
  }

  function BaseDefinition(c: Context): Option<Definition> {
    FindUnit(c.definitions, c.base)
  }

  /** The control repeats what the stable intent expects. */
  predicate ControlMatches(stable: Intent, control: Control) {
    if control.Selected? then
      stable.action == Replace && control.generation == stable.expectedGeneration
      && stable.expectedRevision == Some(control.revision)
    else
      stable.action != Replace && stable.expectedRevision.None? && stable.expectedGeneration == [ZERO]
  }

  /** The anchored base definition is kept: exactly before the latch, in code and exponent after it. */
  predicate AnchorHolds(control: Control, proposedBase: Option<Definition>, priorBase: Option<Definition>, anchor: Definition)
    requires control.Selected?
  {
    && anchor.code == control.code && anchor.version == control.version && anchor.exponent == control.exponent
    && priorBase.Some?
    && (if !control.latch then priorBase.value == anchor
        else
          && priorBase.value.code == anchor.code && priorBase.value.exponent == anchor.exponent
          && proposedBase.Some? && proposedBase.value.code == anchor.code && proposedBase.value.exponent == anchor.exponent)
  }

  predicate PriorHolds(a: Assessment) {
    if !a.control.Selected? then a.prior.None? && a.anchor.None?
    else
      && a.prior.Some? && Valid(a.prior.value) && a.anchor.Some? && IsDefinition(a.anchor.value)
      && a.prior.value.revision == a.control.revision
      && AnchorHolds(a.control, BaseDefinition(a.proposed), BaseDefinition(a.prior.value), a.anchor.value)
  }

  /** The assessment is bound to the intent and its digest, and its parts fit together. */
  predicate Admitted(stable: Intent, digest: Text, a: Assessment) {
    && IsDigest(a.digest) && a.digest == digest
    && IsControl(a.control) && ControlMatches(stable, a.control)
    && Valid(a.proposed) && a.proposed.revision == stable.proposedRevision
    && PriorHolds(a)
    && Agreeing(AllDefinitions(a.proposed, a.prior, a.anchor))
    && IsAuth(a.auth)
    && EvidenceOk(a.evidence, stable.action == Adopt)
    && a.auth.domain == stable.domain && a.auth.actor == stable.actor && a.auth.session == stable.session
  }

  function CanonicalPrior(c: Option<Context>): Option<Context> {
    match c case None => None case Some(context) => Some(PolicyContext.Canonical(context))
  }

  function CanonicalForm(a: Assessment): Assessment {
    a.(proposed := PolicyContext.Canonical(a.proposed), prior := CanonicalPrior(a.prior),
       evidence := Sort(a.evidence, EvidenceLess))
  }

  predicate SamePrior(c: Option<Context>, e: Option<Context>) {
    match (c, e)
    case (None, None) => true
    case (Some(x), Some(y)) => SameFacts(x, y)
    case _ => false
  }

  /** Equal but for the order of their lists. */
  predicate SameAssessment(a: Assessment, b: Assessment) {
    && a.digest == b.digest && a.control == b.control && SameFacts(a.proposed, b.proposed) && SamePrior(a.prior, b.prior)
    && a.anchor == b.anchor && a.auth == b.auth && Elements(a.evidence) == Elements(b.evidence)
  }

  // ----- the canonical form is admitted again ---------------------------------------------------

  lemma {:induction false} FindUnitFinds(ds: seq<Definition>, r: Reference)
    ensures FindUnit(ds, r).Some? <==> exists d | d in ds :: d.code == r.code && d.version == r.version
    ensures FindUnit(ds, r).Some? ==>
      FindUnit(ds, r).value in ds && FindUnit(ds, r).value.code == r.code && FindUnit(ds, r).value.version == r.version
  {
    if ds != [] {
      assert ds == [ds[0]] + ds[1..];
      if !(ds[0].code == r.code && ds[0].version == r.version) { FindUnitFinds(ds[1..], r); }
    }
  }

  /** With one definition per unit the order of the list does not matter to the search. */
  lemma FindUnitBySet(ds: seq<Definition>, es: seq<Definition>, r: Reference)
    requires OnePerUnit(ds) && Elements(ds) == Elements(es)
    ensures FindUnit(ds, r) == FindUnit(es, r)
  {
    hide FindUnit;
    FindUnitFinds(ds, r);
    FindUnitFinds(es, r);
    assert forall d :: d in ds <==> d in Elements(ds);
    assert forall d :: d in es <==> d in Elements(es);
    if FindUnit(ds, r).Some? {
      var a, b := FindUnit(ds, r).value, FindUnit(es, r).value;
      assert b in ds;
      var i :| 0 <= i < |ds| && ds[i] == a;
      var j :| 0 <= j < |ds| && ds[j] == b;
      assert UnitKey(a.code, a.version) == UnitKey(b.code, b.version);
    }
  }

  lemma AgreeingBySet(ds: seq<Definition>, es: seq<Definition>)
    requires Elements(ds) == Elements(es) && Agreeing(ds)
    ensures Agreeing(es)
  {
    hide AgreeOn;
    forall i, j | 0 <= i < |es| && 0 <= j < |es| ensures AgreeOn(es[i], es[j]) {
      assert es[i] in Elements(ds) && es[j] in Elements(ds);
    }
  }

  lemma ElementsOfAll(a: Assessment, b: Assessment)
    requires SameAssessment(a, b)
    ensures Elements(AllDefinitions(a.proposed, a.prior, a.anchor)) == Elements(AllDefinitions(b.proposed, b.prior, b.anchor))
  {
    hide SameFacts;
    FactsOf(a.proposed, b.proposed);
    if a.prior.Some? { FactsOf(a.prior.value, b.prior.value); }
    var x := match a.prior case Some(c) => c.definitions case None => [];
    var y := match b.prior case Some(c) => c.definitions case None => [];
    var z := match a.anchor case Some(d) => [d] case None => [];
    ElementsConcat(a.proposed.definitions, x, z);
    ElementsConcat(b.proposed.definitions, y, z);
  }

  lemma FactsOf(c: Context, e: Context)
    requires SameFacts(c, e)
    ensures Elements(c.definitions) == Elements(e.definitions)
  {
  }

  lemma ElementsConcat(x: seq<Definition>, y: seq<Definition>, z: seq<Definition>)
    ensures Elements(x + y + z) == Elements(x) + Elements(y) + Elements(z)
  {
  }

  lemma CanonicalSays(stable: Intent, digest: Text, a: Assessment)
    requires Admitted(stable, digest, a)
    ensures SameAssessment(a, CanonicalForm(a))
    ensures Valid(CanonicalForm(a).proposed) && (a.prior.Some? ==> Valid(a.prior.value) && Valid(CanonicalForm(a).prior.value))
    ensures CanonicalForm(CanonicalForm(a)) == CanonicalForm(a)
  {
    hide Valid, SameFacts, PolicyContext.Canonical, IsControl, IsAuth, Agreeing, EvidenceOk, AnchorHolds, ControlMatches;
    CanonicalIsStable(a.proposed);
    if a.prior.Some? { CanonicalIsStable(a.prior.value); }
    SortedEvidence(a.evidence, stable.action == Adopt);
  }

  lemma BaseBySet(c: Context, e: Context)
    requires Valid(c) && SameFacts(c, e)
    ensures BaseDefinition(c) == BaseDefinition(e) && c.revision == e.revision
  {
    hide FindUnit, WellTyped, OnePerUnit, OnePerCode, Consistent;
    FindUnitBySet(c.definitions, e.definitions, c.base);
  }

  /** The canonical form of an admitted assessment is admitted, and is its own canonical form. */
  lemma CanonicalFormIsStable(stable: Intent, digest: Text, a: Assessment)
    requires Admitted(stable, digest, a)
    ensures Admitted(stable, digest, CanonicalForm(a)) && CanonicalForm(CanonicalForm(a)) == CanonicalForm(a)
  {
    hide Valid, SameFacts, PolicyContext.Canonical, IsControl, IsAuth, Agreeing, AllDefinitions, EvidenceOk, BaseDefinition,
      AnchorHolds, ControlMatches, IsDefinition, IsDigest, WriteControl, WriteAuth, Sort;
    CanonicalSays(stable, digest, a);
    var b := CanonicalForm(a);
    ElementsOfAll(a, b);
    AgreeingBySet(AllDefinitions(a.proposed, a.prior, a.anchor), AllDefinitions(b.proposed, b.prior, b.anchor));
    SortedEvidence(a.evidence, stable.action == Adopt);
    BaseBySet(a.proposed, b.proposed);
    if a.prior.Some? { BaseBySet(a.prior.value, b.prior.value); }
  }

  lemma EvidenceSuffices(es: seq<Evidence>, adopting: bool)
    requires EvidenceOk(es, adopting)
    ensures EvidenceOk(es, false)
  {
  }

  /** The rules may as well be checked on the contexts in canonical order. */
  lemma CanonicalContextsSay(stable: Intent, digest: Text, a: Assessment)
    requires Valid(a.proposed) && (a.prior.Some? ==> Valid(a.prior.value))
    ensures var b := a.(proposed := PolicyContext.Canonical(a.proposed), prior := CanonicalPrior(a.prior));
      Admitted(stable, digest, b) <==> Admitted(stable, digest, a)
  {
    hide Valid, SameFacts, PolicyContext.Canonical, IsControl, IsAuth, Agreeing, AllDefinitions, EvidenceOk, BaseDefinition,
      AnchorHolds, ControlMatches, IsDefinition, IsDigest, WriteControl, WriteAuth, Sort;
    var b := a.(proposed := PolicyContext.Canonical(a.proposed), prior := CanonicalPrior(a.prior));
    CanonicalIsStable(a.proposed);
    BaseBySet(a.proposed, b.proposed);
    if a.prior.Some? {
      CanonicalIsStable(a.prior.value);
      BaseBySet(a.prior.value, b.prior.value);
    }
    ElementsOfAll(a, b);
    var ds, es := AllDefinitions(a.proposed, a.prior, a.anchor), AllDefinitions(b.proposed, b.prior, b.anchor);
    if Agreeing(ds) { AgreeingBySet(ds, es); }
    if Agreeing(es) { AgreeingBySet(es, ds); }
  }

  /** Admitted assessments have one canonical form exactly when they state the same facts. */
  lemma CanonicalFormIsTheFacts(stable: Intent, digest: Text, a: Assessment, other: Intent, otherDigest: Text, b: Assessment)
    requires Admitted(stable, digest, a) && Admitted(other, otherDigest, b)
    ensures CanonicalForm(a) == CanonicalForm(b) <==> SameAssessment(a, b)
  {
    hide Valid, SameFacts, PolicyContext.Canonical, IsControl, IsAuth, Agreeing, AllDefinitions, EvidenceOk, BaseDefinition,
      AnchorHolds, ControlMatches, IsDefinition, IsDigest, WriteControl, WriteAuth, Sort;
    CanonicalIsTheFacts(a.proposed, b.proposed);
    if a.prior.Some? && b.prior.Some? { CanonicalIsTheFacts(a.prior.value, b.prior.value); }
    EvidenceSuffices(a.evidence, stable.action == Adopt);
    EvidenceSuffices(b.evidence, other.action == Adopt);
    EvidenceIsItsFacts(a.evidence, b.evidence, false);
  }

  lemma AdmittedIsTyped(stable: Intent, digest: Text, a: Assessment)
    requires Admitted(stable, digest, a)
    ensures Typed(a)
  {
    hide IsControl, IsDefinition, WellTyped, IsAuth, Agreeing, AnchorHolds, ControlMatches, BaseDefinition;
    ValidIsWellTyped(a.proposed);
    if a.prior.Some? { ValidIsWellTyped(a.prior.value); }
  }
}
