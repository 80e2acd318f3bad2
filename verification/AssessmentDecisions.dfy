/**
 What a selection intent and its assessment are, member by member: the tuples their texts must be, what an
 intent may expect, and which assessments fit it.
 */
module AssessmentDecisions {
  import opened AssessmentEncoding
  import opened AssessmentText
  import opened CodeUnits
  import opened JsonArrays
  import opened JsonGrammar
  import opened Options
  import opened PolicyContext
  import opened PolicyDecisions
  import opened SelectionAssessment
  import opened SelectionIntent
  import opened Sorting

  const NOTHING: Tree := Atom(JsonGrammar.Null)

  function TextOrNull(t: Option<Text>): Tree {
    match t case None => NOTHING case Some(text) => TextLeaf(text)
  }

  // ----- the intent ---------------------------------------------------------------------------

  function ActionName(a: Action): Text {
    match a
    case Initialize => Units("initialize")
    case Adopt => Units("adopt")
    case Replace => Units("replace")
  }

  function IntentForm(i: Intent): Tree {
    Tuple([TextLeaf(Units("currency-selection-request-v1")), Tuple([TextLeaf(i.installation), TextLeaf(i.domain)]),
           TextLeaf(ActionName(i.action)), TextLeaf(i.actor), TextLeaf(i.session), TextLeaf(i.requestKey),
           TextOrNull(i.expectedRevision), TextLeaf(i.expectedGeneration), TextLeaf(i.proposedRevision)])
  }

  lemma ActionMeans(t: Tree, a: Action)
    ensures ActionOf(t) == Some(a) <==> t == TextLeaf(ActionName(a))
  {
    assert |ActionText(Initialize)| == 10 && |ActionText(Adopt)| == 5 && |ActionText(Replace)| == 7;
  }

  lemma NineOf<T>(f: seq<T>)
    requires |f| == 9
    ensures f == [f[0], f[1], f[2], f[3], f[4], f[5], f[6], f[7], f[8]]
  {
  }

  lemma OptionalMeans(t: Tree, x: Option<Text>)
    ensures OptionalText(t) == Some(x) <==> t == TextOrNull(x)
  {
  }

  lemma IntentRead(t: Tree, i: Intent)
    requires IntentOf(t) == Some(i)
    ensures t == IntentForm(i)
  {
    hide Tuple, ActionOf, OptionalText, TupleOf, ActionName;
    var f := TupleOf(t, 9).value;
    TupleOfMeans(t, 9);
    TupleOfMeans(f[1], 2);
    NineOf(f);
    TwoOf(TupleOf(f[1], 2).value);
    ActionMeans(f[2], i.action);
    OptionalMeans(f[6], i.expectedRevision);
  }

  lemma IntentWritten(t: Tree, i: Intent)
    requires t == IntentForm(i)
    ensures IntentOf(t) == Some(i)
  {
    hide Tuple, ActionOf, OptionalText, TupleOf, ActionName;
    var identity := Tuple([TextLeaf(i.installation), TextLeaf(i.domain)]);
    TupleMeans(identity, [TextLeaf(i.installation), TextLeaf(i.domain)]);
    TupleMeans(t, [TextLeaf(INTENT_TITLE), identity, TextLeaf(ActionName(i.action)), TextLeaf(i.actor), TextLeaf(i.session),
                   TextLeaf(i.requestKey), TextOrNull(i.expectedRevision), TextLeaf(i.expectedGeneration),
                   TextLeaf(i.proposedRevision)]);
    ActionMeans(TextLeaf(ActionName(i.action)), i.action);
    OptionalMeans(TextOrNull(i.expectedRevision), i.expectedRevision);
  }

  /** An intent is read from exactly its own tuple. */
  lemma IntentMeans(t: Tree, i: Intent)
    ensures IntentOf(t) == Some(i) <==> t == IntentForm(i)
  {
    hide IntentOf, IntentForm;
    if IntentOf(t) == Some(i) { IntentRead(t, i); }
    if t == IntentForm(i) { IntentWritten(t, i); }
  }

  /**
   A replacement expects a revision other than the one it proposes, at a generation from 1 on; every other
   action expects nothing, at generation 0.
   */
  lemma ExpectationMeans(i: Intent)
    ensures ValidIntent(i) <==>
      && (forall id | id in {i.installation, i.domain, i.actor, i.session} :: IsUuid(id))
      && IsRequestKey(i.requestKey) && IsVersion(i.proposedRevision)
      && (i.action == Replace ==>
            && i.expectedRevision.Some? && IsVersion(i.expectedRevision.value)
            && i.expectedRevision != Some(i.proposedRevision) && IsPositiveCounter(i.expectedGeneration))
      && (i.action != Replace ==> i.expectedRevision == None && i.expectedGeneration == Units("0"))
  {
    hide IsUuid, IsRequestKey, IsVersion;
    assert [ZERO] == Units("0");
    assert !IsPositiveCounter([ZERO]);
  }

  // ----- the parts of an assessment -----------------------------------------------------------

  function ControlMembers(c: Control, exponent: Text): (ts: seq<Tree>)
    ensures |ts| == 8
  {
    match c
    case Absent => [TextLeaf(Units("absent")), NOTHING, NOTHING, NOTHING, NOTHING, NOTHING, NOTHING, NOTHING]
    case Unassessed(createdAt) =>
      [TextLeaf(Units("unassessed")), TextLeaf(Units("0")), NOTHING, NOTHING, NOTHING, NOTHING, NOTHING, TextLeaf(createdAt)]
    case Selected(generation, revision, latch, code, version, _, createdAt) =>
      [TextLeaf(Units("selected")), TextLeaf(generation), TextLeaf(revision), Flag(latch), TextLeaf(code), TextLeaf(version),
       NumberToken(exponent), TextLeaf(createdAt)]
  }

  function ControlForm(c: Control, exponent: Text): Tree {
    Tuple(ControlMembers(c, exponent))
  }

  predicate ControlSpelled(c: Control, exponent: Text, numeric: Numeric) {
    c.Selected? ==> numeric(exponent) == Some(c.exponent)
  }

  lemma EightOf<T>(f: seq<T>)
    requires |f| == 8
    ensures f == [f[0], f[1], f[2], f[3], f[4], f[5], f[6], f[7]]
  {
  }

  lemma Tags()
    ensures Units("absent") != Units("unassessed") && Units("unassessed") != Units("selected")
    ensures Units("selected") != Units("absent")
    ensures ABSENT == Units("absent") && UNASSESSED == Units("unassessed") && SELECTED == Units("selected")
    ensures [ZERO] == Units("0")
  {
    assert |Units("absent")| == 6 && |Units("unassessed")| == 10 && |Units("selected")| == 8;
  }

  lemma ControlFieldsRead(f: seq<Tree>, numeric: Numeric) returns (exponent: Text)
    requires |f| == 8 && ControlFieldsOf(f, numeric).Some?
    ensures var c := ControlFieldsOf(f, numeric).value; ControlSpelled(c, exponent, numeric) && f == ControlMembers(c, exponent)
  {
    hide Units, BoolOf;
    Tags();
    EightOf(f);
    exponent := if f[6].NumberToken? then f[6].token else [];
    var c := ControlFieldsOf(f, numeric).value;
    if c.Selected? { FlagMeans(f[3], c.latch); }
  }

  lemma ControlFieldsWritten(numeric: Numeric, c: Control, exponent: Text)
    requires ControlSpelled(c, exponent, numeric) && (c.Selected? ==> c.exponent <= 4)
    ensures ControlFieldsOf(ControlMembers(c, exponent), numeric) == Some(c)
  {
    hide Units, BoolOf;
    Tags();
    if c.Selected? { FlagMeans(Flag(c.latch), c.latch); }
  }

  /** The control: absent, unassessed at its time, or selected with all that it anchors. */
  lemma ControlMeans(t: Tree, numeric: Numeric, c: Control)
    ensures ControlOf(t, numeric) == Some(c)
            <==> IsControl(c) && exists exponent :: ControlSpelled(c, exponent, numeric) && t == ControlForm(c, exponent)
  {
    hide IsControl, ControlFieldsOf, Tuple, TupleOf, ControlSpelled, ControlMembers;
    if ControlOf(t, numeric) == Some(c) {
      var f := TupleOf(t, 8).value;
      TupleOfMeans(t, 8);
      var exponent := ControlFieldsRead(f, numeric);
    }
    forall exponent | IsControl(c) && ControlSpelled(c, exponent, numeric) && t == ControlForm(c, exponent)
      ensures ControlOf(t, numeric) == Some(c)
    {
      TupleMeans(t, ControlMembers(c, exponent));
      ControlExponent(c);
      ControlFieldsWritten(numeric, c, exponent);
    }
  }

  lemma ControlExponent(c: Control)
    requires IsControl(c)
    ensures c.Selected? ==> c.exponent <= 4
  {
  }

  /** A recovery factor with its id, or a one-time code without one. */
  function AuthForm(a: Auth): Tree {
    Tuple([TextLeaf(a.id), TextLeaf(a.domain), TextLeaf(a.actor), TextLeaf(a.profile), TextLeaf(a.session), TextLeaf(a.epoch),
           TextLeaf(a.credential), TextLeaf(a.recoveryEpoch),
           TextLeaf(Units(if a.recovery.Some? then "recovery" else "totp")), TextOrNull(a.recovery)])
  }

  lemma FactorMeans(kind: Tree, recovery: Tree, r: Option<Text>)
    ensures FactorOf(kind, recovery) == Some(r)
            <==> kind == TextLeaf(Units(if r.Some? then "recovery" else "totp")) && recovery == TextOrNull(r)
  {
    assert |Units("recovery")| == 8 && |Units("totp")| == 4;
  }

  lemma TenOf<T>(f: seq<T>)
    requires |f| == 10
    ensures f == [f[0], f[1], f[2], f[3], f[4], f[5], f[6], f[7], f[8], f[9]]
  {
  }

  lemma AuthMeans(t: Tree, a: Auth)
    ensures AuthOf(t) == Some(a) <==> t == AuthForm(a) && IsAuth(a)
  {
    hide IsAuth, Tuple, FactorOf, TupleOf, TextOrNull;
    var kind, recovery := TextLeaf(Units(if a.recovery.Some? then "recovery" else "totp")), TextOrNull(a.recovery);
    if AuthOf(t) == Some(a) {
      var f := TupleOf(t, 10).value;
      TupleOfMeans(t, 10);
      TenOf(f);
      FactorMeans(f[8], f[9], a.recovery);
    }
    if t == AuthForm(a) && IsAuth(a) {
      TupleMeans(t, [TextLeaf(a.id), TextLeaf(a.domain), TextLeaf(a.actor), TextLeaf(a.profile), TextLeaf(a.session),
                     TextLeaf(a.epoch), TextLeaf(a.credential), TextLeaf(a.recoveryEpoch), kind, recovery]);
      FactorMeans(kind, recovery, a.recovery);
    }
  }

  function EvidenceForm(e: Evidence): Tree {
    Tuple([TextLeaf(e.kind), TextLeaf(e.id), TextLeaf(e.version), TextLeaf(e.digest)])
  }

  function EvidenceForms(es: seq<Evidence>): seq<Tree> {
    seq(|es|, i requires 0 <= i < |es| => EvidenceForm(es[i]))
  }

  lemma FourOf<T>(f: seq<T>)
    requires |f| == 4
    ensures f == [f[0], f[1], f[2], f[3]]
  {
  }

  lemma OneEvidenceMeans(t: Tree, e: Evidence)
    ensures EvidenceOf(t) == Some(e) <==> t == EvidenceForm(e)
  {
    hide Tuple;
    TupleMeans(t, [TextLeaf(e.kind), TextLeaf(e.id), TextLeaf(e.version), TextLeaf(e.digest)]);
    if TupleOf(t, 4).Some? { FourOf(TupleOf(t, 4).value); }
  }

  lemma {:induction false} EvidencesMean(ts: seq<Tree>, es: seq<Evidence>)
    ensures EvidencesOf(ts) == Some(es) <==> ts == EvidenceForms(es)
  {
    hide EvidenceOf, EvidenceForm;
    if ts != [] && es != [] {
      OneEvidenceMeans(ts[0], es[0]);
      EvidencesMean(ts[1..], es[1..]);
      assert EvidenceForms(es)[1..] == EvidenceForms(es[1..]) && EvidenceForms(es)[0] == EvidenceForm(es[0]);
      assert ts == [ts[0]] + ts[1..] && es == [es[0]] + es[1..];
      assert EvidenceForms(es) == [EvidenceForms(es)[0]] + EvidenceForms(es)[1..];
    }
  }

  lemma EvidenceListMeans(t: Tree, es: seq<Evidence>)
    ensures EvidenceListOf(t) == Some(es) <==> t == Tuple(EvidenceForms(es)) && 1 <= |es| <= 32
  {
    hide Tuple, EvidencesOf, EvidenceForm;
    TupleMeans(t, EvidenceForms(es));
    if t.Array? { EvidencesMean(ListOf(t.items), es); }
  }

  // ----- the assessment -----------------------------------------------------------------------

  /** How the numbers of an assessment are spelled. */
  datatype Spelling = Spelling(control: Text, proposed: seq<Text>, prior: seq<Text>, anchor: Text)

  predicate Spelled(a: Assessment, s: Spelling, numeric: Numeric) {
    && ControlSpelled(a.control, s.control, numeric) && AllSpelled(s.proposed, a.proposed.definitions, numeric)
    && (a.prior.Some? ==> AllSpelled(s.prior, a.prior.value.definitions, numeric))
    && (a.anchor.Some? ==> Spells(s.anchor, a.anchor.value, numeric))
  }

  function PriorForm(c: Option<Context>, exponents: seq<Text>): Tree
    requires c.Some? ==> |exponents| == |c.value.definitions|
  {
    match c case None => NOTHING case Some(context) => ContextForm(context, exponents)
  }

  function AnchorForm(d: Option<Definition>, exponent: Text): Tree {
    match d case None => NOTHING case Some(unit) => DefinitionForm(unit, exponent)
  }

  function AssessmentMembers(a: Assessment, s: Spelling, numeric: Numeric): (ts: seq<Tree>)
    requires Spelled(a, s, numeric)
    ensures |ts| == 8
  {
    [TextLeaf(Units("currency-selection-assessment-v1")), TextLeaf(a.digest), ControlForm(a.control, s.control),
     ContextForm(a.proposed, s.proposed), PriorForm(a.prior, s.prior), AnchorForm(a.anchor, s.anchor), AuthForm(a.auth),
     Tuple(EvidenceForms(a.evidence))]
  }

  /** The parts pass their own tests, and only a selected control comes with a prior context and an anchor. */
  predicate PartsOk(a: Assessment) {
    && IsControl(a.control) && WellTyped(a.proposed) && IsAuth(a.auth) && 1 <= |a.evidence| <= 32
    && (if a.control.Selected? then
          a.prior.Some? && WellTyped(a.prior.value) && a.anchor.Some? && IsDefinition(a.anchor.value)
        else a.prior == None && a.anchor == None)
  }

  lemma PriorRead(selected: bool, prior: Tree, anchor: Tree, numeric: Numeric) returns (exponents: seq<Text>, exponent: Text)
    requires PriorOf(selected, prior, anchor, numeric).Some?
    ensures var (c, d) := PriorOf(selected, prior, anchor, numeric).value;
      && (c.Some? <==> selected) && (d.Some? <==> selected)
      && (c.Some? ==> AllSpelled(exponents, c.value.definitions, numeric) && WellTyped(c.value))
      && (d.Some? ==> Spells(exponent, d.value, numeric) && IsDefinition(d.value))
      && prior == PriorForm(c, exponents) && anchor == AnchorForm(d, exponent)
  {
    hide ContextOf, DefinitionOf, WellTyped, IsDefinition, ContextForm, DefinitionForm, Spells;
    exponents, exponent := [], [];
    if selected {
      exponents := ContextRead(prior, numeric);
      exponent := DefinitionRead(anchor, numeric);
    }
  }

  lemma PriorWritten(a: Assessment, s: Spelling, numeric: Numeric)
    requires Spelled(a, s, numeric) && PartsOk(a)
    ensures PriorOf(a.control.Selected?, PriorForm(a.prior, s.prior), AnchorForm(a.anchor, s.anchor), numeric)
         == Some((a.prior, a.anchor))
  {
    hide ContextOf, DefinitionOf, WellTyped, IsDefinition, ContextForm, DefinitionForm, Spells, IsControl, IsAuth;
    if a.control.Selected? {
      ContextWritten(ContextForm(a.prior.value, s.prior), numeric, a.prior.value, s.prior);
      DefinitionWritten(DefinitionForm(a.anchor.value, s.anchor), numeric, a.anchor.value, s.anchor);
    }
  }

  lemma FieldsRead(f: seq<Tree>, numeric: Numeric)
    requires |f| == 8 && AssessmentFieldsOf(f, numeric).Some?
    ensures var a := AssessmentFieldsOf(f, numeric).value;
      && f[0] == TextLeaf(TITLE) && f[1] == TextLeaf(a.digest) && ControlOf(f[2], numeric) == Some(a.control)
      && ContextOf(f[3], numeric) == Some(a.proposed)
      && PriorOf(a.control.Selected?, f[4], f[5], numeric) == Some((a.prior, a.anchor))
      && AuthOf(f[6]) == Some(a.auth) && EvidenceListOf(f[7]) == Some(a.evidence)
  {
    hide ContextOf, ControlOf, AuthOf, EvidenceListOf, PriorOf, IsControl, IsAuth, WellTyped;
  }

  lemma PartsRead(f: seq<Tree>, numeric: Numeric) returns (s: Spelling)
    requires |f| == 8 && AssessmentFieldsOf(f, numeric).Some?
    ensures var a := AssessmentFieldsOf(f, numeric).value;
      && PartsOk(a) && Spelled(a, s, numeric)
      && f[2] == ControlForm(a.control, s.control) && f[3] == ContextForm(a.proposed, s.proposed)
      && f[4] == PriorForm(a.prior, s.prior) && f[5] == AnchorForm(a.anchor, s.anchor)
      && f[6] == AuthForm(a.auth) && f[7] == Tuple(EvidenceForms(a.evidence))
  {
    hide Tuple, TupleOf, AssessmentFieldsOf, ContextOf, ControlOf, AuthOf, EvidenceListOf, PriorOf, WellTyped, IsControl, IsAuth,
      IsDefinition, ControlSpelled, AllSpelled, Spells, ControlForm, ContextForm, AuthForm, EvidenceForms, DefinitionForm,
      PriorForm, AnchorForm;
    var a := AssessmentFieldsOf(f, numeric).value;
    FieldsRead(f, numeric);
    ControlMeans(f[2], numeric, a.control);
    var control :| ControlSpelled(a.control, control, numeric) && f[2] == ControlForm(a.control, control);
    var proposed := ContextRead(f[3], numeric);
    var prior, anchor := PriorRead(a.control.Selected?, f[4], f[5], numeric);
    AuthMeans(f[6], a.auth);
    EvidenceListMeans(f[7], a.evidence);
    s := Spelling(control, proposed, prior, anchor);
  }

  lemma TitleMeans()
    ensures TITLE == Units("currency-selection-assessment-v1")
  {
  }

  lemma AssessmentRead(t: Tree, numeric: Numeric) returns (s: Spelling)
    requires AssessmentOf(t, numeric).Some?
    ensures var a := AssessmentOf(t, numeric).value;
      PartsOk(a) && Spelled(a, s, numeric) && t == Tuple(AssessmentMembers(a, s, numeric))
  {
    hide Tuple, TupleOf, AssessmentFieldsOf, PartsOk, Spelled, ControlForm, ContextForm, AuthForm, EvidenceForms, PriorForm,
      AnchorForm, Units;
    var f := TupleOf(t, 8).value;
    TupleOfMeans(t, 8);
    FieldsRead(f, numeric);
    EightOf(f);
    s := PartsRead(f, numeric);
    TitleMeans();
  }

  lemma FieldsWritten(f: seq<Tree>, numeric: Numeric, a: Assessment)
    requires |f| == 8 && f[0] == TextLeaf(TITLE) && f[1] == TextLeaf(a.digest) && ControlOf(f[2], numeric) == Some(a.control)
    requires ContextOf(f[3], numeric) == Some(a.proposed)
    requires PriorOf(a.control.Selected?, f[4], f[5], numeric) == Some((a.prior, a.anchor))
    requires AuthOf(f[6]) == Some(a.auth) && EvidenceListOf(f[7]) == Some(a.evidence)
    ensures AssessmentFieldsOf(f, numeric) == Some(a)
  {
    hide ContextOf, ControlOf, AuthOf, EvidenceListOf, PriorOf, IsControl, IsAuth, WellTyped;
  }

  lemma AssessmentWritten(numeric: Numeric, a: Assessment, s: Spelling)
    requires PartsOk(a) && Spelled(a, s, numeric)
    ensures AssessmentOf(Tuple(AssessmentMembers(a, s, numeric)), numeric) == Some(a)
  {
    hide Tuple, TupleOf, AssessmentFieldsOf, PriorForm, AnchorForm, ContextOf, ControlOf, AuthOf, EvidenceListOf, PriorOf,
      WellTyped, IsControl, IsAuth, IsDefinition, ControlSpelled, Spells, ControlForm, ContextForm, AuthForm, EvidenceForms,
      DefinitionForm, Units;
    var f := AssessmentMembers(a, s, numeric);
    TupleMeans(Tuple(f), f);
    ControlMeans(f[2], numeric, a.control);
    ContextWritten(f[3], numeric, a.proposed, s.proposed);
    PriorWritten(a, s, numeric);
    AuthMeans(f[6], a.auth);
    EvidenceListMeans(f[7], a.evidence);
    TitleMeans();
    FieldsWritten(f, numeric, a);
  }

  /** An assessment is read from exactly its own tuple, the spelling of its numbers left open. */
  lemma AssessmentMeans(t: Tree, numeric: Numeric, a: Assessment)
    ensures AssessmentOf(t, numeric) == Some(a)
            <==> PartsOk(a) && exists s :: Spelled(a, s, numeric) && t == Tuple(AssessmentMembers(a, s, numeric))
  {
    hide AssessmentOf, PartsOk, Spelled, Tuple, AssessmentMembers;
    if AssessmentOf(t, numeric) == Some(a) {
      var s := AssessmentRead(t, numeric);
    }
    forall s | PartsOk(a) && Spelled(a, s, numeric) && t == Tuple(AssessmentMembers(a, s, numeric))
      ensures AssessmentOf(t, numeric) == Some(a)
    {
      AssessmentWritten(numeric, a, s);
    }
  }

  // ----- which assessments fit an intent ------------------------------------------------------

  /** d is the definition of the context's base currency. */
  ghost predicate DefinesBase(c: Context, d: Definition) {
    d in c.definitions && d.code == c.base.code && d.version == c.base.version
  }

  /** The anchor is the unit the control names; the prior base is it, and a latch holds code and exponent of both bases. */
  ghost predicate AnchorKept(a: Assessment)
    requires a.control.Selected? && a.prior.Some? && a.anchor.Some?
  {
    var control, anchor := a.control, a.anchor.value;
    && anchor.code == control.code && anchor.version == control.version && anchor.exponent == control.exponent
    && (if control.latch then
          && (forall d | DefinesBase(a.prior.value, d) :: d.code == anchor.code && d.exponent == anchor.exponent)
          && (forall d | DefinesBase(a.proposed, d) :: d.code == anchor.code && d.exponent == anchor.exponent)
        else forall d | DefinesBase(a.prior.value, d) :: d == anchor)
  }

  /** What the control says has to be what the intent expects. */
  ghost predicate ControlFits(stable: Intent, a: Assessment) {
    match a.control
    case Selected(generation, revision, _, _, _, _, _) =>
      && stable.action == Replace && stable.expectedGeneration == generation && stable.expectedRevision == Some(revision)
      && a.prior.Some? && Valid(a.prior.value) && a.prior.value.revision == revision
      && a.anchor.Some? && IsDefinition(a.anchor.value) && AnchorKept(a)
    case _ =>
      && stable.action in {Initialize, Adopt} && stable.expectedGeneration == Units("0") && stable.expectedRevision == None
      && a.prior == None && a.anchor == None
  }

  /** One unit has one definition in all that the assessment states. */
  ghost predicate UnitsAgree(a: Assessment) {
    forall d, e | States(a, d) && States(a, e) && d.code == e.code && d.version == e.version :: d == e
  }

  ghost predicate States(a: Assessment, d: Definition) {
    d in a.proposed.definitions || (a.prior.Some? && d in a.prior.value.definitions) || a.anchor == Some(d)
  }

  const HISTORY_KIND: Text := Units("history")
  const COMPATIBILITY_KIND: Text := Units("compatibility")
  const ADOPTION_KIND: Text := Units("adoption")
  const HISTORY_FORMAT: Text := Units("currency-history-assessment-v1")
  const COMPATIBILITY_FORMAT: Text := Units("currency-compatibility-v1")
  const ADOPTION_FORMAT: Text := Units("currency-adoption-v1")

  /** Each kind of evidence comes in one version. */
  function VersionOf(kind: Text): Option<Text> {
    if kind == HISTORY_KIND then Some(HISTORY_FORMAT)
    else if kind == COMPATIBILITY_KIND then Some(COMPATIBILITY_FORMAT)
    else if kind == ADOPTION_KIND then Some(ADOPTION_FORMAT)
    else None
  }

  ghost predicate HasEvidence(es: seq<Evidence>, kind: Text) {
    exists e | e in es :: e.kind == kind
  }

  /** Evidence of history and compatibility, and of adoption for an adoption; no id twice for one kind. */
  ghost predicate EvidenceFits(es: seq<Evidence>, adopting: bool) {
    && 1 <= |es| <= 32
    && (forall e | e in es :: IsUuid(e.id) && IsDigest(e.digest) && VersionOf(e.kind) == Some(e.version))
    && (forall i, j | 0 <= i < |es| && 0 <= j < |es| && es[i].kind == es[j].kind && es[i].id == es[j].id :: i == j)
    && HasEvidence(es, HISTORY_KIND) && HasEvidence(es, COMPATIBILITY_KIND)
    && (adopting ==> HasEvidence(es, ADOPTION_KIND))
  }

  lemma KindMeans(e: Evidence)
    ensures IsEvidence(e) <==> IsUuid(e.id) && IsDigest(e.digest) && VersionOf(e.kind) == Some(e.version)
  {
    hide IsUuid, IsDigest;
    assert |HISTORY_KIND| == 7 && |COMPATIBILITY_KIND| == 13 && |ADOPTION_KIND| == 8;
  }

  lemma EvidenceAgrees(es: seq<Evidence>, adopting: bool)
    ensures EvidenceFits(es, adopting) <==> EvidenceOk(es, adopting)
  {
    hide IsUuid, IsDigest, Units, IdentityKey, VersionOf, IsEvidence;
    assert HISTORY == HISTORY_KIND && COMPATIBILITY == COMPATIBILITY_KIND && ADOPTION == ADOPTION_KIND;
    assert forall e :: e in Elements(es) <==> e in es;
    forall i | 0 <= i < |es| ensures es[i] in es { KindMeans(es[i]); }
    forall e | e in es ensures IsEvidence(e) <==> IsUuid(e.id) && IsDigest(e.digest) && VersionOf(e.kind) == Some(e.version) {
      KindMeans(e);
    }
    if EvidenceFits(es, adopting) || EvidenceOk(es, adopting) {
      forall i, j | 0 <= i < |es| && 0 <= j < |es|
        ensures IdentityKey(es[i]) == IdentityKey(es[j]) <==> es[i].kind == es[j].kind && es[i].id == es[j].id
      {
        assert IsUuid(es[i].id) && IsUuid(es[j].id) by { IdOf(es, adopting, es[i]); IdOf(es, adopting, es[j]); }
        KeysMean(es[i], es[j]);
      }
    }
  }

  lemma IdOf(es: seq<Evidence>, adopting: bool, e: Evidence)
    requires e in es && (EvidenceFits(es, adopting) || EvidenceOk(es, adopting))
    ensures IsUuid(e.id)
  {
    hide IsUuid, IsDigest, Units;
  }

  lemma KeysMean(a: Evidence, b: Evidence)
    requires IsUuid(a.id) && IsUuid(b.id)
    ensures IdentityKey(a) == IdentityKey(b) <==> a.kind == b.kind && a.id == b.id
  {
    hide IsUuid;
    if IdentityKey(a) == IdentityKey(b) { IdentityIsInjective(a, b); }
  }

  /** The search for the base finds its one definition. */
  lemma BaseMeans(c: Context, d: Definition)
    requires Valid(c)
    ensures BaseDefinition(c).Some?
    ensures BaseDefinition(c) == Some(d) <==> DefinesBase(c, d)
  {
    hide WellTyped, Covered, OnePerCode, FindUnit, FieldsOk, IsCode;
    ValidMeans(c);
    FindUnitFinds(c.definitions, c.base);
    assert Defined(c, c.base.code, c.base.version, false);
    if DefinesBase(c, d) {
      var e := BaseDefinition(c).value;
      var i :| 0 <= i < |c.definitions| && c.definitions[i] == d;
      var j :| 0 <= j < |c.definitions| && c.definitions[j] == e;
    }
  }

  lemma AnchorAgrees(a: Assessment)
    requires a.control.Selected? && a.prior.Some? && a.anchor.Some? && Valid(a.proposed) && Valid(a.prior.value)
    ensures AnchorKept(a) <==> AnchorHolds(a.control, BaseDefinition(a.proposed), BaseDefinition(a.prior.value), a.anchor.value)
  {
    hide Valid, BaseDefinition, DefinesBase;
    forall d ensures BaseDefinition(a.proposed).Some? && (BaseDefinition(a.proposed) == Some(d) <==> DefinesBase(a.proposed, d)) {
      BaseMeans(a.proposed, d);
    }
    forall d
      ensures BaseDefinition(a.prior.value).Some? && (BaseDefinition(a.prior.value) == Some(d) <==> DefinesBase(a.prior.value, d))
    {
      BaseMeans(a.prior.value, d);
    }
    var before, proposed := BaseDefinition(a.prior.value).value, BaseDefinition(a.proposed).value;
    assert DefinesBase(a.prior.value, before) && DefinesBase(a.proposed, proposed);
  }

  lemma UnitsAreAgreeing(a: Assessment)
    requires forall d | d in AllDefinitions(a.proposed, a.prior, a.anchor) :: IsCode(d.code)
    ensures UnitsAgree(a) <==> Agreeing(AllDefinitions(a.proposed, a.prior, a.anchor))
  {
    hide IsCode, UnitKey;
    var all := AllDefinitions(a.proposed, a.prior, a.anchor);
    forall d ensures d in all <==> States(a, d) { }
    forall d, e | d in all && e in all
      ensures UnitKey(d.code, d.version) == UnitKey(e.code, e.version) <==> d.code == e.code && d.version == e.version
    {
      UnitKeyInjective(d.code, d.version, e.code, e.version);
    }
    forall i | 0 <= i < |all| ensures all[i] in all { }
    if Agreeing(all) {
      forall d, e | States(a, d) && States(a, e) && d.code == e.code && d.version == e.version ensures d == e {
        var i :| 0 <= i < |all| && all[i] == d;
        var j :| 0 <= j < |all| && all[j] == e;
        assert AgreeOn(all[i], all[j]);
      }
    }
  }

  /** Which assessments an intent admits. */
  lemma AdmittedMeans(stable: Intent, digest: Text, a: Assessment)
    ensures Admitted(stable, digest, a) <==>
      && IsDigest(digest) && a.digest == digest
      && IsControl(a.control) && IsAuth(a.auth) && Valid(a.proposed)
      && a.proposed.revision == stable.proposedRevision && ControlFits(stable, a)
      && UnitsAgree(a) && EvidenceFits(a.evidence, stable.action == Adopt)
      && a.auth.domain == stable.domain && a.auth.actor == stable.actor && a.auth.session == stable.session
  {
    hide IsDigest, IsControl, IsAuth, Valid, Agreeing, AllDefinitions, EvidenceOk, EvidenceFits, UnitsAgree, AnchorHolds,
      AnchorKept, BaseDefinition, IsDefinition, Units;
    assert [ZERO] == Units("0") by { Tags(); }
    EvidenceAgrees(a.evidence, stable.action == Adopt);
    if Valid(a.proposed) && (a.prior.Some? ==> Valid(a.prior.value)) && (a.anchor.Some? ==> IsDefinition(a.anchor.value)) {
      CodesOf(a);
      UnitsAreAgreeing(a);
      if a.control.Selected? && a.prior.Some? && a.anchor.Some? { AnchorAgrees(a); }
    }
  }

  lemma CodesOf(a: Assessment)
    requires Valid(a.proposed) && (a.prior.Some? ==> Valid(a.prior.value)) && (a.anchor.Some? ==> IsDefinition(a.anchor.value))
    ensures forall d | d in AllDefinitions(a.proposed, a.prior, a.anchor) :: IsCode(d.code)
  {
    hide Consistent, IsCode, IsVersion, IsProvenance;
  }

  /** Evidence ascends by kind, then by version, then by id. */
  lemma EvidenceOrderMeans(es: seq<Evidence>, adopting: bool, i: nat, j: nat)
    requires EvidenceOk(es, adopting) && i < j < |Sort(es, EvidenceLess)|
    ensures var t := Sort(es, EvidenceLess);
      || Precedes(t[i].kind, t[j].kind)
      || (t[i].kind == t[j].kind && (Precedes(t[i].version, t[j].version)
                                     || (t[i].version == t[j].version && Precedes(t[i].id, t[j].id))))
  {
    hide EvidenceOk, Precedes, TextLess, Sort, Ascending;
    SortedEvidence(es, adopting);
    var t := Sort(es, EvidenceLess);
    AscendingAt(t, EvidenceLess, i, j);
    PrecedesIsLess(t[i].kind, t[j].kind);
    PrecedesIsLess(t[i].version, t[j].version);
    PrecedesIsLess(t[i].id, t[j].id);
  }
}
