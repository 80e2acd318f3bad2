/**
 encodeCurrencySelectionAssessment from text to text (packages/database/src/private/currency-selection-assessment.ts):
 reading the tuple of an assessment, its canonical text, which reads back and fits, and the encoder.
 */
module AssessmentText {
  import opened CodeUnits
  import opened JsonArrays
  import opened JsonComplete
  import opened JsonGrammar
  import opened JsonReader
  import opened JsonStringify
  import opened Options
  import opened PolicyContext
  import opened SelectionAssessment
  import opened SelectionIntent
  import opened AssessmentEncoding
  import opened Sorting
  import LosslessJson
  import PolicyEncoder
  import BusinessDates
  import Gregorian

  const CONTROL_BYTES: nat := 512
  const AUTH_BYTES: nat := 1_024

  // ----- reading ------------------------------------------------------------------------------

  /** All of these fields are null. */
  predicate Nulls(f: seq<Tree>, from: nat, to: nat)
    requires from <= to <= |f|
  {
    forall i | from <= i < to :: f[i] == Atom(JsonGrammar.Null)
  }

  function SelectedOf(f: seq<Tree>, numeric: Numeric): Option<Control>
    requires |f| == 8
  {
    match (TextOf(f[1]), TextOf(f[2]), BoolOf(f[3]), TextOf(f[4]), TextOf(f[5]), ExponentOf(f[6], numeric), TextOf(f[7]))
    case (Some(generation), Some(revision), Some(latch), Some(code), Some(version), Some(exponent), Some(createdAt)) =>
      Some(Selected(generation, revision, latch, code, version, exponent, createdAt))
    case _ => None
  }

  function ControlFieldsOf(f: seq<Tree>, numeric: Numeric): Option<Control>
    requires |f| == 8
  {
    if f[0] == TextLeaf(ABSENT) then if Nulls(f, 1, 8) then Some(Absent) else None
    else if f[0] == TextLeaf(UNASSESSED) then
      match TextOf(f[7])
      case None => None
      case Some(createdAt) => if f[1] == TextLeaf([ZERO]) && Nulls(f, 2, 7) then Some(Unassessed(createdAt)) else None
    else if f[0] == TextLeaf(SELECTED) then SelectedOf(f, numeric)
    else None
  }

  function ControlOf(t: Tree, numeric: Numeric): (r: Option<Control>)
    ensures r.Some? ==> IsControl(r.value)
  {
    match TupleOf(t, 8)
    case None => None
    case Some(f) =>
      match ControlFieldsOf(f, numeric)
      case None => None
      case Some(c) => if IsControl(c) then Some(c) else None
  }

  /** totp with null, or recovery with an id. */
  function FactorOf(kind: Tree, recovery: Tree): Option<Option<Text>> {
    if kind == TextLeaf(TOTP) then if recovery == Atom(JsonGrammar.Null) then Some(None) else None
    else if kind == TextLeaf(RECOVERY) then match TextOf(recovery) case None => None case Some(id) => Some(Some(id))
    else None
  }

  function AuthOf(t: Tree): (r: Option<Auth>)
    ensures r.Some? ==> IsAuth(r.value)
  {
    match TupleOf(t, 10)
    case None => None
    case Some(f) =>
      match (TextOf(f[0]), TextOf(f[1]), TextOf(f[2]), TextOf(f[3]), TextOf(f[4]), TextOf(f[5]), TextOf(f[6]), TextOf(f[7]),
             FactorOf(f[8], f[9]))
      case (Some(id), Some(domain), Some(actor), Some(profile), Some(session), Some(epoch), Some(credential),
            Some(recoveryEpoch), Some(recovery)) =>
        var a := Auth(id, domain, actor, profile, session, epoch, credential, recoveryEpoch, recovery);
        if IsAuth(a) then Some(a) else None
      case _ => None
  }

  function EvidenceOf(t: Tree): Option<Evidence> {
    match TupleOf(t, 4)
    case None => None
    case Some(f) =>
      match (TextOf(f[0]), TextOf(f[1]), TextOf(f[2]), TextOf(f[3]))
      case (Some(kind), Some(id), Some(version), Some(digest)) => Some(Evidence(kind, id, version, digest))
      case _ => None
  }

  function EvidencesOf(ts: seq<Tree>): Option<seq<Evidence>> {
    if ts == [] then Some([])
    else
      match (EvidenceOf(ts[0]), EvidencesOf(ts[1..]))
      case (Some(e), Some(es)) => Some([e] + es)
      case _ => None
  }

  function EvidenceListOf(t: Tree): Option<seq<Evidence>> {
    match EntriesOf(t) case None => None case Some(entries) => EvidencesOf(entries)
  }

  /** The prior context and the anchor, which are null unless a policy is selected. */
  function PriorOf(selected: bool, prior: Tree, anchor: Tree, numeric: Numeric): Option<(Option<Context>, Option<Definition>)> {
    if !selected then
      if prior == Atom(JsonGrammar.Null) && anchor == Atom(JsonGrammar.Null) then Some((None, None)) else None
    else
      match (ContextOf(prior, numeric), DefinitionOf(anchor, numeric))
      case (Some(c), Some(d)) => Some((Some(c), Some(d)))
      case _ => None
  }

  function AssessmentFieldsOf(f: seq<Tree>, numeric: Numeric): Option<Assessment>
    requires |f| == 8
  {
    match (TextOf(f[1]), ControlOf(f[2], numeric), ContextOf(f[3], numeric), AuthOf(f[6]), EvidenceListOf(f[7]))
    case (Some(digest), Some(control), Some(proposed), Some(auth), Some(evidence)) =>
      (match PriorOf(control.Selected?, f[4], f[5], numeric)
       case None => None
       case Some(pair) =>
         if f[0] == TextLeaf(TITLE) then Some(Assessment(digest, control, proposed, pair.0, pair.1, auth, evidence))
         else None)
    case _ => None
  }

  function AssessmentOf(t: Tree, numeric: Numeric): Option<Assessment> {
    match TupleOf(t, 8) case None => None case Some(f) => AssessmentFieldsOf(f, numeric)
  }

  /** The assessment a text states, if the text is in bounds and the assessment admitted. */
  function AcceptedAssessment(stable: Intent, digest: Text, text: Text, numeric: Numeric): (r: Option<Assessment>)
    ensures r.Some? ==> Admitted(stable, digest, r.value)
  {
    if Utf8Length(text) > INPUT_BYTES then None
    else
      match LosslessJson.JsonParse(text)
      case None => None
      case Some(tree) =>
        match AssessmentOf(tree, numeric)
        case None => None
        case Some(a) => if Admitted(stable, digest, a) then Some(a) else None
  }

  // ----- what is written reads back -----------------------------------------------------------

  lemma NullReads()
    ensures Wf(AssessmentEncoding.Null()) && Meaning(AssessmentEncoding.Null()) == Atom(JsonGrammar.Null)
  {
  }

  lemma BoolReads(b: bool)
    ensures Wf(WriteBool(b)) && BoolOf(Meaning(WriteBool(b))) == Some(b)
  {
  }

  lemma ExponentReads(n: nat, numeric: Numeric)
    requires n <= 4
    ensures Wf(WriteDigit(n)) && ExponentOf(Meaning(WriteDigit(n)), numeric) == Some(n)
  {
    DigitReads(n);
  }

  lemma TagsDiffer()
    ensures ABSENT != UNASSESSED && ABSENT != SELECTED && UNASSESSED != SELECTED && TOTP != RECOVERY
  {
    assert |ABSENT| == 6 && |UNASSESSED| == 10 && |SELECTED| == 8 && |TOTP| == 4 && |RECOVERY| == 8;
  }

  lemma SelectedReads(c: Control, f: seq<Tree>, numeric: Numeric)
    requires c.Selected? && |f| == 8 && f[0] == TextLeaf(SELECTED) && f[1] == TextLeaf(c.generation)
    requires f[2] == TextLeaf(c.revision) && BoolOf(f[3]) == Some(c.latch) && f[4] == TextLeaf(c.code)
    requires f[5] == TextLeaf(c.version) && ExponentOf(f[6], numeric) == Some(c.exponent) && f[7] == TextLeaf(c.createdAt)
    ensures ControlFieldsOf(f, numeric) == Some(c)
  {
    hide BoolOf, ExponentOf, Nulls;
    TagsDiffer();
  }

  lemma AbsentReads(f: seq<Tree>, numeric: Numeric)
    requires |f| == 8 && f[0] == TextLeaf(ABSENT) && Nulls(f, 1, 8)
    ensures ControlFieldsOf(f, numeric) == Some(Absent)
  {
    hide Nulls, SelectedOf;
  }

  lemma UnassessedReads(createdAt: Text, f: seq<Tree>, numeric: Numeric)
    requires |f| == 8 && f[0] == TextLeaf(UNASSESSED) && f[1] == TextLeaf([ZERO]) && Nulls(f, 2, 7) && f[7] == TextLeaf(createdAt)
    ensures ControlFieldsOf(f, numeric) == Some(Unassessed(createdAt))
  {
    hide Nulls, SelectedOf;
    TagsDiffer();
  }

  /** The fields of a control, each read back. */
  lemma ControlFieldsRead(c: Control, numeric: Numeric)
    requires IsControl(c)
    ensures AllWf(ControlFields(c)) && ControlFieldsOf(Meanings(ControlFields(c)), numeric) == Some(c)
  {
    hide WriteString, WriteBool, WriteDigit, Meaning, Wf, IsUtc, IsVersion, IsCode, IsPositiveCounter, SelectedOf, BoolOf,
      ExponentOf, ControlFieldsOf, AssessmentEncoding.Null, Units;
    var vs := ControlFields(c);
    NullReads();
    StringReads(ControlTag(c));
    match c {
      case Absent =>
        AbsentReads(Meanings(vs), numeric);
      case Unassessed(createdAt) =>
        StringReads([ZERO]);
        StringReads(createdAt);
        UnassessedReads(createdAt, Meanings(vs), numeric);
      case Selected(generation, revision, latch, code, version, exponent, createdAt) =>
        StringReads(generation);
        StringReads(revision);
        BoolReads(latch);
        StringReads(code);
        StringReads(version);
        ExponentReads(exponent, numeric);
        StringReads(createdAt);
        SelectedReads(c, Meanings(vs), numeric);
    }
  }

  lemma ControlReads(c: Control, numeric: Numeric)
    requires IsControl(c)
    ensures Wf(WriteControl(c)) && ControlOf(Meaning(WriteControl(c)), numeric) == Some(c)
  {
    hide ControlFields, ControlFieldsOf, IsControl, Meaning, Wf, WriteArray;
    ControlFieldsRead(c, numeric);
    ArrayReads(ControlFields(c));
  }

  lemma FactorReads(recovery: Option<Text>)
    ensures var kind, id := WriteString(FactorKind(recovery)), WriteOptional(recovery);
      Wf(kind) && Wf(id) && FactorOf(Meaning(kind), Meaning(id)) == Some(recovery)
  {
    TagsDiffer();
    StringReads(FactorKind(recovery));
    if recovery.Some? { StringReads(recovery.value); }
  }

  lemma AuthTuple(t: Tree, a: Auth, kind: Tree, id: Tree)
    requires IsAuth(a) && FactorOf(kind, id) == Some(a.recovery) && t.Array?
    requires ListOf(t.items) == [TextLeaf(a.id), TextLeaf(a.domain), TextLeaf(a.actor), TextLeaf(a.profile), TextLeaf(a.session),
                                 TextLeaf(a.epoch), TextLeaf(a.credential), TextLeaf(a.recoveryEpoch), kind, id]
    ensures AuthOf(t) == Some(a)
  {
    hide IsAuth, FactorOf;
  }

  lemma AuthReads(a: Auth)
    requires IsAuth(a)
    ensures Wf(WriteAuth(a)) && AuthOf(Meaning(WriteAuth(a))) == Some(a)
  {
    hide WriteString, WriteArray, WriteOptional, Meaning, Wf, IsAuth, FactorOf, FactorKind, AuthOf;
    var vs := AuthFields(a);
    StringReads(a.id);
    StringReads(a.domain);
    StringReads(a.actor);
    StringReads(a.profile);
    StringReads(a.session);
    StringReads(a.epoch);
    StringReads(a.credential);
    StringReads(a.recoveryEpoch);
    FactorReads(a.recovery);
    ArrayReads(vs);
    assert Meanings(vs) == [TextLeaf(a.id), TextLeaf(a.domain), TextLeaf(a.actor), TextLeaf(a.profile), TextLeaf(a.session),
                            TextLeaf(a.epoch), TextLeaf(a.credential), TextLeaf(a.recoveryEpoch), Meaning(vs[8]), Meaning(vs[9])];
    AuthTuple(Meaning(WriteArray(vs)), a, Meaning(vs[8]), Meaning(vs[9]));
  }

  lemma EvidenceReads(e: Evidence)
    ensures Wf(WriteEvidence(e)) && EvidenceOf(Meaning(WriteEvidence(e))) == Some(e)
  {
    hide WriteString, WriteArray, Meaning, Wf;
    var vs := [WriteString(e.kind), WriteString(e.id), WriteString(e.version), WriteString(e.digest)];
    StringReads(e.kind);
    StringReads(e.id);
    StringReads(e.version);
    StringReads(e.digest);
    ArrayReads(vs);
    assert Meanings(vs) == [TextLeaf(e.kind), TextLeaf(e.id), TextLeaf(e.version), TextLeaf(e.digest)];
  }

  lemma {:induction false} EvidencesRead(es: seq<Evidence>)
    ensures AllWf(WriteEvidences(es)) && EvidencesOf(Meanings(WriteEvidences(es))) == Some(es)
  {
    hide WriteEvidence, EvidenceOf, Meaning, Wf;
    forall i | 0 <= i < |es| ensures Wf(WriteEvidences(es)[i]) { EvidenceReads(es[i]); }
    if es != [] {
      var vs := WriteEvidences(es);
      EvidenceReads(es[0]);
      EvidencesRead(es[1..]);
      assert vs[1..] == WriteEvidences(es[1..]);
      MeaningsCons(vs);
      assert es == [es[0]] + es[1..];
    }
  }

  lemma EvidenceListReads(es: seq<Evidence>)
    requires 1 <= |es| <= ENTRIES
    ensures var v := WriteArray(WriteEvidences(es)); Wf(v) && EvidenceListOf(Meaning(v)) == Some(es)
  {
    hide WriteArray, Meaning, Wf, EvidencesOf;
    EvidencesRead(es);
    ArrayReads(WriteEvidences(es));
  }

  lemma PriorReads(a: Assessment, numeric: Numeric)
    requires Typed(a)
    ensures Wf(WritePrior(a.prior)) && Wf(WriteAnchor(a.anchor))
    ensures PriorOf(a.control.Selected?, Meaning(WritePrior(a.prior)), Meaning(WriteAnchor(a.anchor)), numeric)
         == Some((a.prior, a.anchor))
  {
    hide WriteContext, WriteDefinition, ContextOf, DefinitionOf, WellTyped, IsDefinition, IsControl, IsAuth, IsDigest, IsEvidence,
      AssessmentEncoding.Null, Meaning, Wf;
    NullReads();
    if a.control.Selected? {
      ContextReads(a.prior.value, numeric);
      DefinitionReads(a.anchor.value, numeric);
    }
  }

  lemma AssessmentReads(a: Assessment, numeric: Numeric)
    requires Typed(a)
    ensures Wf(WriteAssessment(a)) && AssessmentOf(Meaning(WriteAssessment(a)), numeric) == Some(a)
  {
    hide WriteString, WriteArray, WriteControl, WriteContext, WritePrior, WriteAnchor, WriteAuth, WriteEvidences, Meaning, Wf,
      ControlOf, ContextOf, AuthOf, EvidenceListOf, PriorOf, IsControl, WellTyped, IsAuth, IsDigest, IsEvidence, IsDefinition;
    var vs := AssessmentFields(a);
    StringReads(TITLE);
    StringReads(a.digest);
    ControlReads(a.control, numeric);
    ContextReads(a.proposed, numeric);
    PriorReads(a, numeric);
    AuthReads(a.auth);
    EvidenceListReads(a.evidence);
    ArrayReads(vs);
    var f := Meanings(vs);
    assert f[0] == TextLeaf(TITLE) && f[1] == TextLeaf(a.digest) && f[2] == Meaning(vs[2]) && f[3] == Meaning(vs[3])
      && f[4] == Meaning(vs[4]) && f[5] == Meaning(vs[5]) && f[6] == Meaning(vs[6]) && f[7] == Meaning(vs[7]);
  }

  /** JSON.parse of the written text gives the assessment back. */
  lemma AssessmentTextReadsBack(a: Assessment, numeric: Numeric)
    requires Typed(a)
    ensures LosslessJson.JsonParse(TextOfAssessment(a)).Some?
    ensures AssessmentOf(LosslessJson.JsonParse(TextOfAssessment(a)).value, numeric) == Some(a)
  {
    hide Typed, AssessmentOf, WriteAssessment;
    AssessmentReads(a, numeric);
    CompactPrints(WriteAssessment(a));
    ReadIsComplete(Standard, Compact(WriteAssessment(a)));
  }

  /** Different assessments have different texts. */
  lemma AssessmentTextIsInjective(a: Assessment, b: Assessment, numeric: Numeric)
    requires Typed(a) && Typed(b) && TextOfAssessment(a) == TextOfAssessment(b)
    ensures a == b
  {
    hide Typed, AssessmentOf, TextOfAssessment;
    AssessmentTextReadsBack(a, numeric);
    AssessmentTextReadsBack(b, numeric);
  }

  // ----- size ---------------------------------------------------------------------------------

  lemma CounterLength(t: Text)
    requires IsPositiveCounter(t)
    ensures |Print(WriteString(t))| <= 21 && Ascii(Print(WriteString(t)))
  {
    hide WriteString, NumberOf;
    assert NeedsNoEscape(t);
    StringLength(t);
  }

  lemma UtcLength(t: Text)
    requires IsUtc(t)
    ensures |Print(WriteString(t))| == 26 && Ascii(Print(WriteString(t)))
  {
    hide WriteString, BusinessDates.Number2, Gregorian.IsDate;
    assert NeedsNoEscape(t);
    StringLength(t);
  }

  lemma TagLength(c: Control)
    ensures |Print(WriteString(ControlTag(c)))| <= 21 && Ascii(Print(WriteString(ControlTag(c))))
  {
    hide WriteString;
    assert NeedsNoEscape(ControlTag(c));
    StringLength(ControlTag(c));
  }

  lemma ZeroLength()
    ensures |Print(WriteString([ZERO]))| <= 21 && Ascii(Print(WriteString([ZERO])))
    ensures |Print(AssessmentEncoding.Null())| <= 21 && Ascii(Print(AssessmentEncoding.Null()))
  {
    hide WriteString;
    assert NeedsNoEscape([ZERO]);
    StringLength([ZERO]);
  }

  lemma ControlFieldLengths(c: Control)
    requires IsControl(c)
    ensures var vs := ControlFields(c);
      && (forall i | 0 <= i < 8 :: Ascii(Print(vs[i])))
      && |Print(vs[0])| <= 21 && |Print(vs[1])| <= 21 && (forall i | 2 <= i < 6 :: |Print(vs[i])| <= 66)
      && |Print(vs[6])| <= 26 && |Print(vs[7])| <= 26
  {
    hide WriteString, WriteBool, WriteDigit, Print, Ascii, IsUtc, IsVersion, IsCode, IsPositiveCounter, ControlTag,
      AssessmentEncoding.Null;
    TagLength(c);
    ZeroLength();
    match c {
      case Absent =>
      case Unassessed(createdAt) => UtcLength(createdAt);
      case Selected(generation, revision, latch, code, version, exponent, createdAt) =>
        CounterLength(generation);
        VersionLength(revision);
        BoolLength(latch);
        CodeLength(code);
        VersionLength(version);
        DigitLength(exponent);
        UtcLength(createdAt);
    }
  }

  lemma ControlLength(c: Control)
    requires IsControl(c)
    ensures |Print(WriteControl(c))| <= 367 && Ascii(Print(WriteControl(c)))
  {
    hide ControlFields, IsControl, Print, Ascii, WriteArray, SumLengths;
    ControlFieldLengths(c);
    var vs := ControlFields(c);
    SumOfControl(vs);
    ArrayLength(vs);
    ArrayAscii(vs);
  }

  lemma SumOfControl(vs: seq<Value>)
    requires |vs| == 8 && |Print(vs[0])| <= 21 && |Print(vs[1])| <= 21 && (forall i | 2 <= i < 6 :: |Print(vs[i])| <= 66)
    requires |Print(vs[6])| <= 26 && |Print(vs[7])| <= 26
    ensures SumLengths(vs) <= 358
  {
    hide SumLengths, Print;
    SumBound(vs[..2], 21);
    SumBound(vs[2..6], 66);
    SumBound(vs[6..], 26);
    SumConcat(vs[..2], vs[2..]);
    SumConcat(vs[2..6], vs[6..]);
    assert vs == vs[..2] + vs[2..] && vs[2..] == vs[2..6] + vs[6..];
  }

  lemma FactorLength(recovery: Option<Text>)
    requires recovery.Some? ==> IsUuid(recovery.value)
    ensures |Print(WriteString(FactorKind(recovery)))| <= 38 && Ascii(Print(WriteString(FactorKind(recovery))))
    ensures |Print(WriteOptional(recovery))| <= 38 && Ascii(Print(WriteOptional(recovery)))
  {
    hide WriteString, IsUuid;
    assert NeedsNoEscape(FactorKind(recovery));
    StringLength(FactorKind(recovery));
    if recovery.Some? { UuidLength(recovery.value); }
  }

  lemma AuthLength(a: Auth)
    requires IsAuth(a)
    ensures |Print(WriteAuth(a))| <= 391 && Ascii(Print(WriteAuth(a)))
  {
    hide WriteString, WriteOptional, WriteArray, Print, Ascii, IsUuid, IsPositiveCounter, FactorKind;
    var vs := AuthFields(a);
    UuidLength(a.id);
    UuidLength(a.domain);
    UuidLength(a.actor);
    UuidLength(a.profile);
    UuidLength(a.session);
    CounterLength(a.epoch);
    UuidLength(a.credential);
    CounterLength(a.recoveryEpoch);
    FactorLength(a.recovery);
    SumBound(vs, 38);
    ArrayLength(vs);
    ArrayAscii(vs);
  }

  lemma EvidenceListLength(es: seq<Evidence>)
    requires 1 <= |es| <= ENTRIES && forall i | 0 <= i < |es| :: IsEvidence(es[i])
    ensures |Print(WriteArray(WriteEvidences(es)))| <= 5_953 && Ascii(Print(WriteArray(WriteEvidences(es))))
  {
    hide WriteEvidence, WriteArray, Print, Ascii, IsEvidence;
    var vs := WriteEvidences(es);
    forall i | 0 <= i < |vs| ensures |Print(vs[i])| <= 185 && Ascii(Print(vs[i])) { EvidenceLength(es[i]); }
    EntriesLength(vs, 185);
  }

  lemma ContextLength(c: Context)
    requires WellTyped(c)
    ensures |Print(WriteContext(c))| <= 22_635 && Ascii(Print(WriteContext(c)))
  {
    hide WellTyped, WriteContext, Print, Ascii;
    CanonicalTextFits(c);
    ContextAscii(c);
  }

  lemma PriorLength(a: Assessment)
    requires Typed(a)
    ensures |Print(WritePrior(a.prior))| <= 22_635 && Ascii(Print(WritePrior(a.prior)))
    ensures |Print(WriteAnchor(a.anchor))| <= 604 && Ascii(Print(WriteAnchor(a.anchor)))
  {
    hide WriteContext, WriteDefinition, WellTyped, IsDefinition, IsControl, IsAuth, IsDigest, IsEvidence, Print, Ascii,
      AssessmentEncoding.Null;
    ZeroLength();
    if a.control.Selected? {
      ContextLength(a.prior.value);
      DefinitionLength(a.anchor.value);
    }
  }

  lemma TitleLength()
    ensures |Print(WriteString(TITLE))| <= 66 && Ascii(Print(WriteString(TITLE)))
  {
    hide WriteString;
    assert NeedsNoEscape(TITLE);
    StringLength(TITLE);
  }

  /** Nor does the ceiling of 65,536 bytes refuse anything: the text of an assessment has at most 53,330. */
  lemma AssessmentTextFits(a: Assessment)
    requires Typed(a)
    ensures Utf8Length(TextOfAssessment(a)) == |TextOfAssessment(a)| <= 53_330
  {
    hide WriteString, WriteArray, WriteControl, WriteContext, WritePrior, WriteAnchor, WriteAuth, WriteEvidences, Print, Ascii,
      IsControl, WellTyped, IsAuth, IsDigest, IsEvidence, IsDefinition;
    var vs := AssessmentFields(a);
    TitleLength();
    DigestLength(a.digest);
    ControlLength(a.control);
    ContextLength(a.proposed);
    PriorLength(a);
    AuthLength(a.auth);
    EvidenceListLength(a.evidence);
    SumBound(vs[..2], 66);
    SumBound(vs[2..3], 367);
    SumBound(vs[3..5], 22_635);
    SumBound(vs[5..7], 604);
    SumBound(vs[7..], 5_953);
    SumOfParts(vs);
    ArrayLength(vs);
    ArrayAscii(vs);
    AsciiLength(TextOfAssessment(a));
  }

  lemma SumOfParts(vs: seq<Value>)
    requires |vs| == 8
    ensures SumLengths(vs) == SumLengths(vs[..2]) + SumLengths(vs[2..3]) + SumLengths(vs[3..5]) + SumLengths(vs[5..7])
                              + SumLengths(vs[7..])
  {
    hide SumLengths;
    SumConcat(vs[..2], vs[2..]);
    SumConcat(vs[2..3], vs[3..]);
    SumConcat(vs[3..5], vs[5..]);
    SumConcat(vs[5..7], vs[7..]);
    assert vs == vs[..2] + vs[2..] && vs[2..] == vs[2..3] + vs[3..] && vs[3..] == vs[3..5] + vs[5..]
      && vs[5..] == vs[5..7] + vs[7..];
  }

  // ----- the canonical text -------------------------------------------------------------------

  function Encode(stable: Intent, digest: Text, a: Assessment): Text
    requires Admitted(stable, digest, a)
  {
    CanonicalFormIsStable(stable, digest, a);
    AdmittedIsTyped(stable, digest, CanonicalForm(a));
    TextOfAssessment(CanonicalForm(a))
  }

  /** An admitted assessment is what its own text states. */
  lemma AcceptsAssessment(stable: Intent, digest: Text, a: Assessment, numeric: Numeric)
    requires Admitted(stable, digest, a) && Typed(a)
    ensures AcceptedAssessment(stable, digest, TextOfAssessment(a), numeric) == Some(a)
  {
    hide Admitted, Typed, AssessmentOf, TextOfAssessment, LosslessJson.JsonParse, Utf8Length;
    AssessmentTextFits(a);
    AssessmentTextReadsBack(a, numeric);
  }

  /** Encoding the output again returns it unchanged. */
  lemma EncodingIsIdempotent(stable: Intent, digest: Text, a: Assessment, numeric: Numeric)
    requires Admitted(stable, digest, a)
    ensures AcceptedAssessment(stable, digest, Encode(stable, digest, a), numeric) == Some(CanonicalForm(a))
    ensures Admitted(stable, digest, CanonicalForm(a))
    ensures Encode(stable, digest, CanonicalForm(a)) == Encode(stable, digest, a)
  {
    hide Admitted, Typed, AcceptedAssessment, TextOfAssessment, CanonicalForm;
    CanonicalFormIsStable(stable, digest, a);
    AdmittedIsTyped(stable, digest, CanonicalForm(a));
    AcceptsAssessment(stable, digest, CanonicalForm(a), numeric);
  }

  /** Two admitted assessments share their canonical text exactly when they state the same facts. */
  lemma EncodingIsTheFacts(
    stable: Intent, digest: Text, a: Assessment, other: Intent, otherDigest: Text, b: Assessment, numeric: Numeric)
    requires Admitted(stable, digest, a) && Admitted(other, otherDigest, b)
    ensures Encode(stable, digest, a) == Encode(other, otherDigest, b) <==> SameAssessment(a, b)
  {
    hide Admitted, SameAssessment, TextOfAssessment, CanonicalForm, Typed;
    CanonicalFormIsStable(stable, digest, a);
    CanonicalFormIsStable(other, otherDigest, b);
    AdmittedIsTyped(stable, digest, CanonicalForm(a));
    AdmittedIsTyped(other, otherDigest, CanonicalForm(b));
    CanonicalFormIsTheFacts(stable, digest, a, other, otherDigest, b);
    if Encode(stable, digest, a) == Encode(other, otherDigest, b) {
      AssessmentTextIsInjective(CanonicalForm(a), CanonicalForm(b), numeric);
    }
  }

  // ----- the encoder --------------------------------------------------------------------------

  /** withinBudget. */
  predicate Fits(v: Value, ceiling: nat) {
    Utf8Length(Print(v)) <= ceiling
  }

  /** A context is written, encoded as a policy context, and read again; it comes back in canonical order. */
  method CopyContext(t: Tree, numeric: Numeric) returns (context: Option<Context>)
    ensures context == match ContextOf(t, numeric)
                       case None => None
                       case Some(c) => if Valid(c) then Some(PolicyContext.Canonical(c)) else None
  {
    hide WellTyped, ContextOf, Valid, TextOfContext, Accepted, Encoded, PolicyContext.Canonical, LosslessJson.JsonParse, Utf8Length;
    var shape := ContextOf(t, numeric);
    if shape.None? { return None; }
    var c := shape.value;
    var text := PolicyEncoder.EncodeCurrencyPolicyContext(TextOfContext(c), numeric);
    AcceptsTyped(c, numeric);
    if text.None? { return None; }
    CanonicalIsStable(c);
    ValidIsWellTyped(PolicyContext.Canonical(c));
    TextReadsBack(PolicyContext.Canonical(c), numeric);
    EncodedIs(c);
    return ContextOf(LosslessJson.JsonParse(text.value).value, numeric);
  }

  lemma DefinitionsAreCoded(a: Assessment)
    requires Valid(a.proposed) && (a.prior.Some? ==> Valid(a.prior.value)) && (a.anchor.Some? ==> IsDefinition(a.anchor.value))
    ensures forall d | d in AllDefinitions(a.proposed, a.prior, a.anchor) :: IsCode(d.code)
  {
    hide Consistent, IsCapability, OnePerCode, OnePerUnit;
  }

  /** What the fields of the tuple state, with the contexts in canonical order, if those are valid. */
  function CopiedFields(f: seq<Tree>, numeric: Numeric): Option<Assessment>
    requires |f| == 8
  {
    match AssessmentFieldsOf(f, numeric)
    case None => None
    case Some(a) =>
      if Valid(a.proposed) && (a.prior.Some? ==> Valid(a.prior.value))
      then Some(a.(proposed := PolicyContext.Canonical(a.proposed), prior := CanonicalPrior(a.prior))) else None
  }

  /** The prior context and the anchor of a selected policy; otherwise both must be null. */
  method CopyPrior(selected: bool, p: Tree, q: Tree, numeric: Numeric) returns (copy: Option<(Option<Context>, Option<Definition>)>)
    ensures copy == match PriorOf(selected, p, q, numeric)
                    case None => None
                    case Some(pair) =>
                      if pair.0.Some? ==> Valid(pair.0.value) then Some((CanonicalPrior(pair.0), pair.1)) else None
  {
    hide ContextOf, DefinitionOf, Valid, PolicyContext.Canonical, WellTyped, IsDefinition;
    if !selected {
      if p != Atom(JsonGrammar.Null) || q != Atom(JsonGrammar.Null) { return None; }
      return Some((None, None));
    }
    var prior := CopyContext(p, numeric);
    var anchor := DefinitionOf(q, numeric);
    if prior.None? || anchor.None? { return None; }
    return Some((prior, anchor));
  }

  /** The parts of the tuple, each copied; the two budgets are checked and never exceeded. */
  method CopyFields(f: seq<Tree>, numeric: Numeric) returns (copy: Option<Assessment>)
    requires |f| == 8
    ensures copy == CopiedFields(f, numeric)
  {
    hide ControlOf, ContextOf, PriorOf, AuthOf, EvidenceListOf, Valid, PolicyContext.Canonical, CanonicalPrior, Fits, IsControl,
      IsAuth, WellTyped, IsDefinition, WriteControl, WriteAuth;
    if f[0] != TextLeaf(TITLE) { return None; }
    var digest, control := TextOf(f[1]), ControlOf(f[2], numeric);
    if digest.None? || control.None? { return None; }
    ControlAlwaysFits(control.value);
    if !Fits(WriteControl(control.value), CONTROL_BYTES) { return None; }
    var proposed := CopyContext(f[3], numeric);
    var before := CopyPrior(control.value.Selected?, f[4], f[5], numeric);
    if proposed.None? || before.None? { return None; }
    var auth := AuthOf(f[6]);
    if auth.None? { return None; }
    AuthAlwaysFits(auth.value);
    if !Fits(WriteAuth(auth.value), AUTH_BYTES) { return None; }
    var evidence := EvidenceListOf(f[7]);
    if evidence.None? { return None; }
    var (prior, anchor) := before.value;
    return Some(Assessment(digest.value, control.value, proposed.value, prior, anchor, auth.value, evidence.value));
  }

  /** The rules between the parts. */
  method CheckAssessment(stable: Intent, digest: Text, a: Assessment) returns (evidence: Option<seq<Evidence>>)
    requires Valid(a.proposed) && (a.prior.Some? ==> Valid(a.prior.value)) && (a.anchor.Some? ==> IsDefinition(a.anchor.value))
    requires IsControl(a.control) && IsAuth(a.auth)
    requires (a.control.Selected? <==> a.prior.Some?) && (a.prior.Some? <==> a.anchor.Some?)
    ensures evidence == if Admitted(stable, digest, a) then Some(Sort(a.evidence, EvidenceLess)) else None
  {
    hide IsAuth, IsDigest, Valid, IsDefinition, AnchorHolds, Agreeing, AllDefinitions, EvidenceOk, BaseDefinition, IsControl,
      ControlMatches, Sort;
    if !IsDigest(a.digest) || a.digest != digest { return None; }
    if !ControlMatches(stable, a.control) { return None; }
    if a.proposed.revision != stable.proposedRevision { return None; }
    if a.control.Selected? {
      if a.prior.value.revision != a.control.revision { return None; }
      if !AnchorHolds(a.control, BaseDefinition(a.proposed), BaseDefinition(a.prior.value), a.anchor.value) { return None; }
    }
    DefinitionsAreCoded(a);
    var consistent := ConsistentDefinitions(a.proposed, a.prior, a.anchor);
    if !consistent { return None; }
    evidence := CopyEvidence(a.evidence, stable.action == Adopt);
    if a.auth.domain != stable.domain || a.auth.actor != stable.actor || a.auth.session != stable.session { return None; }
  }

  /** What the encoder answers: the canonical text of an assessment that its intent admits. */
  function Answer(stableIntentText: Text, assessmentText: Text, numeric: Numeric, sha256: Text -> Text): Option<Text> {
    match AcceptedIntent(stableIntentText)
    case None => None
    case Some(stable) =>
      var digest := sha256(TextOfIntent(stable));
      match AcceptedAssessment(stable, digest, assessmentText, numeric)
      case None => None
      case Some(a) => Some(Encode(stable, digest, a))
  }

  /** The encoder; its digest is any function of the canonical intent. */
  method EncodeCurrencySelectionAssessment(
    stableIntentText: Text, assessmentText: Text, numeric: Numeric, sha256: Text -> Text)
    returns (canonicalText: Option<Text>)
    ensures canonicalText == Answer(stableIntentText, assessmentText, numeric, sha256)
  {
    hide AcceptedIntent, TextOfIntent, LosslessJson.JsonParse, Utf8Length, Admitted, Typed, CopiedFields, AssessmentFieldsOf,
      TextOfAssessment, CanonicalForm, IsControl, IsAuth, Valid, IsDefinition;
    LengthAtMostBytes(stableIntentText);
    LengthAtMostBytes(assessmentText);
    if |stableIntentText| > INPUT_BYTES || |assessmentText| > INPUT_BYTES { StableInBounds(stableIntentText); return None; }
    if Utf8Length(stableIntentText) > INPUT_BYTES || Utf8Length(assessmentText) > INPUT_BYTES {
      StableInBounds(stableIntentText);
      return None;
    }
    var intent := EncodeCurrencySelectionIntent(stableIntentText);
    IntentIs(stableIntentText);
    if intent.None? { return None; }
    var stable := IntentOf(LosslessJson.JsonParse(intent.value).value).value;
    var digest := sha256(intent.value);
    var input := LosslessJson.JsonParse(assessmentText);
    if input.None? { return None; }
    var f := TupleOf(input.value, 8);
    if f.None? { return None; }
    var copy := CopyFields(f.value, numeric);
    CopyIs(stable, digest, f.value, numeric);
    if copy.None? { return None; }
    var evidence := CheckAssessment(stable, digest, copy.value);
    if evidence.None? { return None; }
    var canonical := copy.value.(evidence := evidence.value);
    AssessmentTextFits(canonical);
    var text := TextOfAssessment(canonical);
    if Utf8Length(text) > INPUT_BYTES { return None; }
    return Some(text);
  }

  lemma ControlAlwaysFits(c: Control)
    requires IsControl(c)
    ensures Fits(WriteControl(c), CONTROL_BYTES)
  {
    hide IsControl, WriteControl, Print;
    ControlLength(c);
    AsciiLength(Print(WriteControl(c)));
  }

  lemma AuthAlwaysFits(a: Auth)
    requires IsAuth(a)
    ensures Fits(WriteAuth(a), AUTH_BYTES)
  {
    hide IsAuth, WriteAuth, Print;
    AuthLength(a);
    AsciiLength(Print(WriteAuth(a)));
  }

  lemma StableInBounds(text: Text)
    ensures AcceptedIntent(text).Some? ==> Utf8Length(text) <= INPUT_BYTES
  {
    hide IntentOf, ValidIntent, LosslessJson.JsonParse, Utf8Length;
  }

  /** Parsing the canonical intent again gives the intent. */
  lemma IntentIs(text: Text)
    ensures EncodeCurrencySelectionIntent(text) == match AcceptedIntent(text)
                                                   case None => None
                                                   case Some(i) => Some(TextOfIntent(i))
    ensures AcceptedIntent(text).Some? ==>
      var parsed := LosslessJson.JsonParse(TextOfIntent(AcceptedIntent(text).value));
      parsed.Some? && IntentOf(parsed.value) == AcceptedIntent(text)
  {
    hide ValidIntent, IntentOf, TextOfIntent, LosslessJson.JsonParse, Utf8Length;
    if AcceptedIntent(text).Some? {
      IntentTextFits(AcceptedIntent(text).value);
      IntentTextReadsBack(AcceptedIntent(text).value);
    }
  }

  /** Checking the copy, with its contexts in canonical order, decides whether what was read is admitted. */
  lemma CopyIs(stable: Intent, digest: Text, f: seq<Tree>, numeric: Numeric)
    requires |f| == 8
    ensures match CopiedFields(f, numeric)
      case None => (AssessmentFieldsOf(f, numeric).Some? ==> !Admitted(stable, digest, AssessmentFieldsOf(f, numeric).value))
      case Some(b) =>
        && AssessmentFieldsOf(f, numeric).Some?
        && var a := AssessmentFieldsOf(f, numeric).value;
        && Valid(b.proposed) && (b.prior.Some? ==> Valid(b.prior.value)) && (b.anchor.Some? ==> IsDefinition(b.anchor.value))
        && IsControl(b.control) && IsAuth(b.auth)
        && (b.control.Selected? <==> b.prior.Some?) && (b.prior.Some? <==> b.anchor.Some?)
        && (Admitted(stable, digest, b) <==> Admitted(stable, digest, a))
        && (Admitted(stable, digest, a) ==>
              CanonicalForm(a) == b.(evidence := Sort(b.evidence, EvidenceLess)) && Typed(CanonicalForm(a)))
  {
    hide ControlOf, ContextOf, DefinitionOf, AuthOf, EvidenceListOf, Valid, PolicyContext.Canonical, IsControl, IsAuth, SameFacts,
      WellTyped, IsDefinition, ControlMatches, AnchorHolds, Agreeing, AllDefinitions, EvidenceOk, BaseDefinition, IsDigest, Sort,
      Typed;
    match AssessmentFieldsOf(f, numeric) {
      case None =>
      case Some(a) =>
        if Valid(a.proposed) && (a.prior.Some? ==> Valid(a.prior.value)) {
          CanonicalContextsSay(stable, digest, a);
          CanonicalIsStable(a.proposed);
          if a.prior.Some? { CanonicalIsStable(a.prior.value); }
          if Admitted(stable, digest, a) {
            CanonicalFormIsStable(stable, digest, a);
            AdmittedIsTyped(stable, digest, CanonicalForm(a));
          }
        }
    }
  }
}
