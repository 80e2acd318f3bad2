/**
 The stable intent of a currency selection (packages/database/src/private/currency-selection-intent.ts): its
 syntax, and the one text in which it is written.
 */
module SelectionIntent {
  import opened CodeUnits
  import opened JsonArrays
  import opened JsonComplete
  import opened JsonGrammar
  import opened JsonReader
  import opened JsonStringify
  import opened Options
  import opened PolicyContext
  import opened SelectionAssessment
  import LosslessJson

  const INTENT_BYTES: nat := 1_024

  const INTENT_TITLE: Text := Units("currency-selection-request-v1")

  datatype Action = Initialize | Adopt | Replace

  datatype Intent = Intent(
    installation: Text, domain: Text, action: Action, actor: Text, session: Text, requestKey: Text,
    expectedRevision: Option<Text>, expectedGeneration: Text, proposedRevision: Text)

  predicate IsHex(u: CodeUnit) {
    IsLowerHex(u) || 'A' as int <= u <= 'F' as int
  }

  /** Only a request key may be spelled in upper case. */
  predicate IsRequestKey(t: Text) {
    && |t| == 36
    && (|| Uniform(t, ZERO) || Uniform(t, 'f' as int)
        || (&& (forall i | 0 <= i < 36 :: if Separates(i) then t[i] == MINUS else IsHex(t[i]))
            && '1' as int <= t[14] <= '8' as int
            && (t[19] == '8' as int || t[19] == '9' as int || t[19] == 'a' as int || t[19] == 'b' as int
                || t[19] == 'A' as int || t[19] == 'B' as int)))
  }

  predicate IsGeneration(t: Text) {
    t == [ZERO] || IsPositiveCounter(t)
  }

  /** What the intent expects to find in force. */
  predicate Expects(i: Intent) {
    if i.action == Replace then
      i.expectedRevision.Some? && IsVersion(i.expectedRevision.value) && i.expectedGeneration != [ZERO]
      && i.expectedRevision.value != i.proposedRevision
    else i.expectedRevision.None? && i.expectedGeneration == [ZERO]
  }

  predicate ValidIntent(i: Intent) {
    && IsUuid(i.installation) && IsUuid(i.domain) && IsUuid(i.actor) && IsUuid(i.session) && IsRequestKey(i.requestKey)
    && IsVersion(i.proposedRevision) && IsGeneration(i.expectedGeneration) && Expects(i)
  }

  // ----- reading ------------------------------------------------------------------------------

  function ActionText(a: Action): Text {
    match a
    case Initialize => Units("initialize")
    case Adopt => Units("adopt")
    case Replace => Units("replace")
  }

  function ActionOf(t: Tree): Option<Action> {
    if t == TextLeaf(ActionText(Initialize)) then Some(Initialize)
    else if t == TextLeaf(ActionText(Adopt)) then Some(Adopt)
    else if t == TextLeaf(ActionText(Replace)) then Some(Replace)
    else None
  }

  /** A string, or null. */
  function OptionalText(t: Tree): Option<Option<Text>> {
    if t == Atom(Null) then Some(None)
    else match TextOf(t) case None => None case Some(text) => Some(Some(text))
  }

  function IntentOf(t: Tree): Option<Intent> {
    match TupleOf(t, 9)
    case None => None
    case Some(f) =>
      if f[0] != TextLeaf(INTENT_TITLE) then None
      else
        match (TupleOf(f[1], 2), ActionOf(f[2]), TextOf(f[3]), TextOf(f[4]), TextOf(f[5]), OptionalText(f[6]), TextOf(f[7]),
               TextOf(f[8]))
        case (Some(identity), Some(action), Some(actor), Some(session), Some(key), Some(revision), Some(generation),
              Some(proposed)) =>
          (match (TextOf(identity[0]), TextOf(identity[1]))
           case (Some(installation), Some(domain)) =>
             Some(Intent(installation, domain, action, actor, session, key, revision, generation, proposed))
           case _ => None)
        case _ => None
  }

  /** The intent a text states, if the text is in bounds and the intent valid. */
  function AcceptedIntent(text: Text): (i: Option<Intent>)
    ensures i.Some? ==> ValidIntent(i.value)
  {
    if Utf8Length(text) > INPUT_BYTES then None
    else
      match LosslessJson.JsonParse(text)
      case None => None
      case Some(tree) =>
        match IntentOf(tree)
        case None => None
        case Some(i) => if ValidIntent(i) then Some(i) else None
  }

  // ----- writing ------------------------------------------------------------------------------

  function WriteOptional(t: Option<Text>): Value {
    match t case None => Constant(Null) case Some(text) => WriteString(text)
  }

  function WriteIdentity(i: Intent): Value {
    WriteArray([WriteString(i.installation), WriteString(i.domain)])
  }

  function IntentFields(i: Intent): seq<Value> {
    [WriteString(INTENT_TITLE), WriteIdentity(i), WriteString(ActionText(i.action)), WriteString(i.actor),
     WriteString(i.session), WriteString(i.requestKey), WriteOptional(i.expectedRevision),
     WriteString(i.expectedGeneration), WriteString(i.proposedRevision)]
  }

  function TextOfIntent(i: Intent): Text {
    Print(WriteArray(IntentFields(i)))
  }

  // ----- what is written reads back -----------------------------------------------------------

  lemma IdentityReads(i: Intent)
    ensures Wf(WriteIdentity(i)) && Meaning(WriteIdentity(i)).Array?
    ensures ListOf(Meaning(WriteIdentity(i)).items) == [TextLeaf(i.installation), TextLeaf(i.domain)]
  {
    hide WriteString, WriteArray;
    var vs := [WriteString(i.installation), WriteString(i.domain)];
    StringReads(i.installation);
    StringReads(i.domain);
    ArrayReads(vs);
    assert Meanings(vs) == [TextLeaf(i.installation), TextLeaf(i.domain)];
  }

  lemma OptionalReads(t: Option<Text>)
    ensures Wf(WriteOptional(t)) && OptionalText(Meaning(WriteOptional(t))) == Some(t)
  {
    if t.Some? { StringReads(t.value); }
  }

  lemma ActionReads(a: Action)
    ensures ActionOf(TextLeaf(ActionText(a))) == Some(a)
  {
    assert |ActionText(Initialize)| == 10 && |ActionText(Adopt)| == 5 && |ActionText(Replace)| == 7;
  }

  lemma IntentTuple(t: Tree, i: Intent, identity: Tree, revision: Tree)
    requires t.Array? && identity.Array? && ListOf(identity.items) == [TextLeaf(i.installation), TextLeaf(i.domain)]
    requires OptionalText(revision) == Some(i.expectedRevision) && ActionOf(TextLeaf(ActionText(i.action))) == Some(i.action)
    requires ListOf(t.items) == [TextLeaf(INTENT_TITLE), identity, TextLeaf(ActionText(i.action)), TextLeaf(i.actor),
                                 TextLeaf(i.session), TextLeaf(i.requestKey), revision, TextLeaf(i.expectedGeneration),
                                 TextLeaf(i.proposedRevision)]
    ensures IntentOf(t) == Some(i)
  {
    hide ActionText, ActionOf, OptionalText;
  }

  lemma IntentReads(i: Intent)
    ensures var v := WriteArray(IntentFields(i)); Wf(v) && IntentOf(Meaning(v)) == Some(i)
  {
    hide WriteString, WriteArray, WriteIdentity, WriteOptional, ActionText, ActionOf, OptionalText, IntentOf, Wf, Meaning;
    var vs := IntentFields(i);
    StringReads(INTENT_TITLE);
    IdentityReads(i);
    StringReads(ActionText(i.action));
    StringReads(i.actor);
    StringReads(i.session);
    StringReads(i.requestKey);
    OptionalReads(i.expectedRevision);
    StringReads(i.expectedGeneration);
    StringReads(i.proposedRevision);
    ArrayReads(vs);
    ActionReads(i.action);
    var identity, revision := Meaning(vs[1]), Meaning(vs[6]);
    assert Meanings(vs) == [TextLeaf(INTENT_TITLE), identity, TextLeaf(ActionText(i.action)), TextLeaf(i.actor),
                            TextLeaf(i.session), TextLeaf(i.requestKey), revision, TextLeaf(i.expectedGeneration),
                            TextLeaf(i.proposedRevision)];
    IntentTuple(Meaning(WriteArray(vs)), i, identity, revision);
  }

  lemma IntentTextReadsBack(i: Intent)
    ensures LosslessJson.JsonParse(TextOfIntent(i)).Some?
    ensures IntentOf(LosslessJson.JsonParse(TextOfIntent(i)).value) == Some(i)
  {
    hide IntentOf, WriteArray, WriteString, WriteIdentity, WriteOptional;
    IntentReads(i);
    var v := WriteArray(IntentFields(i));
    CompactPrints(v);
    ReadIsComplete(Standard, Compact(v));
  }

  // ----- size ---------------------------------------------------------------------------------

  lemma RequestKeyLength(t: Text)
    requires IsRequestKey(t)
    ensures |Print(WriteString(t))| == 38 && Ascii(Print(WriteString(t)))
  {
    hide WriteString;
    assert NeedsNoEscape(t);
    StringLength(t);
  }

  lemma GenerationLength(t: Text)
    requires IsGeneration(t)
    ensures |Print(WriteString(t))| <= 21 && Ascii(Print(WriteString(t)))
  {
    hide WriteString, NumberOf;
    assert NeedsNoEscape(t);
    StringLength(t);
  }

  lemma ActionLength(a: Action)
    ensures |Print(WriteString(ActionText(a)))| <= 12 && Ascii(Print(WriteString(ActionText(a))))
  {
    hide WriteString;
    assert NeedsNoEscape(ActionText(a));
    StringLength(ActionText(a));
  }

  lemma TitleLength()
    ensures |Print(WriteString(INTENT_TITLE))| <= 79 && Ascii(Print(WriteString(INTENT_TITLE)))
  {
    hide WriteString;
    assert NeedsNoEscape(INTENT_TITLE);
    StringLength(INTENT_TITLE);
  }

  lemma IdentityLength(i: Intent)
    requires ValidIntent(i)
    ensures |Print(WriteIdentity(i))| == 79 && Ascii(Print(WriteIdentity(i)))
  {
    hide WriteString, IsUuid, WriteArray;
    var vs := [WriteString(i.installation), WriteString(i.domain)];
    UuidLength(i.installation);
    UuidLength(i.domain);
    Sum2(vs[0], vs[1]);
    ArrayLength(vs);
    ArrayAscii(vs);
  }

  lemma OptionalLength(t: Option<Text>)
    requires t.Some? ==> IsVersion(t.value)
    ensures |Print(WriteOptional(t))| <= 66 && Ascii(Print(WriteOptional(t)))
  {
    hide WriteString, IsVersion;
    if t.Some? { VersionLength(t.value); }
  }

  /** The ceiling of 1,024 bytes refuses no valid intent: its text has at most 721. */
  lemma IntentTextFits(i: Intent)
    requires ValidIntent(i)
    ensures Utf8Length(TextOfIntent(i)) == |TextOfIntent(i)| <= 721
  {
    hide WriteString, WriteIdentity, WriteOptional, WriteArray, ActionText, IsUuid, IsRequestKey, IsVersion, IsGeneration, Print;
    var vs := IntentFields(i);
    TitleLength();
    IdentityLength(i);
    ActionLength(i.action);
    UuidLength(i.actor);
    UuidLength(i.session);
    RequestKeyLength(i.requestKey);
    OptionalLength(i.expectedRevision);
    GenerationLength(i.expectedGeneration);
    VersionLength(i.proposedRevision);
    forall k | 0 <= k < |vs| ensures |Print(vs[k])| <= 79 && Ascii(Print(vs[k])) {
    }
    SumBound(vs, 79);
    ArrayLength(vs);
    ArrayAscii(vs);
    AsciiLength(TextOfIntent(i));
  }

  // ----- the encoder --------------------------------------------------------------------------

  /** The text written for an accepted one, if it is within its ceiling. */
  function EncodeCurrencySelectionIntent(text: Text): Option<Text> {
    match AcceptedIntent(text)
    case None => None
    case Some(i) => if Utf8Length(TextOfIntent(i)) > INTENT_BYTES then None else Some(TextOfIntent(i))
  }

  /** The output is accepted as the same intent, and encodes to itself. */
  lemma IntentEncodingIsIdempotent(text: Text)
    requires AcceptedIntent(text).Some?
    ensures EncodeCurrencySelectionIntent(text).Some?
    ensures var canonical := EncodeCurrencySelectionIntent(text).value;
      AcceptedIntent(canonical) == AcceptedIntent(text) && EncodeCurrencySelectionIntent(canonical) == Some(canonical)
  {
    hide ValidIntent, IntentOf, TextOfIntent, LosslessJson.JsonParse, Utf8Length;
    var i := AcceptedIntent(text).value;
    IntentTextFits(i);
    IntentTextReadsBack(i);
  }

  /** Two accepted texts have one canonical text exactly when they state one intent. */
  lemma IntentEncodingIsTheIntent(text: Text, other: Text)
    requires AcceptedIntent(text).Some? && AcceptedIntent(other).Some?
    ensures EncodeCurrencySelectionIntent(text) == EncodeCurrencySelectionIntent(other)
            <==> AcceptedIntent(text) == AcceptedIntent(other)
  {
    hide AcceptedIntent, EncodeCurrencySelectionIntent;
    IntentEncodingIsIdempotent(text);
    IntentEncodingIsIdempotent(other);
    if AcceptedIntent(text) == AcceptedIntent(other) { SameEncoding(text, other); }
  }

  lemma SameEncoding(text: Text, other: Text)
    requires AcceptedIntent(text) == AcceptedIntent(other)
    ensures EncodeCurrencySelectionIntent(text) == EncodeCurrencySelectionIntent(other)
  {
  }
}
