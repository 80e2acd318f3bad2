/**
 Currency selection assessments (packages/database/src/private/currency-selection-assessment.ts): the
 checks on the parts of a parsed assessment, the lists and maps they are made with, and the canonical
 tuple.  The stable intent it is bound to is given by the fields the checks compare.
 */
module SelectionAssessment {
  import opened CodeUnits
  import opened JsonArrays
  import opened JsonGrammar
  import opened JsonStringify
  import opened Options
  import opened PolicyContext
  import opened Sorting

  const COUNTER_MAX: nat := 9_223_372_036_854_775_807
  const EVIDENCE_BYTES: nat := 224

  // ----- primitive forms ----------------------------------------------------------------------

  predicate IsLowerHex(u: CodeUnit) {
    IsDigit(u) || 'a' as int <= u <= 'f' as int
  }

  predicate Separates(i: int) {
    i == 8 || i == 13 || i == 18 || i == 23
  }

  predicate Uniform(t: Text, u: CodeUnit) {
    |t| == 36 && forall i | 0 <= i < 36 :: t[i] == if Separates(i) then MINUS else u
  }

  predicate IsUuid(t: Text) {
    && |t| == 36
    && (|| Uniform(t, ZERO) || Uniform(t, 'f' as int)
        || (&& (forall i | 0 <= i < 36 :: if Separates(i) then t[i] == MINUS else IsLowerHex(t[i]))
            && '1' as int <= t[14] <= '8' as int
            && (t[19] == '8' as int || t[19] == '9' as int || t[19] == 'a' as int || t[19] == 'b' as int)))
  }

  predicate IsDigest(t: Text) {
    |t| == 64 && forall i | 0 <= i < 64 :: IsLowerHex(t[i])
  }

  function NumberOf(t: Text): int {
    if t == [] then 0 else 10 * NumberOf(t[..|t| - 1]) + (t[|t| - 1] - ZERO)
  }

  predicate IsPositiveCounter(t: Text) {
    1 <= |t| <= 19 && AllDigits(t) && t[0] != ZERO && NumberOf(t) <= COUNTER_MAX
  }

  // ----- evidence -----------------------------------------------------------------------------

  datatype Evidence = Evidence(kind: Text, id: Text, version: Text, digest: Text)

  const HISTORY: Text := Units("history")
  const HISTORY_VERSION: Text := Units("currency-history-assessment-v1")
  const COMPATIBILITY: Text := Units("compatibility")
  const COMPATIBILITY_VERSION: Text := Units("currency-compatibility-v1")
  const ADOPTION: Text := Units("adoption")
  const ADOPTION_VERSION: Text := Units("currency-adoption-v1")

  predicate IsEvidence(e: Evidence) {
    && (|| (e.kind == HISTORY && e.version == HISTORY_VERSION)
        || (e.kind == COMPATIBILITY && e.version == COMPATIBILITY_VERSION)
        || (e.kind == ADOPTION && e.version == ADOPTION_VERSION))
    && IsUuid(e.id) && IsDigest(e.digest)
  }

  function WriteEvidence(e: Evidence): Value {
    WriteArray([WriteString(e.kind), WriteString(e.id), WriteString(e.version), WriteString(e.digest)])
  }

  predicate EvidenceFits(e: Evidence) {
    Utf8Length(Print(WriteEvidence(e))) <= EVIDENCE_BYTES
  }

  function IdentityKey(e: Evidence): Text {
    e.kind + [COLON] + e.id
  }

  predicate OnePerIdentity(es: seq<Evidence>) {
    forall i, j | 0 <= i < j < |es| :: IdentityKey(es[i]) != IdentityKey(es[j])
  }

  predicate HasKind(es: set<Evidence>, kind: Text) {
    exists e | e in es :: e.kind == kind
  }

  /** What the list must hold, whatever its order. */
  predicate Suffices(es: set<Evidence>, adopting: bool) {
    && HasKind(es, HISTORY) && HasKind(es, COMPATIBILITY)
    && (adopting ==> HasKind(es, ADOPTION))
  }

  predicate EvidenceOk(es: seq<Evidence>, adopting: bool) {
    && 1 <= |es| <= ENTRIES
    && (forall i | 0 <= i < |es| :: IsEvidence(es[i]))
    && OnePerIdentity(es) && Suffices(Elements(es), adopting)
  }

  predicate EvidenceLess(a: Evidence, b: Evidence) {
    || TextLess(a.kind, b.kind)
    || (a.kind == b.kind && (TextLess(a.version, b.version) || (a.version == b.version && TextLess(a.id, b.id))))
  }

  /** An identity tells the kind and id apart: ids have one length. */
  lemma IdentityIsInjective(a: Evidence, b: Evidence)
    requires IsUuid(a.id) && IsUuid(b.id) && IdentityKey(a) == IdentityKey(b)
    ensures a.kind == b.kind && a.id == b.id
  {
    hide Uniform, IsLowerHex;
    var k := IdentityKey(a);
    assert k[..|k| - 37] == a.kind && k[|k| - 36..] == a.id;
    assert k[..|k| - 37] == b.kind && k[|k| - 36..] == b.id;
  }

  ghost predicate Distinguished(s: set<Evidence>) {
    forall a, b | a in s && b in s && a != b :: a.kind != b.kind || a.version != b.version || a.id != b.id
  }

  lemma EvidenceIsDistinguished(es: seq<Evidence>)
    requires OnePerIdentity(es)
    ensures NoRepeats(es) && Distinguished(Elements(es))
  {
    forall a, b | a in Elements(es) && b in Elements(es) && a != b
      ensures a.kind != b.kind || a.version != b.version || a.id != b.id
    {
      assert IdentityKey(a) != IdentityKey(b);
    }
  }

  lemma EvidenceLessTransitive(a: Evidence, b: Evidence, c: Evidence)
    requires EvidenceLess(a, b) && EvidenceLess(b, c)
    ensures EvidenceLess(a, c)
  {
    hide TextLess;
    if TextLess(a.kind, b.kind) && TextLess(b.kind, c.kind) { TextLessTransitive(a.kind, b.kind, c.kind); }
    if TextLess(a.version, b.version) && TextLess(b.version, c.version) {
      TextLessTransitive(a.version, b.version, c.version);
    }
    if TextLess(a.id, b.id) && TextLess(b.id, c.id) { TextLessTransitive(a.id, b.id, c.id); }
  }

  lemma EvidenceLessIsStrict(a: Evidence, b: Evidence)
    ensures !(EvidenceLess(a, b) && EvidenceLess(b, a))
    ensures a.kind != b.kind || a.version != b.version || a.id != b.id ==> EvidenceLess(a, b) || EvidenceLess(b, a)
  {
    hide TextLess;
    TextLessIsStrict(a.kind, b.kind);
    TextLessIsStrict(a.version, b.version);
    TextLessIsStrict(a.id, b.id);
  }

  lemma EvidenceOrder(es: seq<Evidence>)
    requires OnePerIdentity(es)
    ensures NoRepeats(es) && StrictOn(EvidenceLess, Elements(es))
  {
    hide EvidenceLess, IdentityKey;
    EvidenceIsDistinguished(es);
    var s := Elements(es);
    forall a, b | a in s && b in s && a != b ensures EvidenceLess(a, b) != EvidenceLess(b, a) {
      EvidenceLessIsStrict(a, b);
    }
    forall a | a in s ensures !EvidenceLess(a, a) { EvidenceLessIsStrict(a, a); }
    forall a, b, c | a in s && b in s && c in s && EvidenceLess(a, b) && EvidenceLess(b, c) ensures EvidenceLess(a, c) {
      EvidenceLessTransitive(a, b, c);
    }
  }

  lemma SortedEvidence(es: seq<Evidence>, adopting: bool)
    requires EvidenceOk(es, adopting)
    ensures var t := Sort(es, EvidenceLess);
      && EvidenceOk(t, adopting) && Elements(t) == Elements(es) && Ascending(EvidenceLess, t) && Sort(t, EvidenceLess) == t
  {
    hide IsEvidence, Suffices, EvidenceLess, IdentityKey;
    EvidenceOrder(es);
    SortSorts(es, EvidenceLess);
    var t := Sort(es, EvidenceLess);
    AscendingHasNoRepeats(t, EvidenceLess);
    forall i, j | 0 <= i < j < |t| ensures IdentityKey(t[i]) != IdentityKey(t[j]) {
      assert t[i] in Elements(es) && t[j] in Elements(es) && t[i] != t[j];
    }
    forall i | 0 <= i < |t| ensures IsEvidence(t[i]) { assert t[i] in Elements(es); }
    SortKeepsAscending(t, EvidenceLess);
  }

  /** Two accepted lists sort alike exactly when they hold the same evidence. */
  lemma EvidenceIsItsFacts(es: seq<Evidence>, fs: seq<Evidence>, adopting: bool)
    requires EvidenceOk(es, adopting) && EvidenceOk(fs, adopting)
    ensures Sort(es, EvidenceLess) == Sort(fs, EvidenceLess) <==> Elements(es) == Elements(fs)
  {
    hide EvidenceOk, EvidenceLess;
    SortedEvidence(es, adopting);
    SortedEvidence(fs, adopting);
    if Elements(es) == Elements(fs) {
      assert OnePerIdentity(es) by { IdentitiesOf(es, adopting); }
      EvidenceOrder(es);
      AscendingUnique(Sort(es, EvidenceLess), Sort(fs, EvidenceLess), EvidenceLess);
    }
  }

  lemma IdentitiesOf(es: seq<Evidence>, adopting: bool)
    requires EvidenceOk(es, adopting)
    ensures OnePerIdentity(es)
  {
  }

  // ----- size ---------------------------------------------------------------------------------

  lemma UuidLength(t: Text)
    requires IsUuid(t)
    ensures |Print(WriteString(t))| == 38 && Ascii(Print(WriteString(t)))
  {
    hide WriteString;
    assert NeedsNoEscape(t);
    StringLength(t);
  }

  lemma DigestLength(t: Text)
    requires IsDigest(t)
    ensures |Print(WriteString(t))| == 66 && Ascii(Print(WriteString(t)))
  {
    hide WriteString;
    assert NeedsNoEscape(t);
    StringLength(t);
  }

  lemma PlainIsPrintable(t: Text)
    requires NeedsNoEscape(t)
    ensures forall i | 0 <= i < |t| :: 0x20 <= t[i] <= 0x7E
  {
  }

  lemma PlainWords()
    ensures NeedsNoEscape(HISTORY) && NeedsNoEscape(COMPATIBILITY) && NeedsNoEscape(ADOPTION)
  {
  }

  lemma PlainHistoryVersion()
    ensures NeedsNoEscape(HISTORY_VERSION)
  {
  }

  lemma PlainVersions()
    ensures NeedsNoEscape(COMPATIBILITY_VERSION) && NeedsNoEscape(ADOPTION_VERSION)
  {
  }

  lemma KindLength(e: Evidence)
    requires IsEvidence(e)
    ensures |Print(WriteString(e.kind))| <= 38 && Ascii(Print(WriteString(e.kind)))
    ensures |Print(WriteString(e.version))| <= 38 && Ascii(Print(WriteString(e.version)))
  {
    hide WriteString, IsUuid, IsDigest, NeedsNoEscape, Units;
    PlainWords();
    PlainHistoryVersion();
    PlainVersions();
    PlainIsPrintable(e.kind);
    PlainIsPrintable(e.version);
    StringLength(e.kind);
    StringLength(e.version);
  }

  lemma EvidenceLength(e: Evidence)
    requires IsEvidence(e)
    ensures |Print(WriteEvidence(e))| <= 185 && Ascii(Print(WriteEvidence(e)))
  {
    hide WriteString, WriteArray, IsUuid, IsDigest, Print;
    var vs := [WriteString(e.kind), WriteString(e.id), WriteString(e.version), WriteString(e.digest)];
    KindLength(e);
    UuidLength(e.id);
    DigestLength(e.digest);
    SumBound(vs[..3], 38);
    SumBound(vs[3..], 66);
    SumConcat(vs[..3], vs[3..]);
    assert vs == vs[..3] + vs[3..];
    ArrayLength(vs);
    ArrayAscii(vs);
  }

  /** The ceiling of 224 bytes refuses no evidence that passes its tests. */
  lemma EvidenceAlwaysFits(e: Evidence)
    requires IsEvidence(e)
    ensures EvidenceFits(e)
  {
    hide WriteEvidence, Print, IsEvidence;
    EvidenceLength(e);
    AsciiLength(Print(WriteEvidence(e)));
  }

  /** copyEvidence: the loop with its two sets, and the sort. */
  method CopyEvidence(entries: seq<Evidence>, adopting: bool) returns (copies: Option<seq<Evidence>>)
    ensures copies == if EvidenceOk(entries, adopting) then Some(Sort(entries, EvidenceLess)) else None
  {
    hide IsEvidence, EvidenceFits, IdentityKey, EvidenceLess, Sort;
    if |entries| < 1 || |entries| > ENTRIES { return None; }
    var identities: set<Text> := {};
    var kinds: set<Text> := {};
    for i := 0 to |entries|
      invariant forall j | 0 <= j < i :: IsEvidence(entries[j])
      invariant OnePerIdentity(entries[..i])
      invariant forall k :: k in identities <==> exists j | 0 <= j < i :: IdentityKey(entries[j]) == k
      invariant forall k :: k in kinds <==> HasKind(Elements(entries[..i]), k)
    {
      var entry := entries[i];
      if !IsEvidence(entry) { return None; }
      var key := IdentityKey(entry);
      if key in identities { return None; }
      EvidenceAlwaysFits(entry);
      if !EvidenceFits(entry) { return None; }
      identities := identities + {key};
      kinds := kinds + {entry.kind};
      KindsGrow(entries, i);
    }
    assert entries[..|entries|] == entries;
    if HISTORY !in kinds || COMPATIBILITY !in kinds || (adopting && ADOPTION !in kinds) {
      return None;
    }
    return Some(Sort(entries, EvidenceLess));
  }

  lemma KindsGrow(entries: seq<Evidence>, i: nat)
    requires i < |entries|
    ensures forall k :: HasKind(Elements(entries[..i + 1]), k) <==> HasKind(Elements(entries[..i]), k) || k == entries[i].kind
  {
    assert entries[..i + 1] == entries[..i] + [entries[i]];
    assert Elements(entries[..i + 1]) == Elements(entries[..i]) + {entries[i]};
  }

  // ----- definitions --------------------------------------------------------------------------

  predicate AgreeOn(a: Definition, b: Definition) {
    a.code == b.code && a.version == b.version ==> a == b
  }

  /** No two of these define the same unit in different ways. */
  predicate Agreeing(ds: seq<Definition>) {
    forall i, j | 0 <= i < |ds| && 0 <= j < |ds| :: AgreeOn(ds[i], ds[j])
  }

  function AllDefinitions(proposed: Context, prior: Option<Context>, anchor: Option<Definition>): seq<Definition> {
    proposed.definitions + (match prior case Some(c) => c.definitions case None => [])
    + (match anchor case Some(d) => [d] case None => [])
  }

  /** consistentDefinitions: one map entry per identity, compared field by field. */
  method ConsistentDefinitions(proposed: Context, prior: Option<Context>, anchor: Option<Definition>) returns (ok: bool)
    requires forall d | d in AllDefinitions(proposed, prior, anchor) :: IsCode(d.code)
    ensures ok <==> Agreeing(AllDefinitions(proposed, prior, anchor))
  {
    hide UnitKey, IsCode, AgreeOn, Agreeing;
    var all := AllDefinitions(proposed, prior, anchor);
    var byIdentity: map<Text, Definition> := map[];
    NothingDisagrees(all);
    for i := 0 to |all|
      invariant Agreeing(all[..i]) && Indexes(byIdentity, all[..i])
    {
      var unit := all[i];
      var key := UnitKey(unit.code, unit.version);
      AgreesWithMap(byIdentity, all[..i], unit);
      AgreeingGrows(all, i);
      if key in byIdentity && byIdentity[key] != unit {
        AgreeingShrinks(all, i + 1);
        return false;
      }
      IndexGrows(byIdentity, all, i);
      byIdentity := byIdentity[key := unit];
    }
    assert all[..|all|] == all;
    return true;
  }

  lemma NothingDisagrees(all: seq<Definition>)
    ensures Agreeing(all[..0]) && Indexes(map[], all[..0])
  {
  }

  lemma AgreeingShrinks(all: seq<Definition>, i: nat)
    requires i <= |all|
    ensures Agreeing(all) ==> Agreeing(all[..i])
  {
    hide AgreeOn;
    if Agreeing(all) {
      forall a, b | 0 <= a < i && 0 <= b < i ensures AgreeOn(all[..i][a], all[..i][b]) {
        assert AgreeOn(all[a], all[b]);
      }
    }
  }

  /** The map holds, for every unit seen, a definition of it that was seen. */
  ghost predicate Indexes(byIdentity: map<Text, Definition>, seen: seq<Definition>) {
    && (forall k | k in byIdentity :: byIdentity[k] in seen && UnitKey(byIdentity[k].code, byIdentity[k].version) == k)
    && (forall j | 0 <= j < |seen| :: UnitKey(seen[j].code, seen[j].version) in byIdentity)
  }

  /** One comparison with the map is a comparison with all that was seen. */
  lemma AgreesWithMap(byIdentity: map<Text, Definition>, seen: seq<Definition>, unit: Definition)
    requires Agreeing(seen) && Indexes(byIdentity, seen) && IsCode(unit.code) && forall d | d in seen :: IsCode(d.code)
    ensures var key := UnitKey(unit.code, unit.version);
      (forall j | 0 <= j < |seen| :: AgreeOn(seen[j], unit)) <==> !(key in byIdentity && byIdentity[key] != unit)
  {
    hide UnitKey, IsCode;
    var key := UnitKey(unit.code, unit.version);
    if key in byIdentity {
      var j :| 0 <= j < |seen| && seen[j] == byIdentity[key];
      assert seen[j] in seen;
      UnitKeyInjective(seen[j].code, seen[j].version, unit.code, unit.version);
      forall k | 0 <= k < |seen| && byIdentity[key] == unit ensures AgreeOn(seen[k], unit) {
        assert AgreeOn(seen[k], seen[j]);
      }
    } else {
      forall k | 0 <= k < |seen| ensures AgreeOn(seen[k], unit) {
        assert UnitKey(seen[k].code, seen[k].version) in byIdentity;
      }
    }
  }

  lemma IndexGrows(byIdentity: map<Text, Definition>, all: seq<Definition>, i: nat)
    requires i < |all| && Indexes(byIdentity, all[..i])
    ensures Indexes(byIdentity[UnitKey(all[i].code, all[i].version) := all[i]], all[..i + 1])
  {
    hide UnitKey;
    assert all[..i + 1] == all[..i] + [all[i]];
  }

  lemma AgreeingGrows(all: seq<Definition>, i: nat)
    requires i < |all| && Agreeing(all[..i])
    ensures Agreeing(all[..i + 1]) <==> forall j | 0 <= j < i :: AgreeOn(all[j], all[i])
  {
    var front, more := all[..i], all[..i + 1];
    assert forall j | 0 <= j < i :: front[j] == all[j] && more[j] == all[j];
    if forall j | 0 <= j < i :: AgreeOn(all[j], all[i]) {
      forall a, b | 0 <= a < |more| && 0 <= b < |more| ensures AgreeOn(more[a], more[b]) {
        if a < i && b < i { assert AgreeOn(front[a], front[b]); }
      }
    }
    if Agreeing(more) {
      forall j | 0 <= j < i ensures AgreeOn(all[j], all[i]) { assert AgreeOn(more[j], more[i]); }
    }
  }
}
