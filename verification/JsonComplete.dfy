/**
 The other direction: every text the grammar generates within the bounds is read, and read as the
 document that generated it, so the grammar is unambiguous.
 */
module JsonComplete {
  import opened CodeUnits
  import opened JsonGrammar
  import opened JsonReader
  import opened JsonScan
  import opened Options

  /** Values start with a character of their own, never white space, a separator or a closing bracket. */
  predicate StartsValue(t: Text) {
    t != [] && !IsSpace(t[0]) && t[0] != Close(true) && t[0] != Close(false) && t[0] != COMMA
  }

  lemma NumeralStarts(n: Numeral)
    requires WfNumeral(n)
    ensures PrintNumeral(n) != [] && (PrintNumeral(n)[0] == MINUS || IsDigit(PrintNumeral(n)[0]))
  {
  }

  lemma PrintStarts(v: Value)
    requires Wf(v)
    ensures StartsValue(Print(v))
    ensures (Print(v)[0] == Open(true) || Print(v)[0] == Open(false)) <==> v.Empty? || v.Group?
  {
    match v {
      case String(pieces) => assert Print(v)[0] == QUOTE;
      case Number(n) => NumeralStarts(n);
      case Constant(w) => assert Print(v)[0] == Spelling(w)[0];
      case Empty(braces, _) => assert Print(v)[0] == Open(braces);
      case Group(braces, _) => assert Print(v)[0] == Open(braces);
    }
  }

  lemma PrefixOfOther(w: Word, t: Text)
    requires t != [] && t[0] != Spelling(w)[0]
    ensures !(Spelling(w) <= t)
  {
  }

  lemma ReadWordOf(w: Word, rest: Text)
    ensures ReadWord(Spelling(w) + rest) == Some(w)
  {
    var t := Spelling(w) + rest;
    Cut(Spelling(w), rest);
    assert t[0] == Spelling(w)[0];
    if w != True { PrefixOfOther(True, t); }
    if w == Null { PrefixOfOther(False, t); }
  }

  lemma ReadLeafOf(v: Value, rest: Text)
    requires Wf(v) && !v.Empty? && !v.Group? && Stops(rest)
    ensures var t := Print(v) + rest; t != [] && ReadLeaf(t) == Some(LeafReading(v, rest))
  {
    var t := Print(v) + rest;
    PrintStarts(v);
    assert t[0] == Print(v)[0];
    match v {
      case String(pieces) =>
        ReadStringOf(pieces, rest);
      case Constant(w) =>
        ReadWordOf(w, rest);
        Cut(Spelling(w), rest);
      case Number(n) =>
        NumeralStarts(n);
        PrefixOfOther(True, t);
        PrefixOfOther(False, t);
        PrefixOfOther(Null, t);
        ReadNumberOf(n, rest);
    }
  }

  // One step of each function, with its parts named.

  lemma ValueStep(mode: Mode, t: Text, space: Text, u: Text, c: CoreReading, depth: nat, nodes: nat)
    requires SkipSpace(t) == u && TakeSpace(t) == space && u != []
    requires Permits(mode, depth, nodes + 1) && ReadCore(mode, u, depth, nodes + 1) == Some(c)
    ensures ReadValue(mode, t, depth, nodes) == Some(Reading(space, c.value, c.rest, c.nodes))
  {
  }

  lemma LeafStep(mode: Mode, u: Text, l: LeafReading, depth: nat, nodes: nat)
    requires u != [] && u[0] != Open(true) && u[0] != Open(false) && ReadLeaf(u) == Some(l)
    ensures ReadCore(mode, u, depth, nodes) == Some(CoreReading(l.value, l.rest, nodes))
  {
  }

  lemma UnnamedStep(mode: Mode, t: Text, keys: set<Text>)
    ensures ReadName(mode, false, t, keys) == Some(NameReading(Unnamed, keys, t))
  {
  }

  lemma EmptyStep(mode: Mode, braces: bool, u: Text, inner: Text, depth: nat, nodes: nat)
    requires u != [] && u[0] == Open(braces) && SkipSpace(u[1..]) == inner
    requires inner != [] && inner[0] == Close(braces)
    ensures ReadCore(mode, u, depth, nodes) == Some(CoreReading(Empty(braces, TakeSpace(u[1..])), inner[1..], nodes))
  {
  }

  lemma GroupStep(mode: Mode, braces: bool, u: Text, inner: Text, g: MembersReading, depth: nat, nodes: nat)
    requires u != [] && u[0] == Open(braces) && u[1..] == inner
    requires SkipSpace(inner) == [] || SkipSpace(inner)[0] != Close(braces)
    requires ReadMembers(mode, braces, inner, {}, depth, nodes) == Some(g)
    ensures ReadCore(mode, u, depth, nodes) == Some(CoreReading(Group(braces, g.members), g.rest, g.nodes))
  {
  }

  lemma ItemStep(mode: Mode, braces: bool, t: Text, keys: set<Text>, n: NameReading, v: Reading, depth: nat, nodes: nat)
    requires ReadName(mode, braces, SkipSpace(t), keys) == Some(n)
    requires ReadValue(mode, n.rest, depth + 1, nodes) == Some(v)
    ensures ReadItem(mode, braces, t, keys, depth, nodes)
         == Some(ItemReading(TakeSpace(t), WithSpace(n.name, v.space), v.value, v.rest, n.keys, v.nodes))
  {
  }

  lemma LastStep(mode: Mode, braces: bool, t: Text, keys: set<Text>, m: ItemReading, after: Text, depth: nat, nodes: nat)
    requires ReadItem(mode, braces, t, keys, depth, nodes) == Some(m)
    requires SkipSpace(m.rest) == after && after != [] && after[0] == Close(braces)
    ensures ReadMembers(mode, braces, t, keys, depth, nodes)
         == Some(MembersReading(Last(m.lead, m.name, m.value, TakeSpace(m.rest)), after[1..], m.nodes))
  {
  }

  lemma MoreStep(
    mode: Mode, braces: bool, t: Text, keys: set<Text>, m: ItemReading, after: Text, g: MembersReading, depth: nat, nodes: nat)
    requires ReadItem(mode, braces, t, keys, depth, nodes) == Some(m)
    requires SkipSpace(m.rest) == after && after != [] && after[0] == COMMA
    requires ReadMembers(mode, braces, after[1..], m.keys, depth, m.nodes) == Some(g)
    ensures ReadMembers(mode, braces, t, keys, depth, nodes)
         == Some(MembersReading(More(m.lead, m.name, m.value, TakeSpace(m.rest), g.members), g.rest, g.nodes))
  {
  }

  lemma {:induction false} ReadValueOf(mode: Mode, space: Text, v: Value, rest: Text, depth: nat, nodes: nat)
    requires AllSpace(space) && Wf(v) && Stops(rest) && Fits(mode, v, depth, nodes)
    ensures ReadValue(mode, space + (Print(v) + rest), depth, nodes)
         == Some(Reading(space, v, rest, nodes + Count(v)))
    decreases v, 1
  {
    hide ReadValue, ReadCore, ReadItem, ReadMembers, ReadLeaf, ReadName, SkipSpace, Print, AllSpace, Wf;
    var u := Print(v) + rest;
    PrintStarts(v);
    assert u[0] == Print(v)[0];
    SkipSpaceOf(space, u);
    CountPositive(v);
    ReadCoreOf(mode, v, rest, depth, nodes + 1);
    ValueStep(mode, space + u, space, u, CoreReading(v, rest, nodes + Count(v)), depth, nodes);
  }

  lemma CountPositive(v: Value)
    ensures Count(v) >= 1
  {
  }

  /** The first character inside a non-empty group is not its closing bracket. */
  lemma MembersStart(braces: bool, ms: Members, tail: Text)
    requires WfMembers(braces, ms)
    ensures var t := SkipSpace(PrintMembers(ms) + tail); t != [] && t[0] != Close(braces)
  {
    PrintStarts(ms.value);
    var inner := if ms.Last? then ms.after + tail else ms.after + ([COMMA] + (PrintMembers(ms.rest) + tail));
    var t := PrintName(ms.name) + (Print(ms.value) + inner);
    if ms.Last? { LastSplits(ms, tail); } else { MoreSplits(ms, tail); }
    if ms.name.Named? {
      assert t[0] == QUOTE;
    } else {
      assert t == Print(ms.value) + inner;
      assert t[0] == Print(ms.value)[0];
    }
    SkipSpaceOf(ms.lead, t);
  }

  lemma {:induction false} ReadCoreOf(mode: Mode, v: Value, rest: Text, depth: nat, nodes: nat)
    requires Wf(v) && Stops(rest) && nodes >= 1 && Fits(mode, v, depth, nodes - 1)
    ensures var u := Print(v) + rest;
      u != [] && ReadCore(mode, u, depth, nodes) == Some(CoreReading(v, rest, nodes - 1 + Count(v)))
    decreases v, 0
  {
    hide ReadValue, ReadCore, ReadItem, ReadMembers, ReadLeaf, ReadName, SkipSpace, PrintMembers, Distinct;
    match v {
      case Empty(braces, space) => EmptyOf(mode, braces, space, rest, depth, nodes);
      case Group(braces, ms) =>
        var close := [Close(braces)] + rest;
        if mode.Bounded? && braces { FreshKeysMeaning(ms, {}); }
        ReadMembersOf(mode, braces, ms, {}, rest, depth, nodes);
        MembersStart(braces, ms, close);
        InsideGroup(braces, ms, rest);
        GroupStep(mode, braces, Print(v) + rest, PrintMembers(ms) + close,
                  MembersReading(ms, rest, nodes + MembersCount(ms)), depth, nodes);
      case _ =>
        PrintStarts(v);
        assert (Print(v) + rest)[0] == Print(v)[0];
        ReadLeafOf(v, rest);
        LeafStep(mode, Print(v) + rest, LeafReading(v, rest), depth, nodes);
    }
  }

  lemma EmptyOf(mode: Mode, braces: bool, space: Text, rest: Text, depth: nat, nodes: nat)
    requires AllSpace(space)
    ensures ReadCore(mode, Print(Empty(braces, space)) + rest, depth, nodes)
         == Some(CoreReading(Empty(braces, space), rest, nodes))
  {
    var close := [Close(braces)] + rest;
    var u := [Open(braces)] + (space + close);
    Assoc([Open(braces)], space + [Close(braces)], rest);
    Assoc(space, [Close(braces)], rest);
    Cut([Open(braces)], space + close);
    SkipSpaceOf(space, close);
    Cut([Close(braces)], rest);
    EmptyStep(mode, braces, u, close, depth, nodes);
  }

  lemma InsideGroup(braces: bool, ms: Members, rest: Text)
    ensures var u := Print(Group(braces, ms)) + rest;
      u != [] && u[0] == Open(braces) && u[1..] == PrintMembers(ms) + ([Close(braces)] + rest)
  {
    var inside := PrintMembers(ms) + ([Close(braces)] + rest);
    Assoc([Open(braces)], PrintMembers(ms) + [Close(braces)], rest);
    Assoc(PrintMembers(ms), [Close(braces)], rest);
    Cut([Open(braces)], inside);
  }

  lemma ReadNameOf(mode: Mode, n: Name, tail: Text, keys: set<Text>)
    requires n.Named? && WfName(true, n)
    requires PermitsKey(mode, keys, Decode(n.key))
    ensures ReadName(mode, true, PrintName(n) + tail, keys)
         == Some(NameReading(Named(n.key, n.gap, []), keys + {Decode(n.key)}, n.before + tail))
  {
    var colon := [COLON] + (n.before + tail);
    Assoc4(PrintString(n.key), n.gap, [COLON], n.before, tail);
    ReadStringOf(n.key, n.gap + colon);
    SkipSpaceOf(n.gap, colon);
    Cut([COLON], n.before + tail);
    assert (PrintName(n) + tail)[0] == QUOTE;
  }

  ghost function KeysWith(keys: set<Text>, n: Name): set<Text>
    requires n.Named? ==> WfPieces(n.key)
  {
    if n.Named? then keys + {Decode(n.key)} else keys
  }

  lemma NamedItem(mode: Mode, lead: Text, n: Name, keys: set<Text>, v: Text, r: Reading, depth: nat, nodes: nat)
    requires AllSpace(lead) && WfName(true, n) && PermitsKey(mode, keys, Decode(n.key))
    requires ReadValue(mode, n.before + v, depth + 1, nodes) == Some(r) && r.space == n.before
    ensures ReadItem(mode, true, lead + (PrintName(n) + v), keys, depth, nodes)
         == Some(ItemReading(lead, n, r.value, r.rest, KeysWith(keys, n), r.nodes))
  {
    hide ReadValue, ReadItem, ReadName, SkipSpace;
    var u := PrintName(n) + v;
    assert u[0] == QUOTE;
    SkipSpaceOf(lead, u);
    ReadNameOf(mode, n, v, keys);
    ItemStep(mode, true, lead + u, keys,
             NameReading(Named(n.key, n.gap, []), KeysWith(keys, n), n.before + v), r, depth, nodes);
  }

  lemma UnnamedItem(mode: Mode, lead: Text, keys: set<Text>, v: Text, r: Reading, depth: nat, nodes: nat)
    requires AllSpace(lead) && Flush(v)
    requires ReadValue(mode, v, depth + 1, nodes) == Some(r)
    ensures ReadItem(mode, false, lead + (PrintName(Unnamed) + v), keys, depth, nodes)
         == Some(ItemReading(lead, Unnamed, r.value, r.rest, keys, r.nodes))
  {
    hide ReadValue, ReadItem, ReadName, SkipSpace;
    assert PrintName(Unnamed) + v == v;
    SkipSpaceOf(lead, v);
    UnnamedStep(mode, v, keys);
    ItemStep(mode, false, lead + v, keys, NameReading(Unnamed, keys, v), r, depth, nodes);
  }

  lemma {:induction false} ReadItemOf(
    mode: Mode, braces: bool, ms: Members, keys: set<Text>, tail: Text, depth: nat, nodes: nat)
    requires WfMembers(braces, ms) && Stops(tail) && FitsMembers(mode, braces, ms, keys, depth, nodes)
    ensures ReadItem(mode, braces, ms.lead + (PrintName(ms.name) + (Print(ms.value) + tail)), keys, depth, nodes)
         == Some(ItemReading(ms.lead, ms.name, ms.value, tail, KeysWith(keys, ms.name), nodes + Count(ms.value)))
    decreases ms, 0
  {
    hide ReadValue, ReadItem;
    var v := Print(ms.value) + tail;
    var r := Reading(if braces then ms.name.before else [], ms.value, tail, nodes + Count(ms.value));
    ReadValueOf(mode, r.space, ms.value, tail, depth + 1, nodes);
    if braces {
      NamedItem(mode, ms.lead, ms.name, keys, v, r, depth, nodes);
    } else {
      PrintStarts(ms.value);
      assert v[0] == Print(ms.value)[0] && [] + v == v;
      UnnamedItem(mode, ms.lead, keys, v, r, depth, nodes);
    }
  }

  lemma {:induction false} ReadMembersOf(
    mode: Mode, braces: bool, ms: Members, keys: set<Text>, rest: Text, depth: nat, nodes: nat)
    requires WfMembers(braces, ms) && FitsMembers(mode, braces, ms, keys, depth, nodes)
    ensures ReadMembers(mode, braces, PrintMembers(ms) + ([Close(braces)] + rest), keys, depth, nodes)
         == Some(MembersReading(ms, rest, nodes + MembersCount(ms)))
    decreases ms, 1
  {
    hide ReadValue, ReadCore, ReadItem, ReadMembers, ReadLeaf, ReadName, SkipSpace, PrintMembers, Print, PrintName;
    var close := [Close(braces)] + rest;
    if ms.Last? {
      AfterStops(ms.after, close);
      ReadItemOf(mode, braces, ms, keys, ms.after + close, depth, nodes);
      LastSplits(ms, close);
      SkipSpaceOf(ms.after, close);
      Cut([Close(braces)], rest);
      LastStep(mode, braces, PrintMembers(ms) + close, keys,
               ItemReading(ms.lead, ms.name, ms.value, ms.after + close, KeysWith(keys, ms.name), nodes + Count(ms.value)),
               close, depth, nodes);
    } else {
      var next := PrintMembers(ms.rest) + close;
      var comma := [COMMA] + next;
      AfterStops(ms.after, comma);
      ReadItemOf(mode, braces, ms, keys, ms.after + comma, depth, nodes);
      MoreSplits(ms, close);
      SkipSpaceOf(ms.after, comma);
      Cut([COMMA], next);
      ReadMembersOf(mode, braces, ms.rest, KeysWith(keys, ms.name), rest, depth, nodes + Count(ms.value));
      MoreStep(mode, braces, PrintMembers(ms) + close, keys,
               ItemReading(ms.lead, ms.name, ms.value, ms.after + comma, KeysWith(keys, ms.name), nodes + Count(ms.value)),
               comma, MembersReading(ms.rest, rest, nodes + MembersCount(ms)), depth, nodes);
    }
  }

  lemma AfterStops(after: Text, tail: Text)
    requires AllSpace(after) && tail != [] && Stops(tail)
    ensures Stops(after + tail)
  {
  }

  // ----- whole texts --------------------------------------------------------------------------

  /** t is a JSON text of the grammar, and d is its document. */
  ghost predicate Spells(d: Document, t: Text) {
    WfDocument(d) && PrintDocument(d) == t
  }

  /** The extra rules of the registrar client on a document. */
  ghost predicate WithinBounds(d: Document, nodes: nat)
    requires WfDocument(d)
  {
    Height(d.value) <= MAX_DEPTH && Count(d.value) <= nodes && CleanKeys(d.value)
  }

  ghost predicate Admits(mode: Mode, d: Document)
    requires WfDocument(d)
  {
    mode.Bounded? ==> WithinBounds(d, mode.nodes)
  }

  /** What is read spells the text and is within the bounds. */
  lemma ReadIsSound(mode: Mode, t: Text)
    requires Read(mode, t).Some?
    ensures var d := Read(mode, t).value; Spells(d, t) && Admits(mode, d)
  {
    ReadValueSound(mode, t, 0, 0);
    ReadValueBounds(mode, t, 0, 0);
    SkipSpaceSplits(ReadValue(mode, t, 0, 0).value.rest);
  }

  /** Every document within the bounds is read back from its text. */
  lemma ReadIsComplete(mode: Mode, d: Document)
    requires WfDocument(d) && Admits(mode, d)
    ensures Read(mode, PrintDocument(d)) == Some(d)
  {
    ReadValueOf(mode, d.before, d.value, d.after, 0, 0);
    SkipSpaceOf(d.after, []);
    assert d.after + [] == d.after;
  }

  /** A text is accepted exactly when the grammar generates it within the bounds. */
  lemma ReadAccepts(mode: Mode, t: Text)
    ensures Read(mode, t).Some? <==> exists d :: Spells(d, t) && Admits(mode, d)
  {
    if Read(mode, t).Some? {
      ReadIsSound(mode, t);
    }
    forall d | Spells(d, t) && Admits(mode, d) ensures Read(mode, t).Some? {
      ReadIsComplete(mode, d);
    }
  }

  /** No text has two documents. */
  lemma GrammarIsUnambiguous(d: Document, e: Document, t: Text)
    requires Spells(d, t) && Spells(e, t)
    ensures d == e
  {
    ReadIsComplete(Standard, d);
    ReadIsComplete(Standard, e);
  }
}
