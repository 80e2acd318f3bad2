/**
 Reading values, arrays and objects, and the two directions that tie reading to the grammar.
 */
module JsonScan {
  import opened CodeUnits
  import opened JsonGrammar
  import opened JsonReader
  import opened Options

  datatype Reading = Reading(space: Text, value: Value, rest: Text, nodes: nat)

  datatype LeafReading = LeafReading(value: Value, rest: Text)

  datatype NameReading = NameReading(name: Name, keys: set<Text>, rest: Text)

  datatype CoreReading = CoreReading(value: Value, rest: Text, nodes: nat)

  datatype ItemReading = ItemReading(lead: Text, name: Name, value: Value, rest: Text, keys: set<Text>, nodes: nat)

  datatype MembersReading = MembersReading(members: Members, rest: Text, nodes: nat)

  // ----- the scanner as functions -------------------------------------------------------------

  /** The first test of `value`: the depth and the number of values met so far, this one included. */
  predicate Permits(mode: Mode, depth: nat, nodes: nat) {
    mode.Bounded? ==> depth <= MAX_DEPTH && nodes <= mode.nodes
  }

  predicate PermitsKey(mode: Mode, keys: set<Text>, key: Text) {
    mode.Bounded? ==> key !in keys && !IsForbiddenKey(key)
  }

  function ReadWord(t: Text): Option<Word> {
    if Spelling(True) <= t then Some(True)
    else if Spelling(False) <= t then Some(False)
    else if Spelling(Null) <= t then Some(Null)
    else None
  }

  /** A string, or a match of the sticky expression: true, false, null or a number. */
  function ReadLeaf(t: Text): (r: Option<LeafReading>)
    requires t != []
    ensures r.Some? ==> |r.value.rest| < |t|
  {
    if t[0] == QUOTE then
      match ReadString(t)
      case None => None
      case Some(s) => Some(LeafReading(String(s.pieces), s.rest))
    else
      match ReadWord(t)
      case Some(w) => Some(LeafReading(Constant(w), t[|Spelling(w)|..]))
      case None =>
        match ReadNumber(t)
        case None => None
        case Some(n) => Some(LeafReading(Number(n.numeral), n.rest))
  }

  /** The key of an object member up to its colon; arrays have none. */
  function ReadName(mode: Mode, braces: bool, t: Text, keys: set<Text>): (r: Option<NameReading>)
    ensures r.Some? ==> |r.value.rest| <= |t|
  {
    if !braces then Some(NameReading(Unnamed, keys, t))
    else if t == [] || t[0] != QUOTE then None
    else
      match ReadString(t)
      case None => None
      case Some(s) =>
        ReadStringSound(t);
        var key := Decode(s.pieces);
        var colon := SkipSpace(s.rest);
        if !PermitsKey(mode, keys, key) || colon == [] || colon[0] != COLON then None
        else Some(NameReading(Named(s.pieces, TakeSpace(s.rest), []), keys + {key}, colon[1..]))
  }

  function WithSpace(n: Name, before: Text): Name {
    match n
    case Unnamed => Unnamed
    case Named(key, gap, _) => Named(key, gap, before)
  }

  function ReadValue(mode: Mode, t: Text, depth: nat, nodes: nat): (r: Option<Reading>)
    ensures r.Some? ==> |r.value.rest| < |t|
    decreases |t|, 1
  {
    var u := SkipSpace(t);
    if !Permits(mode, depth, nodes + 1) || u == [] then None
    else
      match ReadCore(mode, u, depth, nodes + 1)
      case None => None
      case Some(c) => Some(Reading(TakeSpace(t), c.value, c.rest, c.nodes))
  }

  /** A value at its first character; it is counted already. */
  function ReadCore(mode: Mode, u: Text, depth: nat, nodes: nat): (r: Option<CoreReading>)
    requires u != []
    ensures r.Some? ==> |r.value.rest| < |u|
    decreases |u|, 0
  {
    if u[0] == Open(true) || u[0] == Open(false) then
      var braces := u[0] == Open(true);
      var inner := SkipSpace(u[1..]);
      if inner != [] && inner[0] == Close(braces) then
        Some(CoreReading(Empty(braces, TakeSpace(u[1..])), inner[1..], nodes))
      else
        match ReadMembers(mode, braces, u[1..], {}, depth, nodes)
        case None => None
        case Some(g) => Some(CoreReading(Group(braces, g.members), g.rest, g.nodes))
    else
      match ReadLeaf(u)
      case None => None
      case Some(l) => Some(CoreReading(l.value, l.rest, nodes))
  }

  /** One member up to the end of its value. */
  function ReadItem(mode: Mode, braces: bool, t: Text, keys: set<Text>, depth: nat, nodes: nat): (r: Option<ItemReading>)
    ensures r.Some? ==> |r.value.rest| < |t|
    decreases |t|, 2
  {
    match ReadName(mode, braces, SkipSpace(t), keys)
    case None => None
    case Some(n) =>
      match ReadValue(mode, n.rest, depth + 1, nodes)
      case None => None
      case Some(v) => Some(ItemReading(TakeSpace(t), WithSpace(n.name, v.space), v.value, v.rest, n.keys, v.nodes))
  }

  /** The members from here to the closing bracket, which is consumed too; `keys` are those already seen. */
  function ReadMembers(mode: Mode, braces: bool, t: Text, keys: set<Text>, depth: nat, nodes: nat)
    : (r: Option<MembersReading>)
    ensures r.Some? ==> |r.value.rest| < |t|
    decreases |t|, 3
  {
    match ReadItem(mode, braces, t, keys, depth, nodes)
    case None => None
    case Some(m) =>
      var after := SkipSpace(m.rest);
      if after == [] then None
      else if after[0] == Close(braces) then
        Some(MembersReading(Last(m.lead, m.name, m.value, TakeSpace(m.rest)), after[1..], m.nodes))
      else if after[0] != COMMA then None
      else
        match ReadMembers(mode, braces, after[1..], m.keys, depth, m.nodes)
        case None => None
        case Some(g) =>
          Some(MembersReading(More(m.lead, m.name, m.value, TakeSpace(m.rest), g.members), g.rest, g.nodes))
  }

  /** A whole text: one value with white space around it and nothing else. */
  function Read(mode: Mode, t: Text): Option<Document> {
    match ReadValue(mode, t, 0, 0)
    case None => None
    case Some(r) => if SkipSpace(r.rest) != [] then None else Some(Document(r.space, r.value, r.rest))
  }

  // ----- soundness: what is read prints back and keeps the bounds ------------------------------

  /** The bounds of the mode, met by a value at this depth when `nodes` values came before it. */
  ghost predicate Fits(mode: Mode, v: Value, depth: nat, nodes: nat)
    requires Wf(v)
  {
    mode.Bounded? ==> depth + Height(v) <= MAX_DEPTH && nodes + Count(v) <= mode.nodes && CleanKeys(v)
  }

  /** The same for the remaining members of a group at this depth. */
  ghost predicate FitsMembers(mode: Mode, braces: bool, ms: Members, keys: set<Text>, depth: nat, nodes: nat)
    requires WfMembers(braces, ms)
  {
    mode.Bounded? ==>
      && depth + 1 + MembersHeight(ms) <= MAX_DEPTH && nodes + MembersCount(ms) <= mode.nodes
      && CleanMembers(braces, ms) && (braces ==> FreshKeys(ms, keys))
  }

  /** The keys met one after the other, none of them seen before or forbidden. */
  ghost predicate FreshKeys(ms: Members, keys: set<Text>)
    requires WfMembers(true, ms)
    decreases ms
  {
    var key := Decode(ms.name.key);
    key !in keys && !IsForbiddenKey(key) && (ms.More? ==> FreshKeys(ms.rest, keys + {key}))
  }

  lemma DistinctCons<T>(head: T, tail: seq<T>)
    ensures Distinct([head] + tail) <==> head !in tail && Distinct(tail)
  {
    var all := [head] + tail;
    assert all[0] == head && all[1..] == tail;
    if Distinct(all) {
      forall i, j | 0 <= i < j < |tail| ensures tail[i] != tail[j] {
        assert all[i + 1] == tail[i] && all[j + 1] == tail[j];
      }
      forall i | 0 <= i < |tail| ensures tail[i] != head {
        assert all[i + 1] == tail[i];
      }
    }
  }

  /** The scanner's running key set decides distinctness. */
  lemma {:induction false} FreshKeysMeaning(ms: Members, keys: set<Text>)
    requires WfMembers(true, ms)
    ensures FreshKeys(ms, keys) <==>
            Distinct(Keys(ms)) && forall k | k in Keys(ms) :: k !in keys && !IsForbiddenKey(k)
    decreases ms
  {
    var key := Decode(ms.name.key);
    if ms.More? {
      var others := Keys(ms.rest);
      FreshKeysMeaning(ms.rest, keys + {key});
      DistinctCons(key, others);
      assert forall k :: k in Keys(ms) <==> k == key || k in others;
    }
  }

  lemma ReadLeafSound(t: Text)
    requires t != [] && ReadLeaf(t).Some?
    ensures var l := ReadLeaf(t).value;
      Wf(l.value) && Height(l.value) == 0 && Count(l.value) == 1 && CleanKeys(l.value) && t == Print(l.value) + l.rest
  {
    if t[0] == QUOTE {
      ReadStringSound(t);
    } else if ReadWord(t).Some? {
      Uncut(Spelling(ReadWord(t).value), t);
    } else {
      ReadNumberSound(t);
    }
  }

  lemma ReadNameSound(mode: Mode, braces: bool, t: Text, keys: set<Text>, before: Text)
    requires ReadName(mode, braces, t, keys).Some? && AllSpace(before) && (!braces ==> before == [])
    ensures var n := ReadName(mode, braces, t, keys).value;
      && WfName(braces, WithSpace(n.name, before))
      && (forall tail | n.rest == before + tail :: t == PrintName(WithSpace(n.name, before)) + tail)
      && n.keys == keys + (if braces then {Decode(n.name.key)} else {})
      && (mode.Bounded? && braces ==> Decode(n.name.key) !in keys && !IsForbiddenKey(Decode(n.name.key)))
  {
    hide ReadString, SkipSpace, PrintString, IsForbiddenKey, AllSpace;
    var n := ReadName(mode, braces, t, keys).value;
    if braces {
      ReadStringSound(t);
      var s := ReadString(t).value;
      SkipSpaceSplits(s.rest);
      var gap := TakeSpace(s.rest);
      forall tail | n.rest == before + tail ensures t == PrintName(WithSpace(n.name, before)) + tail {
        assert SkipSpace(s.rest) == [COLON] + n.rest;
        Assoc4(PrintString(s.pieces), gap, [COLON], before, tail);
      }
    } else {
      forall tail | n.rest == before + tail ensures t == PrintName(WithSpace(n.name, before)) + tail {
        assert before + tail == tail;
        assert [] + tail == tail;
      }
    }
  }

  /** What is read, and the part of the text it took. */
  ghost predicate ReadsAs(t: Text, r: Reading) {
    AllSpace(r.space) && Wf(r.value) && t == r.space + (Print(r.value) + r.rest) && (Flush(t) ==> r.space == [])
  }

  ghost predicate ReadsMembersAs(braces: bool, t: Text, g: MembersReading) {
    WfMembers(braces, g.members) && t == PrintMembers(g.members) + ([Close(braces)] + g.rest)
  }

  ghost predicate ReadsItemAs(braces: bool, t: Text, m: ItemReading) {
    && AllSpace(m.lead) && WfName(braces, m.name) && Wf(m.value)
    && t == m.lead + (PrintName(m.name) + (Print(m.value) + m.rest))
  }

  lemma {:induction false} ReadValueSound(mode: Mode, t: Text, depth: nat, nodes: nat)
    requires ReadValue(mode, t, depth, nodes).Some?
    ensures ReadsAs(t, ReadValue(mode, t, depth, nodes).value)
    decreases |t|, 1
  {
    SkipSpaceSplits(t);
    ReadCoreSound(mode, SkipSpace(t), depth, nodes + 1);
  }

  lemma {:induction false} ReadCoreSound(mode: Mode, u: Text, depth: nat, nodes: nat)
    requires u != [] && ReadCore(mode, u, depth, nodes).Some?
    ensures var c := ReadCore(mode, u, depth, nodes).value; Wf(c.value) && u == Print(c.value) + c.rest
    decreases |u|, 0
  {
    if u[0] == Open(true) || u[0] == Open(false) {
      var braces := u[0] == Open(true);
      var inner := SkipSpace(u[1..]);
      SkipSpaceSplits(u[1..]);
      if inner != [] && inner[0] == Close(braces) {
        EmptySplits(u, braces, TakeSpace(u[1..]), inner);
      } else {
        ReadMembersSound(mode, braces, u[1..], {}, depth, nodes);
        var g := ReadMembers(mode, braces, u[1..], {}, depth, nodes).value;
        GroupSplits(u, braces, g.members, g.rest);
      }
    } else {
      ReadLeafSound(u);
    }
  }

  lemma EmptySplits(u: Text, braces: bool, space: Text, inner: Text)
    requires u != [] && u[0] == Open(braces) && u[1..] == space + inner
    requires inner != [] && inner[0] == Close(braces)
    ensures u == Print(Empty(braces, space)) + inner[1..]
  {
  }

  lemma GroupSplits(u: Text, braces: bool, ms: Members, rest: Text)
    requires u != [] && u[0] == Open(braces) && u[1..] == PrintMembers(ms) + ([Close(braces)] + rest)
    ensures u == Print(Group(braces, ms)) + rest
  {
    Assoc(PrintMembers(ms), [Close(braces)], rest);
    Assoc([Open(braces)], PrintMembers(ms) + [Close(braces)], rest);
  }

  lemma {:induction false} ReadItemSound(mode: Mode, braces: bool, t: Text, keys: set<Text>, depth: nat, nodes: nat)
    requires ReadItem(mode, braces, t, keys, depth, nodes).Some?
    ensures ReadsItemAs(braces, t, ReadItem(mode, braces, t, keys, depth, nodes).value)
    decreases |t|, 2
  {
    hide ReadValue, ReadString, SkipSpace, Print, PrintName, Wf;
    var u := SkipSpace(t);
    SkipSpaceSplits(t);
    var n := ReadName(mode, braces, u, keys).value;
    ReadValueSound(mode, n.rest, depth + 1, nodes);
    var v := ReadValue(mode, n.rest, depth + 1, nodes).value;
    ReadNameSound(mode, braces, u, keys, v.space);
  }

  lemma {:induction false} ReadMembersSound(mode: Mode, braces: bool, t: Text, keys: set<Text>, depth: nat, nodes: nat)
    requires ReadMembers(mode, braces, t, keys, depth, nodes).Some?
    ensures ReadsMembersAs(braces, t, ReadMembers(mode, braces, t, keys, depth, nodes).value)
    decreases |t|, 3
  {
    hide ReadItem, SkipSpace, Print, PrintName, AllSpace, Wf;
    ReadItemSound(mode, braces, t, keys, depth, nodes);
    var g := ReadMembers(mode, braces, t, keys, depth, nodes).value;
    var m := ReadItem(mode, braces, t, keys, depth, nodes).value;
    SkipSpaceSplits(m.rest);
    var after := SkipSpace(m.rest);
    Uncut([after[0]], after);
    if after[0] == Close(braces) {
      LastSplits(g.members, after);
    } else {
      ReadMembersSound(mode, braces, after[1..], m.keys, depth, m.nodes);
      MoreSplits(g.members, [Close(braces)] + g.rest);
    }
  }

  // ----- soundness: the bounds ----------------------------------------------------------------

  lemma {:induction false} ReadValueBounds(mode: Mode, t: Text, depth: nat, nodes: nat)
    requires ReadValue(mode, t, depth, nodes).Some?
    ensures var r := ReadValue(mode, t, depth, nodes).value;
      Wf(r.value) && r.nodes == nodes + Count(r.value) && Fits(mode, r.value, depth, nodes)
    decreases |t|, 1
  {
    hide SkipSpace, ReadMembers, ReadLeaf, Print;
    var u := SkipSpace(t);
    ReadCoreSound(mode, u, depth, nodes + 1);
    if u[0] == Open(true) || u[0] == Open(false) {
      var braces := u[0] == Open(true);
      var inner := SkipSpace(u[1..]);
      if inner == [] || inner[0] != Close(braces) {
        ReadMembersBounds(mode, braces, u[1..], {}, depth, nodes + 1);
        var g := ReadMembers(mode, braces, u[1..], {}, depth, nodes + 1).value;
        if mode.Bounded? && braces { FreshKeysMeaning(g.members, {}); }
      }
    } else {
      ReadLeafSound(u);
    }
  }

  lemma {:induction false} ReadMembersBounds(mode: Mode, braces: bool, t: Text, keys: set<Text>, depth: nat, nodes: nat)
    requires ReadMembers(mode, braces, t, keys, depth, nodes).Some?
    ensures var g := ReadMembers(mode, braces, t, keys, depth, nodes).value;
      && WfMembers(braces, g.members) && g.nodes == nodes + MembersCount(g.members)
      && FitsMembers(mode, braces, g.members, keys, depth, nodes)
    decreases |t|, 2
  {
    hide SkipSpace, ReadValue, ReadName, Print, PrintName;
    ReadMembersSound(mode, braces, t, keys, depth, nodes);
    var n := ReadName(mode, braces, SkipSpace(t), keys).value;
    ReadNameSound(mode, braces, SkipSpace(t), keys, []);
    ReadValueBounds(mode, n.rest, depth + 1, nodes);
    var v := ReadValue(mode, n.rest, depth + 1, nodes).value;
    var after := SkipSpace(v.rest);
    if after[0] != Close(braces) {
      ReadMembersBounds(mode, braces, after[1..], n.keys, depth, v.nodes);
    }
  }

  lemma LastSplits(ms: Members, tail: Text)
    requires ms.Last?
    ensures PrintMembers(ms) + tail ==
            ms.lead + (PrintName(ms.name) + (Print(ms.value) + (ms.after + tail)))
  {
  }

  lemma MoreSplits(ms: Members, tail: Text)
    requires ms.More?
    ensures PrintMembers(ms) + tail ==
            ms.lead + (PrintName(ms.name) + (Print(ms.value) + (ms.after + ([COMMA] + (PrintMembers(ms.rest) + tail)))))
  {
    var inner := [COMMA] + PrintMembers(ms.rest);
    Assoc4(ms.lead, PrintName(ms.name), Print(ms.value), ms.after + inner, tail);
    Assoc(ms.after, inner, tail);
    Assoc([COMMA], PrintMembers(ms.rest), tail);
  }
}
