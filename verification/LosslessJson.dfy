/**
 losslessRegistrarJson: the scanner that checks a registrar response and quotes its numbers, and
 what a caller gets back.
 */
module LosslessJson {
  import opened CodeUnits
  import opened JsonGrammar
  import opened JsonReader
  import opened JsonScan
  import opened JsonComplete
  import opened JsonMeaning
  import opened JsonStringify
  import opened JsonText
  import opened LosslessRewrite
  import opened Options

  function Join(segments: seq<Text>): Text {
    if segments == [] then [] else Join(segments[..|segments| - 1]) + segments[|segments| - 1]
  }

  lemma JoinPush(segments: seq<Text>, a: Text, b: Text)
    ensures Join(segments + [a, b]) == Join(segments) + a + b
  {
    var all := segments + [a, b];
    assert all[..|all| - 1] == segments + [a];
    assert (segments + [a])[..|segments|] == segments;
  }

  /** The closures of the source share these variables; a thrown error is a method that returns false. */
  class Scanner {
    const body: Text
    const limit: nat
    var position: nat
    var nodes: nat
    var copiedThrough: nat
    var segments: seq<Text>

    ghost predicate Valid()
      reads this
    {
      copiedThrough <= position <= |body|
    }

    /** What is still to be read. */
    ghost function Remaining(): Text
      requires Valid()
      reads this
    {
      body[position..]
    }

    /** What the segments would come to if the scan stopped here. */
    ghost function Written(): Text
      requires Valid()
      reads this
    {
      Join(segments) + body[copiedThrough..position]
    }

    constructor (body: Text, limit: nat)
      ensures Valid() && Remaining() == body && Written() == [] && nodes == 0
      ensures this.body == body && this.limit == limit
    {
      this.body := body;
      this.limit := limit;
      position, nodes, copiedThrough, segments := 0, 0, 0, [];
    }

    /** Moving the cursor over `taken` copies it. */
    lemma Passes(from: nat, to: nat, taken: Text, rest: Text)
      requires copiedThrough <= from <= |body| && body[from..] == taken + rest && to == |body| - |rest|
      ensures from <= to <= |body| && body[to..] == rest && body[from..to] == taken
      ensures Join(segments) + body[copiedThrough..to] == Join(segments) + body[copiedThrough..from] + taken
    {
      Cut(taken, rest);
      assert body[from..][..|taken|] == body[from..to];
      assert body[from..][|taken|..] == body[to..];
      assert body[copiedThrough..to] == body[copiedThrough..from] + body[from..to];
    }

    method Whitespace()
      requires Valid()
      modifies this`position
      ensures Valid() && position >= old(position)
      ensures Remaining() == SkipSpace(old(Remaining()))
      ensures Written() == old(Written()) + TakeSpace(old(Remaining()))
    {
      ghost var t := Remaining();
      while position < |body| && IsSpace(body[position])
        invariant old(position) <= position <= |body|
        invariant SkipSpace(body[position..]) == SkipSpace(t)
      {
        assert body[position..][1..] == body[position + 1..];
        position := position + 1;
      }
      SkipSpaceSplits(t);
      Passes(old(position), position, TakeSpace(t), SkipSpace(t));
    }

    /** The loop of `string`: the index just after the closing quote. */
    method FindQuote(start: nat) returns (found: bool)
      requires start < |body| && position == start + 1
      modifies this`position
      ensures found <==> StringEnd(body[start..], 1).Some?
      ensures found ==> position - start == StringEnd(body[start..], 1).value
    {
      ghost var t := body[start..];
      while position < |body|
        invariant start < position
        invariant StringEnd(t, position - start) == StringEnd(t, 1)
      {
        var character := body[position];
        assert t[position - start] == character;
        position := position + 1;
        if character == BACKSLASH {
          position := position + 1;
        } else if character == QUOTE {
          return true;
        }
      }
      return false;
    }

    /** `string`: from an opening quote to the end of its literal, which JSON.parse must accept. */
    method ReadQuoted() returns (key: Option<Text>)
      requires Valid() && position < |body| && body[position] == QUOTE
      modifies this`position
      ensures key.Some? <==> ReadString(old(Remaining())).Some?
      ensures key.Some? ==>
                var s := ReadString(old(Remaining())).value;
                && Valid() && position > old(position)
                && WfPieces(s.pieces) && key.value == Decode(s.pieces)
                && Remaining() == s.rest && Written() == old(Written()) + PrintString(s.pieces)
    {
      hide StringEnd, ReadPieces, PrintString;
      ghost var t := Remaining();
      var start := position;
      position := position + 1;
      var found := FindQuote(start);
      if !found { return None; }
      var inside := ReadPieces(body[start + 1..position - 1]);
      assert t[1..position - start - 1] == body[start + 1..position - 1];
      if inside.None? { return None; }
      assert t[position - start..] == body[position..];
      ReadStringSound(t);
      Passes(start, position, PrintString(inside.value), body[position..]);
      return Some(Decode(inside.value));
    }

    /** The sticky match succeeded on a word: the cursor moves on. */
    method PassWord(w: Word)
      requires Valid() && Spelling(w) <= Remaining()
      modifies this`position
      ensures Valid() && position > old(position)
      ensures Remaining() == old(Remaining())[|Spelling(w)|..] && Written() == old(Written()) + Spelling(w)
    {
      ghost var t := Remaining();
      Uncut(Spelling(w), t);
      Passes(position, position + |Spelling(w)|, Spelling(w), t[|Spelling(w)|..]);
      position := position + |Spelling(w)|;
    }

    /** The sticky match captured a number: what precedes it is copied, and the token quoted. */
    method PassNumber(lastIndex: nat, ghost n: Numeral, ghost rest: Text)
      requires Valid() && WfNumeral(n) && Remaining() == PrintNumeral(n) + rest && lastIndex == |body| - |rest|
      modifies this`position, this`segments, this`copiedThrough
      ensures Valid() && position == lastIndex
      ensures Remaining() == rest && Written() == old(Written()) + Print(Quote(Number(n)))
    {
      Passes(position, lastIndex, PrintNumeral(n), rest);
      var token := body[position..lastIndex];
      QuotedNumeral(n);
      JoinPush(segments, body[copiedThrough..position], Stringify(token));
      segments := segments + [body[copiedThrough..position], Stringify(token)];
      copiedThrough := lastIndex;
      position := lastIndex;
    }

    /** The primitive branch of `value`. */
    method Primitive() returns (ok: bool)
      requires Valid() && position < |body| && body[position] != QUOTE
      modifies this`position, this`segments, this`copiedThrough
      ensures ok <==> ReadLeaf(old(Remaining())).Some?
      ensures ok ==>
                var l := ReadLeaf(old(Remaining())).value;
                && Valid() && position > old(position)
                && Remaining() == l.rest && Written() == old(Written()) + Print(Quote(l.value))
    {
      hide ReadNumber, PrintNumeral;
      var word := ReadWord(body[position..]);
      if word.Some? {
        PassWord(word.value);
        return true;
      }
      var matched := ReadNumber(body[position..]);
      if matched.None? { return false; }
      ReadNumberSound(body[position..]);
      PassNumber(|body| - |matched.value.rest|, matched.value.numeral, matched.value.rest);
      return true;
    }

    /** `value`: one value, with the white space before it. */
    method Value(depth: nat) returns (ok: bool)
      requires Valid()
      modifies this
      ensures ok <==> ReadValue(Bounded(limit), old(Remaining()), depth, old(nodes)).Some?
      ensures ok ==>
                var r := ReadValue(Bounded(limit), old(Remaining()), depth, old(nodes)).value;
                && Valid() && position > old(position) && nodes == r.nodes
                && Remaining() == r.rest && Written() == old(Written()) + (r.space + Print(Quote(r.value)))
      decreases |body| - position, 2
    {
      hide ReadCore, SkipSpace;
      if depth > MAX_DEPTH { return false; }
      nodes := nodes + 1;
      if nodes > limit { return false; }
      ghost var out, t := Written(), Remaining();
      Whitespace();
      if position == |body| { return false; }
      ok := Core(depth);
      if ok {
        Assoc(out, TakeSpace(t), Print(Quote(ReadCore(Bounded(limit), SkipSpace(t), depth, old(nodes) + 1).value.value)));
      }
    }

    /** `value` after the white space: a string, a bracket or a primitive. */
    method Core(depth: nat) returns (ok: bool)
      requires Valid() && position < |body|
      modifies this
      ensures ok <==> ReadCore(Bounded(limit), old(Remaining()), depth, old(nodes)).Some?
      ensures ok ==>
                var c := ReadCore(Bounded(limit), old(Remaining()), depth, old(nodes)).value;
                && Valid() && position > old(position) && nodes == c.nodes
                && Remaining() == c.rest && Written() == old(Written()) + Print(Quote(c.value))
      decreases |body| - position, 1
    {
      hide ReadString, ReadMembers, PrintMembers, PrintString;
      if body[position] == QUOTE {
        var key := ReadQuoted();
        return key.Some?;
      }
      if body[position] == Open(true) || body[position] == Open(false) {
        ok := Brackets(depth);
        return ok;
      }
      ok := Primitive();
    }

    /** Taking one unit. */
    method Take()
      requires Valid() && position < |body|
      modifies this`position
      ensures Valid() && position == old(position) + 1
      ensures Remaining() == old(Remaining())[1..] && Written() == old(Written()) + [old(Remaining())[0]]
    {
      ghost var t := Remaining();
      Uncut([t[0]], t);
      Passes(position, position + 1, [t[0]], t[1..]);
      position := position + 1;
    }

    /** A member's key and colon, in an object; nothing in an array. */
    method Label(braces: bool, keys: set<Text>) returns (ok: bool, seen: set<Text>)
      requires Valid()
      modifies this`position
      ensures ok <==> ReadName(Bounded(limit), braces, old(Remaining()), keys).Some?
      ensures ok ==>
                var n := ReadName(Bounded(limit), braces, old(Remaining()), keys).value;
                && Valid() && position >= old(position) && seen == n.keys
                && Remaining() == n.rest && Written() == old(Written()) + PrintName(n.name)
    {
      hide ReadString, SkipSpace;
      seen := keys;
      if !braces { return true, seen; }
      if position == |body| || body[position] != QUOTE { return false, seen; }
      ghost var out, t := Written(), Remaining();
      var key := ReadQuoted();
      if key.Some? { ReadStringSound(t); }
      ghost var literal := if key.Some? then PrintString(ReadString(t).value.pieces) else [];
      if key.None? || key.value in keys || IsForbiddenKey(key.value) { return false, seen; }
      seen := keys + {key.value};
      ghost var gap := TakeSpace(Remaining());
      Whitespace();
      if position == |body| || body[position] != COLON { return false, seen; }
      Take();
      assert Written() == out + literal + gap + [COLON];
      NameJoins(out, literal, gap);
      return true, seen;
    }

    /** One member of the loop in `value`, its white space already passed. */
    method Member(braces: bool, keys: set<Text>, depth: nat, ghost t: Text, ghost before: Text)
      returns (ok: bool, seen: set<Text>)
      requires Valid() && Remaining() == SkipSpace(t) && Written() == before + TakeSpace(t)
      modifies this
      ensures ok <==> ReadItem(Bounded(limit), braces, t, keys, depth, old(nodes)).Some?
      ensures ok ==>
                var m := ReadItem(Bounded(limit), braces, t, keys, depth, old(nodes)).value;
                && Valid() && position > old(position) && nodes == m.nodes && seen == m.keys
                && Remaining() == m.rest
                && Written() == before + m.lead + PrintName(m.name) + Print(Quote(m.value))
      decreases |body| - position, 3
    {
      hide ReadName, ReadValue, ReadItem, SkipSpace, PrintName, Print, Quote;
      ItemUnfolds(Bounded(limit), braces, t, keys, depth, nodes);
      ok, seen := Label(braces, keys);
      if !ok { return; }
      ghost var n := ReadName(Bounded(limit), braces, SkipSpace(t), keys).value;
      ghost var v := ReadValue(Bounded(limit), n.rest, depth + 1, nodes);
      ok := Value(depth + 1);
      if ok {
        ItemJoins(Bounded(limit), braces, t, keys, depth, old(nodes), before + TakeSpace(t));
      }
    }

    /** The bracket branch of `value`. */
    method Brackets(depth: nat) returns (ok: bool)
      requires Valid() && position < |body| && (body[position] == Open(true) || body[position] == Open(false))
      modifies this
      ensures ok <==> ReadCore(Bounded(limit), old(Remaining()), depth, old(nodes)).Some?
      ensures ok ==>
                var c := ReadCore(Bounded(limit), old(Remaining()), depth, old(nodes)).value;
                && Valid() && position > old(position) && nodes == c.nodes
                && Remaining() == c.rest && Written() == old(Written()) + Print(Quote(c.value))
      decreases |body| - position, 0
    {
      hide SkipSpace, ReadMembers, PrintMembers, QuoteMembers;
      var braces := body[position] == Open(true);
      ghost var base := Written();
      Take();
      ghost var inside := Remaining();
      Whitespace();
      if position < |body| && body[position] == Close(braces) {
        Take();
        assert Written() == base + [Open(braces)] + TakeSpace(inside) + [Close(braces)];
        EmptyJoins(base, braces, TakeSpace(inside));
        return true;
      }
      ok := Loop(braces, depth, inside, base + [Open(braces)]);
      if ok {
        GroupJoins(base, braces, PrintMembers(QuoteMembers(
          ReadMembers(Bounded(limit), braces, inside, {}, depth, old(nodes)).value.members)));
      }
    }

    /** The `for(;;)` of the bracket branch; t is the text after the opening bracket. */
    method Loop(braces: bool, depth: nat, ghost t: Text, ghost base: Text) returns (ok: bool)
      requires Valid() && Remaining() == SkipSpace(t) && Written() == base + TakeSpace(t)
      modifies this
      ensures var all := ReadMembers(Bounded(limit), braces, t, {}, depth, old(nodes));
        && (ok <==> all.Some?)
        && (ok ==> && Valid() && position > old(position) && nodes == all.value.nodes && Remaining() == all.value.rest
                   && Written() == base + (PrintMembers(QuoteMembers(all.value.members)) + [Close(braces)]))
      decreases |body| - position, 4
    {
      hide SkipSpace, ReadItem, ReadMembers, Continues, PrintName, Print, PrintMembers, QuoteMembers, Quote;
      ghost var all := ReadMembers(Bounded(limit), braces, t, {}, depth, nodes);
      var keys: set<Text> := {};
      ghost var here, before := t, base;
      SameReading(all, base);
      while true
        invariant Valid() && position >= old(position)
        invariant Remaining() == SkipSpace(here) && Written() == before + TakeSpace(here)
        invariant Continues(all, ReadMembers(Bounded(limit), braces, here, keys, depth, nodes), base, before)
        decreases |body| - position
      {
        ghost var item := ReadItem(Bounded(limit), braces, here, keys, depth, nodes);
        MembersStop(Bounded(limit), braces, here, keys, depth, nodes, all, base, before);
        MembersStep(Bounded(limit), braces, here, keys, depth, nodes, all, base, before);
        var seen;
        ok, seen := Member(braces, keys, depth, here, before);
        if !ok { return false; }
        keys := seen;
        Whitespace();
        if position == |body| { return false; }
        var separator := body[position];
        Take();
        if separator == Close(braces) { return true; }
        if separator != COMMA { return false; }
        here, before := Remaining(), Written();
        Whitespace();
      }
    }
  }

  /** Both readings fail, or both succeed alike and what was written so far plus the later members is the whole. */
  ghost predicate Continues(all: Option<MembersReading>, now: Option<MembersReading>, base: Text, before: Text) {
    && (all.Some? <==> now.Some?)
    && (all.Some? ==> && all.value.rest == now.value.rest && all.value.nodes == now.value.nodes
                      && base + PrintMembers(QuoteMembers(all.value.members))
                      == before + PrintMembers(QuoteMembers(now.value.members)))
  }

  lemma NameJoins(out: Text, literal: Text, gap: Text)
    ensures out + literal + gap + [COLON] == out + (literal + (gap + ([COLON] + [])))
  {
  }

  /** A value's leading space belongs to the name before it; an array item has none left. */
  lemma NameTakesSpace(mode: Mode, braces: bool, u: Text, keys: set<Text>, space: Text)
    requires ReadName(mode, braces, u, keys).Some? && (!braces ==> space == [])
    ensures var n := ReadName(mode, braces, u, keys).value.name; PrintName(n) + space == PrintName(WithSpace(n, space))
  {
  }

  lemma ItemUnfolds(mode: Mode, braces: bool, t: Text, keys: set<Text>, depth: nat, nodes: nat)
    ensures var n := ReadName(mode, braces, SkipSpace(t), keys);
      ReadItem(mode, braces, t, keys, depth, nodes).Some?
      <==> n.Some? && ReadValue(mode, n.value.rest, depth + 1, nodes).Some?
  {
  }

  lemma ItemJoins(mode: Mode, braces: bool, t: Text, keys: set<Text>, depth: nat, nodes: nat, before: Text)
    requires ReadItem(mode, braces, t, keys, depth, nodes).Some?
    ensures var n := ReadName(mode, braces, SkipSpace(t), keys).value;
            var v := ReadValue(mode, n.rest, depth + 1, nodes).value;
            var m := ReadItem(mode, braces, t, keys, depth, nodes).value;
      && m.lead == TakeSpace(t) && m.value == v.value && m.rest == v.rest && m.keys == n.keys && m.nodes == v.nodes
      && before + PrintName(n.name) + (v.space + Print(Quote(v.value))) == before + PrintName(m.name) + Print(Quote(m.value))
  {
    var n := ReadName(mode, braces, SkipSpace(t), keys).value;
    var v := ReadValue(mode, n.rest, depth + 1, nodes).value;
    SkipSpaceSplits(t);
    ReadValueSound(mode, n.rest, depth + 1, nodes);
    NameTakesSpace(mode, braces, SkipSpace(t), keys, v.space);
    Assoc(PrintName(n.name), v.space, Print(Quote(v.value)));
    Assoc(before, PrintName(n.name), v.space + Print(Quote(v.value)));
    Assoc(before, PrintName(n.name) + v.space, Print(Quote(v.value)));
  }

  lemma EmptyJoins(base: Text, braces: bool, space: Text)
    ensures base + [Open(braces)] + space + [Close(braces)] == base + Print(Quote(Empty(braces, space)))
  {
  }

  lemma GroupJoins(base: Text, braces: bool, members: Text)
    ensures base + [Open(braces)] + (members + [Close(braces)]) == base + ([Open(braces)] + (members + [Close(braces)]))
  {
  }

  lemma SameReading(all: Option<MembersReading>, base: Text)
    ensures Continues(all, all, base, base)
  {
  }

  /** The readings of the members that end the loop: a failed one, and the last. */
  lemma MembersStop(mode: Mode, braces: bool, here: Text, keys: set<Text>, depth: nat, nodes: nat,
                    all: Option<MembersReading>, base: Text, before: Text)
    requires Continues(all, ReadMembers(mode, braces, here, keys, depth, nodes), base, before)
    ensures var item := ReadItem(mode, braces, here, keys, depth, nodes);
      && (item.None? ==> all.None?)
      && (item.Some? ==>
            var m, after := item.value, SkipSpace(item.value.rest);
            && (after == [] || (after[0] != Close(braces) && after[0] != COMMA) ==> all.None?)
            && (after != [] && after[0] == Close(braces) ==>
                  && all.Some? && all.value.rest == after[1..] && all.value.nodes == m.nodes
                  && base + (PrintMembers(QuoteMembers(all.value.members)) + [Close(braces)])
                     == before + m.lead + PrintName(m.name) + Print(Quote(m.value)) + TakeSpace(m.rest) + [Close(braces)]))
  {
    hide SkipSpace, ReadItem, PrintName, Print, PrintMembers, QuoteMembers, Quote;
    var now := ReadMembers(mode, braces, here, keys, depth, nodes);
    if now.Some? {
      if now.value.members.Last? { LastJoins(before, now.value.members); }
      Assoc(base, PrintMembers(QuoteMembers(all.value.members)), [Close(braces)]);
    }
  }

  /** Past a comma the same reading goes on. */
  lemma MembersStep(mode: Mode, braces: bool, here: Text, keys: set<Text>, depth: nat, nodes: nat,
                    all: Option<MembersReading>, base: Text, before: Text)
    requires Continues(all, ReadMembers(mode, braces, here, keys, depth, nodes), base, before)
    ensures var item := ReadItem(mode, braces, here, keys, depth, nodes);
      item.Some? ==>
        var m, after := item.value, SkipSpace(item.value.rest);
        after != [] && after[0] == COMMA ==>
          Continues(all, ReadMembers(mode, braces, after[1..], m.keys, depth, m.nodes), base,
                    before + m.lead + PrintName(m.name) + Print(Quote(m.value)) + TakeSpace(m.rest) + [COMMA])
  {
    hide SkipSpace, ReadItem, PrintName, Print, PrintMembers, QuoteMembers, Quote;
    var now := ReadMembers(mode, braces, here, keys, depth, nodes);
    if now.Some? && now.value.members.More? { MoreJoins(before, now.value.members); }
  }

  lemma LastJoins(before: Text, ms: Members)
    requires ms.Last?
    ensures before + PrintMembers(QuoteMembers(ms))
         == before + ms.lead + PrintName(ms.name) + Print(Quote(ms.value)) + ms.after
  {
  }

  lemma MoreJoins(before: Text, ms: Members)
    requires ms.More?
    ensures before + PrintMembers(QuoteMembers(ms))
         == before + ms.lead + PrintName(ms.name) + Print(Quote(ms.value)) + ms.after + [COMMA]
            + PrintMembers(QuoteMembers(ms.rest))
  {
    var q, others := Print(Quote(ms.value)), PrintMembers(QuoteMembers(ms.rest));
    Assoc(before, ms.lead, PrintName(ms.name) + (q + (ms.after + ([COMMA] + others))));
    Assoc(before + ms.lead, PrintName(ms.name), q + (ms.after + ([COMMA] + others)));
    Assoc(before + ms.lead + PrintName(ms.name), q, ms.after + ([COMMA] + others));
    Assoc(before + ms.lead + PrintName(ms.name) + q, ms.after, [COMMA] + others);
    Assoc(before + ms.lead + PrintName(ms.name) + q + ms.after, [COMMA], others);
  }

  // ----- the whole function -------------------------------------------------------------------

  datatype Limits = Limits(bytes: nat, nodes: nat)

  datatype Outcome = TooLarge | Invalid | Parsed(tree: Tree)

  /** JSON.parse.  Fields stay listed in source order; a repeated key would be listed twice. */
  function JsonParse(t: Text): Option<Tree> {
    match Read(Standard, t)
    case None => None
    case Some(d) =>
      ReadIsSound(Standard, t);
      Some(Meaning(d.value))
  }

  /** The rewritten text of a document is JSON again, within the same bounds, and means the quoted tree. */
  lemma RewrittenIsJson(d: Document, nodes: nat)
    requires WfDocument(d) && WithinBounds(d, nodes)
    ensures var q := QuoteDocument(d);
      && Spells(q, PrintDocument(q)) && WithinBounds(q, nodes)
      && Meaning(q.value) == QuoteTree(Meaning(d.value))
  {
    QuoteKeepsShape(d.value);
    QuoteMeaning(d.value);
  }

  /** The scan and the joined segments; None when it throws. */
  method Rewrite(body: Text, nodes: nat) returns (joined: Option<Text>)
    ensures joined == match Read(Bounded(nodes), body)
                      case None => None
                      case Some(d) => Some(PrintDocument(QuoteDocument(d)))
  {
    hide ReadValue, SkipSpace, TakeSpace, Print, Quote, Join;
    var scanner := new Scanner(body, nodes);
    var ok := scanner.Value(0);
    if !ok { return None; }
    ghost var r := ReadValue(Bounded(nodes), body, 0, 0).value;
    scanner.Whitespace();
    if scanner.position != |body| { return None; }
    var segments := scanner.segments + [body[scanner.copiedThrough..]];
    JoinLast(scanner.segments, body[scanner.copiedThrough..]);
    assert body[scanner.copiedThrough..] == body[scanner.copiedThrough..scanner.position];
    DocumentJoins(r.space, Print(Quote(r.value)), r.rest);
    return Some(Join(segments));
  }

  lemma DocumentJoins(space: Text, quoted: Text, rest: Text)
    requires SkipSpace(rest) == []
    ensures [] + (space + quoted) + TakeSpace(rest) == space + (quoted + rest)
  {
  }

  /** The bounds on a document are the bounds on the value its text denotes. */
  lemma AcceptedValues(body: Text, nodes: nat)
    ensures (exists d :: Spells(d, body) && WithinBounds(d, nodes)) <==> exists v :: Denotes(body, v) && Admissible(v, nodes)
    ensures forall d, v | Spells(d, body) && Denotes(body, v) :: v == Meaning(d.value)
  {
    hide Denotes, PrintDocument, Meaning, Height, Count, CleanKeys, Depth, Size, KeysAreFresh;
    forall d | Spells(d, body)
      ensures Denotes(body, Meaning(d.value)) && (WithinBounds(d, nodes) <==> Admissible(Meaning(d.value), nodes))
    {
      GrammarDenotes(body, Meaning(d.value));
      BoundsOf(d.value);
    }
    forall v | Denotes(body, v) ensures exists d :: Spells(d, body) && Meaning(d.value) == v {
      GrammarDenotes(body, v);
    }
    forall d, v | Spells(d, body) && Denotes(body, v) ensures v == Meaning(d.value) {
      DenotesOne(body, v, Meaning(d.value));
    }
  }

  lemma {:induction false} QuotedIsAsText(v: Tree)
    ensures NumbersAsText(v, QuoteTree(v))
  {
    match v {
      case Array(items) => QuotedItemsAsText(items);
      case Object(fields) => QuotedFieldsAsText(fields);
      case _ =>
    }
  }

  lemma {:induction false} QuotedItemsAsText(items: Trees)
    ensures ItemsAsText(items, QuoteItems(items))
  {
    if items.Tree? {
      QuotedIsAsText(items.head);
      QuotedItemsAsText(items.tail);
    }
  }

  lemma {:induction false} QuotedFieldsAsText(fields: Fields)
    ensures FieldsAsText(fields, QuoteFields(fields))
  {
    if fields.Field? {
      QuotedIsAsText(fields.value);
      QuotedFieldsAsText(fields.others);
    }
  }

  method LosslessRegistrarJson(body: Text, limits: Limits) returns (result: Outcome)
    // refused for size alone exactly when the UTF-8 form is too long
    ensures result.TooLarge? <==> Utf8Length(body) > limits.bytes
    // otherwise accepted exactly when it is JSON for a value within the bounds
    ensures result.Parsed? <==>
            Utf8Length(body) <= limits.bytes && exists v :: Denotes(body, v) && Admissible(v, limits.nodes)
    // and then the answer is that value with every number turned into its exact characters
    ensures result.Parsed? ==> forall v :: Denotes(body, v) ==> NumbersAsText(v, result.tree)
    // the same on the concrete syntax
    ensures result.Parsed? <==>
            Utf8Length(body) <= limits.bytes && exists d :: Spells(d, body) && WithinBounds(d, limits.nodes)
    ensures result.Parsed? ==> forall d :: Spells(d, body) ==> result.tree == QuoteTree(Meaning(d.value))
  {
    hide ReadValue, SkipSpace, Print, Quote, Denotes, Admissible, NumbersAsText, Spells, WithinBounds, Meaning;
    if Utf8Length(body) > limits.bytes { return TooLarge; }
    var joined := Rewrite(body, limits.nodes);
    ReadAccepts(Bounded(limits.nodes), body);
    AcceptedValues(body, limits.nodes);
    if joined.None? { return Invalid; }
    var parsed := JsonParse(joined.value);
    result := match parsed case None => Invalid case Some(tree) => Parsed(tree);
    ReadIsSound(Bounded(limits.nodes), body);
    ghost var d := Read(Bounded(limits.nodes), body).value;
    RewrittenIsJson(d, limits.nodes);
    ReadIsComplete(Standard, QuoteDocument(d));
    forall e | Spells(e, body) ensures e == d {
      GrammarIsUnambiguous(d, e, body);
    }
    QuotedIsAsText(Meaning(d.value));
  }

  /** JSON.parse gives the value that a text denotes, and throws when there is none. */
  lemma ParseIsTheValue(t: Text, v: Tree)
    ensures JsonParse(t) == Some(v) <==> Denotes(t, v)
  {
    hide Denotes, Meaning, Read, PrintDocument;
    GrammarDenotes(t, v);
    ReadAccepts(Standard, t);
    if Read(Standard, t).Some? { ReadIsSound(Standard, t); }
    forall d | Spells(d, t) ensures Read(Standard, t) == Some(d) {
      ReadIsComplete(Standard, d);
    }
  }

  lemma JoinLast(segments: seq<Text>, last: Text)
    ensures Join(segments + [last]) == Join(segments) + last
  {
  }

  /** Quoting commutes with JSON.parse: an accepted body parses on its own, to the same tree but for number leaves. */
  lemma LosslessAgreesWithParse(body: Text, d: Document, nodes: nat)
    requires Spells(d, body) && WithinBounds(d, nodes)
    ensures JsonParse(body).Some?
    ensures JsonParse(PrintDocument(QuoteDocument(d))) == Some(QuoteTree(JsonParse(body).value))
  {
    ReadIsComplete(Standard, d);
    RewrittenIsJson(d, nodes);
    ReadIsComplete(Standard, QuoteDocument(d));
  }

  /**
   Rewriting again changes nothing: the rewritten text is read as its own document, which has no
   number left.  Its size grew by two per number, so under the byte limit the second pass is refused
   exactly when those quotes no longer fit.
   */
  lemma RewritingSettles(d: Document, limits: Limits)
    requires WfDocument(d) && WithinBounds(d, limits.nodes)
    ensures var q := QuoteDocument(d);
      && Read(Bounded(limits.nodes), PrintDocument(q)) == Some(q)
      && QuoteDocument(q) == q && Numbers(q.value) == 0
      && (q == d <==> Numbers(d.value) == 0)
      && (Utf8Length(PrintDocument(q)) > limits.bytes
          <==> Utf8Length(PrintDocument(d)) + 2 * Numbers(d.value) > limits.bytes)
  {
    var q := QuoteDocument(d);
    RewrittenIsJson(d, limits.nodes);
    ReadIsComplete(Bounded(limits.nodes), q);
    QuoteSettles(d.value);
    QuoteSettles(q.value);
    QuoteDocumentSize(d);
  }
}
