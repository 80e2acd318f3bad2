/**
 The grammar of JsonGrammar generates exactly the texts that JsonText lets denote a value, each with the
 value its tree means.
 */
module JsonMeaning {
  import opened CodeUnits
  import opened JsonComplete
  import opened JsonGrammar
  import opened JsonReader
  import opened JsonScan
  import opened JsonText
  import opened NumberPatterns
  import opened Options
  import opened Patterns

  // ----- string literals ----------------------------------------------------------------------

  lemma TheLetters()
    ensures LETTERS == [0x22, 0x5C, 0x2F, 'b' as int, 'f' as int, 'n' as int, 'r' as int, 't' as int]
  {
  }

  lemma ShortTable(u: CodeUnit)
    ensures IsShortEscape(u) <==> Position(LETTERS, u).Some?
    ensures IsShortEscape(u) ==> ShortValue(u) == VALUES[Position(LETTERS, u).value]
  {
    hide Position, LETTERS;
    TheLetters();
    if Position(LETTERS, u).Some? {
      var i := Position(LETTERS, u).value;
      assert LETTERS[i] == u;
    } else {
      assert u !in LETTERS;
      assert forall i | 0 <= i < 8 :: LETTERS[i] != u;
      assert LETTERS[0] != u && LETTERS[1] != u && LETTERS[2] != u && LETTERS[3] != u;
      assert LETTERS[4] != u && LETTERS[5] != u && LETTERS[6] != u && LETTERS[7] != u;
    }
  }

  lemma HexTable(u: CodeUnit)
    ensures IsHexDigit(u) <==> HexOf(u).Some?
    ensures IsHexDigit(u) ==> HexValue(u) == HexOf(u).value
  {
    hide Position;
    forall i | 0 <= i < 16 ensures LOWER[i] == if i < 10 then ZERO + i else 'a' as int + (i - 10) {
    }
    forall i | 0 <= i < 16 ensures UPPER[i] == if i < 10 then ZERO + i else 'A' as int + (i - 10) {
    }
    if IsDigit(u) { assert LOWER[u - ZERO] == u; }
    else if 'a' as int <= u <= 'f' as int { assert LOWER[u - 'a' as int + 10] == u; }
    else if 'A' as int <= u <= 'F' as int { assert UPPER[u - 'A' as int + 10] == u; }
  }

  lemma FourHexTable(a: CodeUnit, b: CodeUnit, c: CodeUnit, d: CodeUnit)
    ensures WfPiece(Hex(a, b, c, d)) <==> FourHex([a, b, c, d]).Some?
    ensures WfPiece(Hex(a, b, c, d)) ==> PieceValue(Hex(a, b, c, d)) == FourHex([a, b, c, d]).value
  {
    hide HexOf, HexValue, IsHexDigit;
    HexTable(a);
    HexTable(b);
    HexTable(c);
    HexTable(d);
  }

  /** The pieces of a literal and the decoded text are found or missed together. */
  ghost predicate SameText(pieces: Option<seq<Piece>>, text: Option<Text>) {
    && (pieces.Some? <==> text.Some?)
    && (pieces.Some? ==> WfPieces(pieces.value) && Decode(pieces.value) == text.value)
  }

  function Before(p: Piece, rest: Option<seq<Piece>>): Option<seq<Piece>> {
    match rest case None => None case Some(ps) => Some([p] + ps)
  }

  lemma OneMore(p: Piece, u: CodeUnit, pieces: Option<seq<Piece>>, text: Option<Text>)
    requires WfPiece(p) && PieceValue(p) == u && SameText(pieces, text)
    ensures SameText(Before(p, pieces), After(u, text))
  {
    hide WfPiece, PieceValue;
    if pieces.Some? {
      var ps := [p] + pieces.value;
      assert Decode(ps) == [u] + text.value;
    }
  }

  lemma {:induction false} PiecesAreTheLiteral(t: Text)
    ensures SameText(ReadPieces(t), Literal(t))
  {
    hide SameText, IsShortEscape, ShortValue, Position, FourHex;
    if t == [] {
      assert SameText(Some([]), Some([])) by { NothingRead(); }
    } else if t[0] == BACKSLASH {
      if |t| >= 2 { ShortTable(t[1]); }
      NoU();
      if |t| >= 2 && Position(LETTERS, t[1]).Some? {
        PiecesAreTheLiteral(t[2..]);
        OneMore(Short(t[1]), VALUES[Position(LETTERS, t[1]).value], ReadPieces(t[2..]), Literal(t[2..]));
      } else if |t| >= 6 && t[1] == 'u' as int {
        FourHexTable(t[2], t[3], t[4], t[5]);
        assert t[2..6] == [t[2], t[3], t[4], t[5]];
        if FourHex(t[2..6]).Some? {
          PiecesAreTheLiteral(t[6..]);
          OneMore(Hex(t[2], t[3], t[4], t[5]), FourHex(t[2..6]).value, ReadPieces(t[6..]), Literal(t[6..]));
        } else {
          NothingFound();
        }
      } else {
        NothingFound();
      }
    } else if t[0] < 0x20 || t[0] == QUOTE {
      NothingFound();
    } else {
      PiecesAreTheLiteral(t[1..]);
      OneMore(Plain(t[0]), t[0], ReadPieces(t[1..]), Literal(t[1..]));
    }
  }

  lemma NothingRead()
    ensures SameText(Some([]), Some([]))
  {
  }

  lemma NothingFound()
    ensures SameText(None, None)
  {
  }

  lemma NoU()
    ensures Position(LETTERS, 'u' as int).None?
  {
    ShortTable('u' as int);
  }

  /** A literal's pieces, and the text they spell. */
  lemma PiecesOfLiteral(t: Text, x: Text) returns (pieces: seq<Piece>)
    requires IsLiteral(t, x)
    ensures WfPieces(pieces) && PrintString(pieces) == t && Decode(pieces) == x
  {
    hide Literal, ReadPieces, PrintPieces, WfPieces;
    PiecesAreTheLiteral(Inside(t));
    pieces := ReadPieces(Inside(t)).value;
    assert t == [QUOTE] + Inside(t) + [QUOTE];
  }

  lemma LiteralOfPieces(pieces: seq<Piece>)
    requires WfPieces(pieces)
    ensures IsLiteral(PrintString(pieces), Decode(pieces))
  {
    hide Literal, ReadPieces, PrintPieces, WfPieces;
    PiecesAreTheLiteral(PrintPieces(pieces));
    ReadPiecesOf(pieces);
    assert Inside(PrintString(pieces)) == PrintPieces(pieces);
  }

  lemma WhiteIsSpace(t: Text)
    ensures White(t) <==> AllSpace(t)
  {
  }

  // ----- from the grammar to the texts --------------------------------------------------------

  lemma SpacedDenotes(before: Text, core: Text, after: Text, v: Tree)
    requires AllSpace(before) && AllSpace(after) && Bare(core, v)
    ensures Denotes(before + (core + after), v)
  {
    hide Bare, White, AllSpace;
    var t := before + (core + after);
    var i, j := |before|, |before| + |core|;
    assert t[..i] == before && t[i..j] == core && t[j..] == after;
    WhiteIsSpace(before);
    WhiteIsSpace(after);
  }

  lemma KeySpaced(before: Text, key: seq<Piece>, gap: Text)
    requires AllSpace(before) && AllSpace(gap) && WfPieces(key)
    ensures Spaced(before + (PrintString(key) + gap), Decode(key))
  {
    hide IsLiteral, White, AllSpace, PrintString;
    LiteralOfPieces(key);
    var core := PrintString(key);
    var t := before + (core + gap);
    var i, j := |before|, |before| + |core|;
    assert t[..i] == before && t[i..j] == core && t[j..] == gap;
    WhiteIsSpace(before);
    WhiteIsSpace(gap);
  }

  lemma EntryOf(left: Text, right: Text, key: Text, value: Tree)
    requires Spaced(left, key) && Denotes(right, value)
    ensures Entry(left + ([COLON] + right), key, value)
  {
    hide Spaced, Denotes;
    var t := left + ([COLON] + right);
    assert t[|left|] == ':' as int && t[..|left|] == left && t[|left| + 1..] == right;
  }

  lemma MoreItems(left: Text, right: Text, items: Trees)
    requires items.Tree? && items.tail.Tree? && Denotes(left, items.head) && Items(right, items.tail)
    ensures Items(left + ([COMMA] + right), items)
  {
    hide Denotes;
    var t := left + ([COMMA] + right);
    assert t[|left|] == ',' as int && t[..|left|] == left && t[|left| + 1..] == right;
  }

  lemma MoreEntries(left: Text, right: Text, fields: Fields)
    requires fields.Field? && fields.others.Field? && Entry(left, fields.key, fields.value) && Entries(right, fields.others)
    ensures Entries(left + ([COMMA] + right), fields)
  {
    hide Entry;
    var t := left + ([COMMA] + right);
    assert t[|left|] == ',' as int && t[..|left|] == left && t[|left| + 1..] == right;
  }

  lemma {:induction false} PrintIsBare(v: Value)
    requires Wf(v)
    ensures Bare(Print(v), Meaning(v))
    decreases v, 0
  {
    hide IsLiteral, Matches, White, AllSpace, Items, Entries, PrintString, PrintNumeral, PrintMembers;
    match v {
      case String(pieces) => LiteralOfPieces(pieces);
      case Number(numeral) => NumeralMatches(numeral);
      case Constant(word) =>
      case Empty(braces, space) =>
        WhiteIsSpace(space);
        assert Inside(Print(v)) == space;
      case Group(braces, members) =>
        assert Inside(Print(v)) == PrintMembers(members);
        if braces { MembersAreEntries(members); } else { MembersAreItems(members); }
    }
  }

  lemma {:induction false} MembersAreItems(ms: Members)
    requires WfMembers(false, ms)
    ensures Items(PrintMembers(ms), ItemsOf(ms))
    decreases ms
  {
    hide Denotes, Bare, AllSpace, Print, Meaning;
    PrintIsBare(ms.value);
    var left := ms.lead + (Print(ms.value) + ms.after);
    SpacedDenotes(ms.lead, Print(ms.value), ms.after, Meaning(ms.value));
    if ms.More? {
      MembersAreItems(ms.rest);
      MoreItems(left, PrintMembers(ms.rest), ItemsOf(ms));
      assert PrintMembers(ms) == left + ([COMMA] + PrintMembers(ms.rest));
    } else {
      assert PrintMembers(ms) == left;
    }
  }

  datatype Member = Member(lead: Text, name: Name, value: Value, after: Text)

  predicate WfMember(m: Member) {
    AllSpace(m.lead) && WfName(true, m.name) && Wf(m.value) && AllSpace(m.after)
  }

  lemma LastMember(m: Member)
    requires WfMember(m)
    ensures var ms := Last(m.lead, m.name, m.value, m.after);
      && WfMembers(true, ms) && PrintMembers(ms) == m.lead + (PrintName(m.name) + (Print(m.value) + m.after))
      && FieldsOf(ms) == Field(Decode(m.name.key), Meaning(m.value), NoFields)
  {
    hide AllSpace, Wf, Print, PrintName, Meaning, WfPieces;
  }

  lemma MoreMembers(m: Member, rest: Members)
    requires WfMember(m) && WfMembers(true, rest)
    ensures var ms := More(m.lead, m.name, m.value, m.after, rest);
      && WfMembers(true, ms)
      && PrintMembers(ms) == (m.lead + (PrintName(m.name) + (Print(m.value) + m.after))) + ([COMMA] + PrintMembers(rest))
      && FieldsOf(ms) == Field(Decode(m.name.key), Meaning(m.value), FieldsOf(rest)) && FieldsOf(rest).Field?
  {
    hide AllSpace, Wf, Print, PrintName, Meaning, WfPieces;
    var l, n, v, a, r := m.lead, PrintName(m.name), Print(m.value), m.after, [COMMA] + PrintMembers(rest);
    assert l + (n + (v + (a + r))) == (l + (n + (v + a))) + r;
  }

  lemma MemberJoins(lead: Text, key: seq<Piece>, gap: Text, before: Text, rest: Text)
    ensures (lead + (PrintString(key) + gap)) + ([':' as int] + (before + rest))
         == lead + (PrintName(Named(key, gap, before)) + rest)
  {
    hide PrintString;
    var k := PrintString(key);
    assert (lead + (k + gap)) + ([COLON] + (before + rest)) == lead + ((k + (gap + ([COLON] + before))) + rest);
  }

  lemma {:induction false} MembersAreEntries(ms: Members)
    requires WfMembers(true, ms)
    ensures Entries(PrintMembers(ms), FieldsOf(ms))
    decreases ms
  {
    hide PrintMembers, FieldsOf, Decode, PrintName, Print, Meaning, Entry;
    var m := Member(ms.lead, ms.name, ms.value, ms.after);
    MemberIsEntry(m);
    if ms.More? {
      MembersAreEntries(ms.rest);
      MoreMembers(m, ms.rest);
      assert ms == More(m.lead, m.name, m.value, m.after, ms.rest);
      MoreEntries(m.lead + (PrintName(m.name) + (Print(m.value) + m.after)), PrintMembers(ms.rest), FieldsOf(ms));
    } else {
      LastMember(m);
      assert ms == Last(m.lead, m.name, m.value, m.after);
    }
  }

  lemma {:induction false} MemberIsEntry(m: Member)
    requires WfMember(m)
    ensures Entry(m.lead + (PrintName(m.name) + (Print(m.value) + m.after)), Decode(m.name.key), Meaning(m.value))
    decreases m.value, 1
  {
    hide Denotes, Bare, AllSpace, Print, Meaning, Spaced, PrintString, WfPieces, Entry, Decode;
    var n := m.name;
    PrintIsBare(m.value);
    SpacedDenotes(n.before, Print(m.value), m.after, Meaning(m.value));
    KeySpaced(m.lead, n.key, n.gap);
    var key, value := m.lead + (PrintString(n.key) + n.gap), n.before + (Print(m.value) + m.after);
    EntryOf(key, value, Decode(n.key), Meaning(m.value));
    MemberJoins(m.lead, n.key, n.gap, n.before, Print(m.value) + m.after);
  }

  // ----- and back -----------------------------------------------------------------------------

  lemma {:induction false} DocumentOf(t: Text, v: Tree) returns (d: Document)
    requires Denotes(t, v)
    ensures Spells(d, t) && Meaning(d.value) == v
    decreases v, 1
  {
    hide Bare, White, AllSpace, Print, Meaning, Wf;
    var i, j :| 0 <= i <= j <= |t| && White(t[..i]) && White(t[j..]) && Bare(t[i..j], v);
    var value := ValueOf(t[i..j], v);
    WhiteIsSpace(t[..i]);
    WhiteIsSpace(t[j..]);
    d := Document(t[..i], value, t[j..]);
    assert t == t[..i] + (t[i..j] + t[j..]);
  }

  lemma Bracketed(t: Text, open: char, close: char)
    requires open < 128 as char && close < 128 as char && Between(t, open, close)
    ensures t == [open as int] + (Inside(t) + [close as int])
  {
  }

  lemma {:induction false} ValueOf(t: Text, v: Tree) returns (value: Value)
    requires Bare(t, v)
    ensures Wf(value) && Print(value) == t && Meaning(value) == v
    decreases v, 0
  {
    hide IsLiteral, Matches, White, AllSpace, Items, Entries, PrintString, PrintNumeral, PrintMembers, Between, Inside, WfPieces,
      WfNumeral;
    match v {
      case TextLeaf(x) =>
        var pieces := PiecesOfLiteral(t, x);
        value := String(pieces);
      case NumberToken(x) =>
        var numeral := NumeralOf(t);
        value := Number(numeral);
      case Atom(word) => value := Constant(word);
      case Array(items) =>
        Bracketed(t, '[', ']');
        if items.NoTrees? {
          WhiteIsSpace(Inside(t));
          value := Empty(false, Inside(t));
        } else {
          var members := MembersOfItems(Inside(t), items);
          value := Group(false, members);
        }
      case Object(fields) =>
        Bracketed(t, '{', '}');
        if fields.NoFields? {
          WhiteIsSpace(Inside(t));
          value := Empty(true, Inside(t));
        } else {
          var members := MembersOfFields(Inside(t), fields);
          value := Group(true, members);
        }
    }
  }

  lemma CommaSplits(t: Text, k: nat, c: char)
    requires c < 128 as char && k < |t| && t[k] == c as int
    ensures t == t[..k] + ([c as int] + t[k + 1..])
  {
  }

  lemma LastItem(d: Document)
    requires WfDocument(d)
    ensures var ms := Last(d.before, Unnamed, d.value, d.after);
      WfMembers(false, ms) && PrintMembers(ms) == PrintDocument(d) && ItemsOf(ms) == Tree(Meaning(d.value), NoTrees)
  {
    hide AllSpace, Wf, Print, Meaning;
    assert d.before + ([] + (Print(d.value) + d.after)) == PrintDocument(d);
  }

  lemma MoreItem(d: Document, rest: Members)
    requires WfDocument(d) && WfMembers(false, rest)
    ensures var ms := More(d.before, Unnamed, d.value, d.after, rest);
      && WfMembers(false, ms) && PrintMembers(ms) == PrintDocument(d) + ([COMMA] + PrintMembers(rest))
      && ItemsOf(ms) == Tree(Meaning(d.value), ItemsOf(rest))
  {
    hide AllSpace, Wf, Print, Meaning;
    var b, v, a, r := d.before, Print(d.value), d.after, [COMMA] + PrintMembers(rest);
    assert b + ([] + (v + (a + r))) == (b + (v + a)) + r;
  }

  lemma {:induction false} MembersOfItems(t: Text, items: Trees) returns (ms: Members)
    requires items.Tree? && Items(t, items)
    ensures WfMembers(false, ms) && PrintMembers(ms) == t && ItemsOf(ms) == items
    decreases items
  {
    hide Denotes, PrintDocument, Meaning, WfDocument, WfMembers, PrintMembers, ItemsOf;
    if items.tail.NoTrees? {
      var d := DocumentOf(t, items.head);
      LastItem(d);
      ms := Last(d.before, Unnamed, d.value, d.after);
    } else {
      var k :| 0 <= k < |t| && t[k] == ',' as int && Denotes(t[..k], items.head) && Items(t[k + 1..], items.tail);
      var d := DocumentOf(t[..k], items.head);
      var rest := MembersOfItems(t[k + 1..], items.tail);
      MoreItem(d, rest);
      ms := More(d.before, Unnamed, d.value, d.after, rest);
      CommaSplits(t, k, ',');
    }
  }

  lemma KeyOf(t: Text, key: Text) returns (lead: Text, pieces: seq<Piece>, gap: Text)
    requires Spaced(t, key)
    ensures AllSpace(lead) && AllSpace(gap) && WfPieces(pieces) && Decode(pieces) == key
    ensures t == lead + (PrintString(pieces) + gap)
  {
    hide IsLiteral, White, AllSpace, PrintString, WfPieces;
    var i, j :| 0 <= i <= j <= |t| && White(t[..i]) && White(t[j..]) && IsLiteral(t[i..j], key);
    pieces := PiecesOfLiteral(t[i..j], key);
    WhiteIsSpace(t[..i]);
    WhiteIsSpace(t[j..]);
    lead, gap := t[..i], t[j..];
    assert t == t[..i] + (t[i..j] + t[j..]);
  }

  lemma {:induction false} MemberOf(t: Text, key: Text, v: Tree) returns (m: Member)
    requires Entry(t, key, v)
    ensures WfMember(m) && Decode(m.name.key) == key && Meaning(m.value) == v
    ensures t == m.lead + (PrintName(m.name) + (Print(m.value) + m.after))
    decreases v, 2
  {
    hide Denotes, Spaced, Print, Meaning, Wf, AllSpace, PrintString, WfPieces;
    var k :| 0 <= k < |t| && t[k] == ':' as int && Spaced(t[..k], key) && Denotes(t[k + 1..], v);
    var lead, pieces, gap := KeyOf(t[..k], key);
    var d := DocumentOf(t[k + 1..], v);
    m := Member(lead, Named(pieces, gap, d.before), d.value, d.after);
    CommaSplits(t, k, ':');
    MemberJoins(lead, pieces, gap, d.before, Print(d.value) + d.after);
  }

  lemma {:induction false} MembersOfFields(t: Text, fields: Fields) returns (ms: Members)
    requires fields.Field? && Entries(t, fields)
    ensures WfMembers(true, ms) && PrintMembers(ms) == t && FieldsOf(ms) == fields
    decreases fields
  {
    hide Entry, Print, Meaning, WfMembers, PrintMembers, PrintName, FieldsOf, Decode, WfMember;
    if fields.others.NoFields? {
      var m := MemberOf(t, fields.key, fields.value);
      LastMember(m);
      ms := Last(m.lead, m.name, m.value, m.after);
    } else {
      var k :| 0 <= k < |t| && t[k] == ',' as int && Entry(t[..k], fields.key, fields.value) && Entries(t[k + 1..], fields.others);
      var m := MemberOf(t[..k], fields.key, fields.value);
      var rest := MembersOfFields(t[k + 1..], fields.others);
      MoreMembers(m, rest);
      ms := More(m.lead, m.name, m.value, m.after, rest);
      CommaSplits(t, k, ',');
    }
  }

  /** The grammar and the direct definition agree, value for value. */
  lemma GrammarDenotes(t: Text, v: Tree)
    ensures Denotes(t, v) <==> exists d :: Spells(d, t) && Meaning(d.value) == v
  {
    hide Denotes, Bare, Meaning, Print, AllSpace;
    if Denotes(t, v) {
      var d := DocumentOf(t, v);
    }
    forall d | Spells(d, t) && Meaning(d.value) == v ensures Denotes(t, v) {
      PrintIsBare(d.value);
      SpacedDenotes(d.before, Print(d.value), d.after, v);
    }
  }

  /** A text denotes one value at most. */
  lemma DenotesOne(t: Text, v: Tree, w: Tree)
    requires Denotes(t, v) && Denotes(t, w)
    ensures v == w
  {
    hide Denotes, Spells, Meaning;
    var d := DocumentOf(t, v);
    var e := DocumentOf(t, w);
    GrammarIsUnambiguous(d, e, t);
  }

  // ----- the bounds ---------------------------------------------------------------------------

  lemma {:induction false} BoundsOf(v: Value)
    requires Wf(v)
    ensures Height(v) == Depth(Meaning(v)) && Count(v) == Size(Meaning(v)) && (CleanKeys(v) <==> KeysAreFresh(Meaning(v)))
    decreases v
  {
    if v.Group? {
      BoundsOfMembers(v.braces, v.members);
      if v.braces { KeysOfFields(v.members); }
    }
  }

  lemma KeysCons(key: Text, others: seq<Text>)
    ensures Distinct([key] + others) && (forall k | k in [key] + others :: !IsForbiddenKey(k))
            <==> key !in others && !IsForbiddenKey(key) && Distinct(others) && forall k | k in others :: !IsForbiddenKey(k)
  {
    hide IsForbiddenKey, Distinct;
    DistinctCons(key, others);
    assert forall k :: k in [key] + others <==> k == key || k in others;
  }

  lemma {:induction false} BoundsOfMembers(braces: bool, ms: Members)
    requires WfMembers(braces, ms)
    ensures !braces ==> MembersHeight(ms) == DepthOfItems(ItemsOf(ms)) && MembersCount(ms) == SizeOfItems(ItemsOf(ms))
    ensures !braces ==> (CleanMembers(false, ms) <==> ItemsAreFresh(ItemsOf(ms)))
    ensures braces ==> MembersHeight(ms) == DepthOfFields(FieldsOf(ms)) && MembersCount(ms) == SizeOfFields(FieldsOf(ms))
    ensures braces ==> (FieldsAreFresh(FieldsOf(ms))
                        <==> CleanMembers(true, ms) && Distinct(Keys(ms)) && forall k | k in Keys(ms) :: !IsForbiddenKey(k))
    decreases ms
  {
    BoundsOf(ms.value);
    if ms.More? {
      BoundsOfMembers(braces, ms.rest);
      if braces {
        KeysOfFields(ms.rest);
        KeysCons(Decode(ms.name.key), Keys(ms.rest));
      }
    } else if braces {
      KeysCons(Decode(ms.name.key), []);
    }
  }

  lemma {:induction false} KeysOfFields(ms: Members)
    requires WfMembers(true, ms)
    ensures forall key :: HasKey(FieldsOf(ms), key) <==> key in Keys(ms)
    decreases ms
  {
    if ms.More? { KeysOfFields(ms.rest); }
  }
}
