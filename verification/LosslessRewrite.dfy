/**
 Quoting every number of a document, the change the scanner makes so that no price passes through a
 floating-point value.
 */
module LosslessRewrite {
  import opened CodeUnits
  import opened JsonGrammar
  import opened JsonStringify

  /** v with each number replaced by the string that holds its characters. */
  function Quote(v: Value): Value {
    match v
    case Number(numeral) => String(PlainPieces(PrintNumeral(numeral)))
    case Group(braces, members) => Group(braces, QuoteMembers(members))
    case _ => v
  }

  function QuoteMembers(ms: Members): Members {
    match ms
    case Last(lead, name, value, after) => Last(lead, name, Quote(value), after)
    case More(lead, name, value, after, rest) => More(lead, name, Quote(value), after, QuoteMembers(rest))
  }

  function QuoteDocument(d: Document): Document {
    Document(d.before, Quote(d.value), d.after)
  }

  /** The same on what a text means: each number leaf becomes a text leaf with that number's characters. */
  function QuoteTree(t: Tree): Tree {
    match t
    case NumberToken(token) => TextLeaf(token)
    case Array(items) => Array(QuoteItems(items))
    case Object(fields) => Object(QuoteFields(fields))
    case _ => t
  }

  function QuoteItems(ts: Trees): Trees {
    match ts
    case NoTrees => NoTrees
    case Tree(head, tail) => Tree(QuoteTree(head), QuoteItems(tail))
  }

  function QuoteFields(fs: Fields): Fields {
    match fs
    case NoFields => NoFields
    case Field(key, value, others) => Field(key, QuoteTree(value), QuoteFields(others))
  }

  /** How many numbers v holds. */
  function Numbers(v: Value): nat {
    match v
    case Number(_) => 1
    case Group(_, members) => MembersNumbers(members)
    case _ => 0
  }

  function MembersNumbers(ms: Members): nat {
    match ms
    case Last(_, _, value, _) => Numbers(value)
    case More(_, _, value, _, rest) => Numbers(value) + MembersNumbers(rest)
  }

  // ----- a number token needs no escape -------------------------------------------------------

  lemma NumeralIsPlain(n: Numeral)
    requires WfNumeral(n)
    ensures NeedsNoEscape(PrintNumeral(n))
  {
    var e := PrintExponent(n.exponent);
    var f := PrintFraction(n.fraction);
    assert NeedsNoEscape(e);
    assert NeedsNoEscape(f);
    PlainConcat(f, e);
    PlainConcat(n.whole, f + e);
    PlainConcat(PrintSign(n.minus), PrintUnsigned(n));
  }

  lemma PlainConcat(a: Text, b: Text)
    requires NeedsNoEscape(a) && NeedsNoEscape(b)
    ensures NeedsNoEscape(a + b)
  {
  }

  /** What the scanner pushes for a number is the print of the quoted number. */
  lemma QuotedNumeral(n: Numeral)
    requires WfNumeral(n)
    ensures Wf(Quote(Number(n)))
    ensures Print(Quote(Number(n))) == Stringify(PrintNumeral(n)) == [QUOTE] + PrintNumeral(n) + [QUOTE]
    ensures Meaning(Quote(Number(n))) == TextLeaf(PrintNumeral(n))
  {
    NumeralIsPlain(n);
    PlainText(PrintNumeral(n));
  }

  // ----- shape, bounds and meaning ------------------------------------------------------------

  lemma {:induction false} QuoteKeepsShape(v: Value)
    requires Wf(v)
    ensures Wf(Quote(v)) && Height(Quote(v)) == Height(v) && Count(Quote(v)) == Count(v)
    ensures CleanKeys(Quote(v)) <==> CleanKeys(v)
    decreases v
  {
    match v {
      case Number(n) => QuotedNumeral(n);
      case Group(braces, ms) =>
        QuoteMembersKeepsShape(braces, ms);
      case _ =>
    }
  }

  lemma {:induction false} QuoteMembersKeepsShape(braces: bool, ms: Members)
    requires WfMembers(braces, ms)
    ensures WfMembers(braces, QuoteMembers(ms))
    ensures MembersHeight(QuoteMembers(ms)) == MembersHeight(ms) && MembersCount(QuoteMembers(ms)) == MembersCount(ms)
    ensures CleanMembers(braces, QuoteMembers(ms)) <==> CleanMembers(braces, ms)
    ensures braces ==> Keys(QuoteMembers(ms)) == Keys(ms)
    decreases ms
  {
    QuoteKeepsShape(ms.value);
    if ms.More? { QuoteMembersKeepsShape(braces, ms.rest); }
  }

  lemma {:induction false} QuoteMeaning(v: Value)
    requires Wf(v)
    ensures Wf(Quote(v)) && Meaning(Quote(v)) == QuoteTree(Meaning(v))
    decreases v
  {
    match v {
      case Number(n) => QuotedNumeral(n);
      case Group(braces, ms) => QuoteMembersMeaning(braces, ms);
      case _ =>
    }
  }

  lemma {:induction false} QuoteMembersMeaning(braces: bool, ms: Members)
    requires WfMembers(braces, ms)
    ensures WfMembers(braces, QuoteMembers(ms))
    ensures braces ==> FieldsOf(QuoteMembers(ms)) == QuoteFields(FieldsOf(ms))
    ensures !braces ==> ItemsOf(QuoteMembers(ms)) == QuoteItems(ItemsOf(ms))
    decreases ms
  {
    QuoteMeaning(ms.value);
    if ms.More? { QuoteMembersMeaning(braces, ms.rest); }
  }

  /** A document without numbers is left alone, and quoting leaves none. */
  lemma {:induction false} QuoteSettles(v: Value)
    ensures Numbers(Quote(v)) == 0
    ensures Quote(v) == v <==> Numbers(v) == 0
    decreases v
  {
    if v.Group? { QuoteMembersSettles(v.members); }
  }

  lemma {:induction false} QuoteMembersSettles(ms: Members)
    ensures MembersNumbers(QuoteMembers(ms)) == 0
    ensures QuoteMembers(ms) == ms <==> MembersNumbers(ms) == 0
    decreases ms
  {
    QuoteSettles(ms.value);
    if ms.More? { QuoteMembersSettles(ms.rest); }
  }

  // ----- size ---------------------------------------------------------------------------------

  lemma {:induction false} QuoteLength(v: Value)
    requires Wf(v)
    ensures |Print(Quote(v))| == |Print(v)| + 2 * Numbers(v)
    decreases v
  {
    match v {
      case Number(n) => QuotedNumeral(n);
      case Group(braces, ms) => QuoteMembersLength(braces, ms);
      case _ =>
    }
  }

  lemma {:induction false} QuoteMembersLength(braces: bool, ms: Members)
    requires WfMembers(braces, ms)
    ensures |PrintMembers(QuoteMembers(ms))| == |PrintMembers(ms)| + 2 * MembersNumbers(ms)
    decreases ms
  {
    QuoteLength(ms.value);
    if ms.More? { QuoteMembersLength(braces, ms.rest); }
  }

  /** Empty or starting with an ASCII unit: no surrogate pair reaches across its front. */
  predicate AsciiStart(t: Text) {
    t == [] || t[0] < 0x80
  }

  lemma BytesConcat(a: Text, b: Text)
    requires AsciiStart(a) && AsciiStart(b)
    ensures AsciiStart(a + b) && Utf8Length(a + b) == Utf8Length(a) + Utf8Length(b)
  {
    Utf8LengthConcat(a, b);
    if a == [] { assert a + b == b; }
  }

  lemma PrintAsciiStart(v: Value)
    requires Wf(v)
    ensures AsciiStart(Print(v)) && AsciiStart(Print(Quote(v)))
  {
  }

  lemma {:induction false} QuoteBytes(v: Value)
    requires Wf(v)
    ensures Utf8Length(Print(Quote(v))) == Utf8Length(Print(v)) + 2 * Numbers(v)
    decreases v
  {
    match v {
      case Number(n) =>
        QuotedNumeral(n);
        NumeralIsPlain(n);
        AsciiLength(PrintNumeral(n));
        AsciiLength(Print(Quote(v)));
      case Group(braces, ms) =>
        QuoteMembersBytes(braces, ms);
        var qs := QuoteMembers(ms);
        BytesConcat(PrintMembers(ms), [Close(braces)]);
        BytesConcat(PrintMembers(qs), [Close(braces)]);
        BytesConcat([Open(braces)], PrintMembers(ms) + [Close(braces)]);
        BytesConcat([Open(braces)], PrintMembers(qs) + [Close(braces)]);
      case _ =>
    }
  }

  lemma NameAsciiStart(braces: bool, n: Name)
    requires WfName(braces, n)
    ensures AsciiStart(PrintName(n))
  {
  }

  lemma SpaceAsciiStart(t: Text)
    requires AllSpace(t)
    ensures AsciiStart(t)
  {
  }

  lemma CommaAsciiStart()
    ensures AsciiStart([COMMA])
  {
  }

  lemma BytesConcat4(a: Text, b: Text, c: Text, d: Text)
    requires AsciiStart(a) && AsciiStart(b) && AsciiStart(c) && AsciiStart(d)
    ensures AsciiStart(a + (b + (c + d)))
    ensures Utf8Length(a + (b + (c + d))) == Utf8Length(a) + Utf8Length(b) + Utf8Length(c) + Utf8Length(d)
  {
    BytesConcat(c, d);
    BytesConcat(b, c + d);
    BytesConcat(a, b + (c + d));
  }

  lemma {:induction false} QuoteMembersBytes(braces: bool, ms: Members)
    requires WfMembers(braces, ms)
    ensures AsciiStart(PrintMembers(ms)) && AsciiStart(PrintMembers(QuoteMembers(ms)))
    ensures Utf8Length(PrintMembers(QuoteMembers(ms))) == Utf8Length(PrintMembers(ms)) + 2 * MembersNumbers(ms)
    decreases ms
  {
    hide Utf8Length, Print, Quote, PrintName, AsciiStart, AllSpace;
    SpaceAsciiStart(ms.lead);
    SpaceAsciiStart(ms.after);
    CommaAsciiStart();
    QuoteBytes(ms.value);
    PrintAsciiStart(ms.value);
    NameAsciiStart(braces, ms.name);
    var name, value, quoted := PrintName(ms.name), Print(ms.value), Print(Quote(ms.value));
    if ms.Last? {
      BytesConcat4(ms.lead, name, value, ms.after);
      BytesConcat4(ms.lead, name, quoted, ms.after);
    } else {
      QuoteMembersBytes(braces, ms.rest);
      var rest, others := PrintMembers(ms.rest), PrintMembers(QuoteMembers(ms.rest));
      BytesConcat([COMMA], rest);
      BytesConcat([COMMA], others);
      BytesConcat(ms.after, [COMMA] + rest);
      BytesConcat(ms.after, [COMMA] + others);
      BytesConcat4(ms.lead, name, value, ms.after + ([COMMA] + rest));
      BytesConcat4(ms.lead, name, quoted, ms.after + ([COMMA] + others));
    }
  }

  /** The rewritten text is longer by the two quotes of each number, in code units and in bytes. */
  lemma QuoteDocumentSize(d: Document)
    requires WfDocument(d)
    ensures |PrintDocument(QuoteDocument(d))| == |PrintDocument(d)| + 2 * Numbers(d.value)
    ensures Utf8Length(PrintDocument(QuoteDocument(d))) == Utf8Length(PrintDocument(d)) + 2 * Numbers(d.value)
  {
    QuoteLength(d.value);
    QuoteBytes(d.value);
    PrintAsciiStart(d.value);
    BytesConcat(Print(d.value), d.after);
    BytesConcat(d.before, Print(d.value) + d.after);
    BytesConcat(Print(Quote(d.value)), d.after);
    BytesConcat(d.before, Print(Quote(d.value)) + d.after);
  }
}
