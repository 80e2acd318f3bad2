/**
 What JSON.stringify writes for arrays, strings and constants without white space, and how it reads
 back.
 */
module JsonArrays {
  import opened CodeUnits
  import opened JsonGrammar
  import opened JsonStringify

  // ----- writing ------------------------------------------------------------------------------

  function WriteString(t: Text): Value {
    String(EscapePieces(t))
  }

  function WriteBool(b: bool): Value {
    Constant(if b then True else False)
  }

  /** A number from 0 to 9. */
  function WriteDigit(n: nat): Value
    requires n < 10
  {
    Number(Numeral(false, [ZERO + n], [], NoExponent))
  }

  function MembersOf(vs: seq<Value>): Members
    requires vs != []
  {
    if |vs| == 1 then Last([], Unnamed, vs[0], []) else More([], Unnamed, vs[0], [], MembersOf(vs[1..]))
  }

  function WriteArray(vs: seq<Value>): Value
    requires vs != []
  {
    Group(false, MembersOf(vs))
  }

  // ----- reading back -------------------------------------------------------------------------

  function ListOf(ts: Trees): seq<Tree> {
    match ts
    case NoTrees => []
    case Tree(head, tail) => [head] + ListOf(tail)
  }

  predicate AllWf(vs: seq<Value>) {
    forall i | 0 <= i < |vs| :: Wf(vs[i])
  }

  function Meanings(vs: seq<Value>): seq<Tree>
    requires AllWf(vs)
  {
    seq(|vs|, i requires 0 <= i < |vs| => Meaning(vs[i]))
  }

  lemma {:induction false} MembersRead(vs: seq<Value>)
    requires vs != [] && AllWf(vs)
    ensures WfMembers(false, MembersOf(vs)) && ListOf(ItemsOf(MembersOf(vs))) == Meanings(vs)
  {
    if |vs| > 1 {
      MembersRead(vs[1..]);
      assert Meanings(vs) == [Meaning(vs[0])] + Meanings(vs[1..]);
    } else {
      assert Meanings(vs) == [Meaning(vs[0])];
    }
  }

  lemma ArrayReads(vs: seq<Value>)
    requires vs != [] && AllWf(vs)
    ensures Wf(WriteArray(vs)) && Meaning(WriteArray(vs)).Array?
    ensures ListOf(Meaning(WriteArray(vs)).items) == Meanings(vs)
  {
    MembersRead(vs);
  }

  lemma StringReads(t: Text)
    ensures Wf(WriteString(t)) && Meaning(WriteString(t)) == TextLeaf(t)
  {
    EscapeDecodes(t);
  }

  lemma DigitReads(n: nat)
    requires n < 10
    ensures Wf(WriteDigit(n)) && Meaning(WriteDigit(n)) == NumberToken([ZERO + n])
  {
  }

  /** A text without white space around its value. */
  function Compact(v: Value): Document {
    Document([], v, [])
  }

  lemma CompactPrints(v: Value)
    ensures PrintDocument(Compact(v)) == Print(v)
  {
  }

  // ----- size ---------------------------------------------------------------------------------

  function SumLengths(vs: seq<Value>): nat {
    if vs == [] then 0 else |Print(vs[0])| + SumLengths(vs[1..])
  }

  lemma {:induction false} MembersLength(vs: seq<Value>)
    requires vs != []
    ensures |PrintMembers(MembersOf(vs))| == SumLengths(vs) + |vs| - 1
  {
    if |vs| > 1 {
      MembersLength(vs[1..]);
    } else {
      assert vs[1..] == [];
    }
  }

  /** An array takes its elements, the commas between them and two brackets. */
  lemma ArrayLength(vs: seq<Value>)
    requires vs != []
    ensures |Print(WriteArray(vs))| == SumLengths(vs) + |vs| + 1
  {
  }

  lemma {:induction false} SumBound(vs: seq<Value>, bound: nat)
    requires forall i | 0 <= i < |vs| :: |Print(vs[i])| <= bound
    ensures SumLengths(vs) <= |vs| * bound
  {
    if vs != [] {
      SumBound(vs[1..], bound);
      assert |vs| * bound == bound + (|vs| - 1) * bound;
    }
  }

  lemma {:induction false} SumConcat(vs: seq<Value>, ws: seq<Value>)
    ensures SumLengths(vs + ws) == SumLengths(vs) + SumLengths(ws)
  {
    if vs == [] {
      assert vs + ws == ws;
    } else {
      SumConcat(vs[1..], ws);
      assert (vs + ws)[1..] == vs[1..] + ws;
    }
  }

  predicate Ascii(t: Text) {
    forall i | 0 <= i < |t| :: t[i] < 0x80
  }

  lemma AsciiConcat(a: Text, b: Text)
    requires Ascii(a) && Ascii(b)
    ensures Ascii(a + b)
  {
  }

  /** Printable ASCII grows at most twofold, by the backslashes before quotes and backslashes. */
  lemma {:induction false} PrintableGrowth(t: Text)
    requires forall i | 0 <= i < |t| :: 0x20 <= t[i] <= 0x7E
    ensures |PrintPieces(EscapePieces(t))| <= 2 * |t| && Ascii(PrintPieces(EscapePieces(t)))
  {
    if t != [] {
      PrintableGrowth(t[1..]);
      var p := EscapeUnit(t[0]);
      assert EscapePieces(t)[1..] == EscapePieces(t[1..]);
      assert |PrintPiece(p)| <= 2 && Ascii(PrintPiece(p));
      AsciiConcat(PrintPiece(p), PrintPieces(EscapePieces(t[1..])));
    }
  }

  lemma StringLength(t: Text)
    requires forall i | 0 <= i < |t| :: 0x20 <= t[i] <= 0x7E
    ensures |Print(WriteString(t))| <= 2 * |t| + 2 && Ascii(Print(WriteString(t)))
    ensures NeedsNoEscape(t) ==> |Print(WriteString(t))| == |t| + 2
  {
    PrintableGrowth(t);
    AsciiConcat([QUOTE], PrintPieces(EscapePieces(t)));
    AsciiConcat([QUOTE] + PrintPieces(EscapePieces(t)), [QUOTE]);
    if NeedsNoEscape(t) { PlainText(t); }
  }

  lemma {:induction false} MembersAscii(vs: seq<Value>)
    requires vs != [] && forall i | 0 <= i < |vs| :: Ascii(Print(vs[i]))
    ensures Ascii(PrintMembers(MembersOf(vs)))
  {
    if |vs| > 1 {
      MembersAscii(vs[1..]);
      var rest := PrintMembers(MembersOf(vs[1..]));
      AsciiConcat([COMMA], rest);
      AsciiConcat(Print(vs[0]), [COMMA] + rest);
    }
  }

  lemma ArrayAscii(vs: seq<Value>)
    requires vs != [] && forall i | 0 <= i < |vs| :: Ascii(Print(vs[i]))
    ensures Ascii(Print(WriteArray(vs)))
  {
    MembersAscii(vs);
    AsciiConcat(PrintMembers(MembersOf(vs)), [Close(false)]);
    AsciiConcat([Open(false)], PrintMembers(MembersOf(vs)) + [Close(false)]);
  }
}
