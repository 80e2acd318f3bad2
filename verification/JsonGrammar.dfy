/**
 The JSON grammar of RFC 8259, sections 2 to 7, as concrete syntax trees.

 A tree keeps every character of the text it stands for, white space and escape spelling included,
 so `Print` is the grammar: a text is JSON exactly when it is the print of a well-formed document.
 `Meaning` forgets the spelling.
 */
module JsonGrammar {
  import opened CodeUnits

  // ----- strings (section 7) ------------------------------------------------------------------

  datatype Piece =
    | Plain(unit: CodeUnit)
    | Short(letter: CodeUnit)
    | Hex(h3: CodeUnit, h2: CodeUnit, h1: CodeUnit, h0: CodeUnit)

  predicate IsHexDigit(u: CodeUnit) {
    IsDigit(u) || 'a' as int <= u <= 'f' as int || 'A' as int <= u <= 'F' as int
  }

  function HexValue(u: CodeUnit): (v: CodeUnit)
    requires IsHexDigit(u)
    ensures v < 16
  {
    if IsDigit(u) then u - ZERO
    else if u <= 'F' as int then u - 'A' as int + 10
    else u - 'a' as int + 10
  }

  predicate IsShortEscape(u: CodeUnit) {
    u == QUOTE || u == BACKSLASH || u == '/' as int || u == 'b' as int || u == 'f' as int
    || u == 'n' as int || u == 'r' as int || u == 't' as int
  }

  function ShortValue(u: CodeUnit): CodeUnit {
    if u == 'b' as int then 8
    else if u == 'f' as int then 12
    else if u == 'n' as int then 10
    else if u == 'r' as int then 13
    else if u == 't' as int then 9
    else u
  }

  predicate WfPiece(p: Piece) {
    match p
    case Plain(u) => u >= 0x20 && u != QUOTE && u != BACKSLASH
    case Short(u) => IsShortEscape(u)
    case Hex(a, b, c, d) => IsHexDigit(a) && IsHexDigit(b) && IsHexDigit(c) && IsHexDigit(d)
  }

  function PrintPiece(p: Piece): (t: Text)
    ensures t != []
  {
    match p
    case Plain(u) => [u]
    case Short(u) => [BACKSLASH, u]
    case Hex(a, b, c, d) => [BACKSLASH, 'u' as int, a, b, c, d]
  }

  function PieceValue(p: Piece): CodeUnit
    requires WfPiece(p)
  {
    match p
    case Plain(u) => u
    case Short(u) => ShortValue(u)
    case Hex(a, b, c, d) => ((HexValue(a) * 16 + HexValue(b)) * 16 + HexValue(c)) * 16 + HexValue(d)
  }

  predicate WfPieces(ps: seq<Piece>) {
    forall i | 0 <= i < |ps| :: WfPiece(ps[i])
  }

  function PrintPieces(ps: seq<Piece>): Text {
    if ps == [] then [] else PrintPiece(ps[0]) + PrintPieces(ps[1..])
  }

  /** The string a literal denotes. */
  function Decode(ps: seq<Piece>): (t: Text)
    requires WfPieces(ps)
    ensures |t| == |ps| && forall i | 0 <= i < |ps| :: t[i] == PieceValue(ps[i])
  {
    seq(|ps|, i requires 0 <= i < |ps| => PieceValue(ps[i]))
  }

  function PrintString(ps: seq<Piece>): Text {
    [QUOTE] + PrintPieces(ps) + [QUOTE]
  }

  // ----- numbers (section 6) ------------------------------------------------------------------

  datatype Exponent = NoExponent | Exponent(letter: CodeUnit, sign: Text, digits: Text)

  /** `fraction` is empty when there is no decimal point. */
  datatype Numeral = Numeral(minus: bool, whole: Text, fraction: Text, exponent: Exponent)

  predicate WfExponent(e: Exponent) {
    match e
    case NoExponent => true
    case Exponent(letter, sign, digits) =>
      && (letter == 'e' as int || letter == 'E' as int)
      && (sign == [] || sign == [PLUS] || sign == [MINUS])
      && digits != [] && AllDigits(digits)
  }

  predicate WfNumeral(n: Numeral) {
    && n.whole != [] && AllDigits(n.whole)
    && (n.whole[0] == ZERO ==> |n.whole| == 1)
    && AllDigits(n.fraction)
    && WfExponent(n.exponent)
  }

  function PrintSign(minus: bool): Text {
    if minus then [MINUS] else []
  }

  function PrintFraction(fraction: Text): Text {
    if fraction == [] then [] else [POINT] + fraction
  }

  function PrintExponent(e: Exponent): Text {
    match e
    case NoExponent => []
    case Exponent(letter, sign, digits) => [letter] + sign + digits
  }

  function PrintUnsigned(n: Numeral): Text {
    n.whole + (PrintFraction(n.fraction) + PrintExponent(n.exponent))
  }

  function PrintNumeral(n: Numeral): Text {
    PrintSign(n.minus) + PrintUnsigned(n)
  }

  // ----- values, arrays and objects (sections 2 to 5) -----------------------------------------

  datatype Word = True | False | Null

  /** The part of a member before its value: nothing in an array, `"key" : ` in an object. */
  datatype Name = Unnamed | Named(key: seq<Piece>, gap: Text, before: Text)

  datatype Value =
    | String(pieces: seq<Piece>)
    | Number(numeral: Numeral)
    | Constant(word: Word)
    | Empty(braces: bool, space: Text)
    | Group(braces: bool, members: Members)

  datatype Members =
    | Last(lead: Text, name: Name, value: Value, after: Text)
    | More(lead: Text, name: Name, value: Value, after: Text, rest: Members)

  datatype Document = Document(before: Text, value: Value, after: Text)

  function Spelling(w: Word): (t: Text)
    ensures t != []
  {
    match w
    case True => Units("true")
    case False => Units("false")
    case Null => Units("null")
  }

  function Open(braces: bool): CodeUnit {
    if braces then '{' as int else '[' as int
  }

  function Close(braces: bool): CodeUnit {
    if braces then '}' as int else ']' as int
  }

  function PrintName(n: Name): Text {
    match n
    case Unnamed => []
    case Named(key, gap, before) => PrintString(key) + (gap + ([COLON] + before))
  }

  function Print(v: Value): Text {
    match v
    case String(pieces) => PrintString(pieces)
    case Number(numeral) => PrintNumeral(numeral)
    case Constant(word) => Spelling(word)
    case Empty(braces, space) => [Open(braces)] + (space + [Close(braces)])
    case Group(braces, members) => [Open(braces)] + (PrintMembers(members) + [Close(braces)])
  }

  function PrintMembers(ms: Members): Text {
    match ms
    case Last(lead, name, value, after) => lead + (PrintName(name) + (Print(value) + after))
    case More(lead, name, value, after, rest) =>
      lead + (PrintName(name) + (Print(value) + (after + ([COMMA] + PrintMembers(rest)))))
  }

  function PrintDocument(d: Document): Text {
    d.before + (Print(d.value) + d.after)
  }

  predicate WfName(braces: bool, n: Name) {
    match n
    case Unnamed => !braces
    case Named(key, gap, before) => braces && WfPieces(key) && AllSpace(gap) && AllSpace(before)
  }

  predicate Wf(v: Value) {
    match v
    case String(pieces) => WfPieces(pieces)
    case Number(numeral) => WfNumeral(numeral)
    case Constant(word) => true
    case Empty(braces, space) => AllSpace(space)
    case Group(braces, members) => WfMembers(braces, members)
  }

  predicate WfMembers(braces: bool, ms: Members)
    decreases ms
  {
    && AllSpace(ms.lead) && WfName(braces, ms.name) && Wf(ms.value) && AllSpace(ms.after)
    && (ms.More? ==> WfMembers(braces, ms.rest))
  }

  predicate WfDocument(d: Document) {
    AllSpace(d.before) && Wf(d.value) && AllSpace(d.after)
  }

  // ----- the bounds the registrar client adds -------------------------------------------------

  function Max(a: nat, b: nat): nat {
    if a < b then b else a
  }

  /** How far below v its deepest value sits. */
  function Height(v: Value): nat {
    match v
    case Group(_, members) => 1 + MembersHeight(members)
    case _ => 0
  }

  function MembersHeight(ms: Members): nat {
    match ms
    case Last(_, _, value, _) => Height(value)
    case More(_, _, value, _, rest) => Max(Height(value), MembersHeight(rest))
  }

  /** The number of values in v, itself included. */
  function Count(v: Value): nat {
    match v
    case Group(_, members) => 1 + MembersCount(members)
    case _ => 1
  }

  function MembersCount(ms: Members): nat {
    match ms
    case Last(_, _, value, _) => Count(value)
    case More(_, _, value, _, rest) => Count(value) + MembersCount(rest)
  }

  /** The decoded keys of one braces, in order; nothing for an array. */
  function Keys(ms: Members): (ks: seq<Text>)
    requires WfMembers(true, ms)
  {
    [Decode(ms.name.key)] + if ms.More? then Keys(ms.rest) else []
  }

  predicate Distinct<T(==)>(s: seq<T>) {
    forall i, j | 0 <= i < j < |s| :: s[i] != s[j]
  }

  predicate IsForbiddenKey(key: Text) {
    key == Units("__proto__") || key == Units("constructor") || key == Units("prototype")
  }

  /** In every object the decoded keys are distinct and none is forbidden. */
  predicate CleanKeys(v: Value)
    requires Wf(v)
  {
    v.Group? ==>
      && (v.braces ==> Distinct(Keys(v.members)) && forall k | k in Keys(v.members) :: !IsForbiddenKey(k))
      && CleanMembers(v.braces, v.members)
  }

  predicate CleanMembers(braces: bool, ms: Members)
    requires WfMembers(braces, ms)
    decreases ms
  {
    CleanKeys(ms.value) && (ms.More? ==> CleanMembers(braces, ms.rest))
  }

  // ----- what a text means --------------------------------------------------------------------

  /** A JavaScript value as JSON.parse builds it; a number is kept as its token. */
  datatype Tree =
    | TextLeaf(text: Text)
    | NumberToken(token: Text)
    | Atom(word: Word)
    | Array(items: Trees)
    | Object(fields: Fields)

  datatype Trees = NoTrees | Tree(head: Tree, tail: Trees)

  datatype Fields = NoFields | Field(key: Text, value: Tree, others: Fields)

  function Meaning(v: Value): Tree
    requires Wf(v)
  {
    match v
    case String(pieces) => TextLeaf(Decode(pieces))
    case Number(numeral) => NumberToken(PrintNumeral(numeral))
    case Constant(word) => Atom(word)
    case Empty(braces, _) => if braces then Object(NoFields) else Array(NoTrees)
    case Group(braces, members) =>
      if braces then Object(FieldsOf(members)) else Array(ItemsOf(members))
  }

  function ItemsOf(ms: Members): Trees
    requires WfMembers(false, ms)
  {
    Tree(Meaning(ms.value), if ms.More? then ItemsOf(ms.rest) else NoTrees)
  }

  function FieldsOf(ms: Members): Fields
    requires WfMembers(true, ms)
  {
    Field(Decode(ms.name.key), Meaning(ms.value), if ms.More? then FieldsOf(ms.rest) else NoFields)
  }
}
