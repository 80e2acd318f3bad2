/**
 JSON of RFC 8259 said directly on texts: which texts denote which value.  Nothing here is shared with
 the scanner or the concrete syntax.
 */
module JsonText {
  import opened CodeUnits
  import opened JsonGrammar
  import opened NumberPatterns
  import opened Options
  import opened Patterns

  // ----- string literals (section 7) ----------------------------------------------------------

  /** The letters that may follow a backslash, and what each stands for. */
  const LETTERS: Text := Units("\"\\/bfnrt")
  const VALUES: Text := [0x22, 0x5C, 0x2F, 0x08, 0x0C, 0x0A, 0x0D, 0x09]

  const LOWER: Text := Units("0123456789abcdef")
  const UPPER: Text := Units("0123456789ABCDEF")

  function Position(table: Text, u: CodeUnit): (i: Option<nat>)
    ensures i.Some? ==> i.value < |table| && table[i.value] == u
    ensures i.None? <==> u !in table
  {
    if table == [] then None
    else if table[0] == u then Some(0)
    else match Position(table[1..], u) case None => None case Some(i) => Some(i + 1)
  }

  /** The digit of either table. */
  function HexOf(u: CodeUnit): (v: Option<nat>)
    ensures v.Some? ==> v.value < 16
  {
    match Position(LOWER, u) case Some(i) => Some(i) case None => Position(UPPER, u)
  }

  function FourHex(t: Text): (v: Option<CodeUnit>)
    requires |t| == 4
  {
    match (HexOf(t[0]), HexOf(t[1]), HexOf(t[2]), HexOf(t[3]))
    case (Some(a), Some(b), Some(c), Some(d)) => Some(4096 * a + 256 * b + 16 * c + d)
    case _ => None
  }

  /** What stands between the quotes of a literal, decoded from left to right. */
  function Literal(t: Text): Option<Text> {
    if t == [] then Some([])
    else if t[0] == BACKSLASH then
      if |t| >= 2 && Position(LETTERS, t[1]).Some? then After(VALUES[Position(LETTERS, t[1]).value], Literal(t[2..]))
      else if |t| >= 6 && t[1] == 'u' as int && FourHex(t[2..6]).Some? then After(FourHex(t[2..6]).value, Literal(t[6..]))
      else None
    else if t[0] < 0x20 || t[0] == QUOTE then None
    else After(t[0], Literal(t[1..]))
  }

  function After(u: CodeUnit, rest: Option<Text>): Option<Text> {
    match rest case None => None case Some(more) => Some([u] + more)
  }

  predicate Between(t: Text, open: char, close: char)
    requires open < 128 as char && close < 128 as char
  {
    |t| >= 2 && t[0] == open as int && t[|t| - 1] == close as int
  }

  function Inside(t: Text): Text
    requires |t| >= 2
  {
    t[1..|t| - 1]
  }

  /** Quotes around a literal. */
  predicate IsLiteral(t: Text, x: Text) {
    Between(t, '\"', '\"') && Literal(Inside(t)) == Some(x)
  }

  /** Space, tab, line feed and carriage return. */
  predicate White(t: Text) {
    forall i | 0 <= i < |t| :: t[i] == 0x20 || t[i] == 0x09 || t[i] == 0x0A || t[i] == 0x0D
  }

  // ----- values (sections 2 to 5) -------------------------------------------------------------

  /** t is JSON for the value v, white space around it allowed. */
  ghost predicate Denotes(t: Text, v: Tree)
    decreases v, 1
  {
    exists i, j | 0 <= i <= j <= |t| :: White(t[..i]) && White(t[j..]) && Bare(t[i..j], v)
  }

  ghost predicate Bare(t: Text, v: Tree)
    decreases v, 0
  {
    match v
    case TextLeaf(x) => IsLiteral(t, x)
    case NumberToken(x) => t == x && Matches(NUMBER, x)
    case Atom(True) => t == Units("true")
    case Atom(False) => t == Units("false")
    case Atom(Null) => t == Units("null")
    case Array(items) => Between(t, '[', ']') && if items.NoTrees? then White(Inside(t)) else Items(Inside(t), items)
    case Object(fields) => Between(t, '{', '}') && if fields.NoFields? then White(Inside(t)) else Entries(Inside(t), fields)
  }

  /** Values between commas. */
  ghost predicate Items(t: Text, items: Trees)
    requires items.Tree?
    decreases items
  {
    if items.tail.NoTrees? then Denotes(t, items.head)
    else exists k | 0 <= k < |t| && t[k] == ',' as int :: Denotes(t[..k], items.head) && Items(t[k + 1..], items.tail)
  }

  /** Keys and values between commas. */
  ghost predicate Entries(t: Text, fields: Fields)
    requires fields.Field?
    decreases fields
  {
    if fields.others.NoFields? then Entry(t, fields.key, fields.value)
    else exists k | 0 <= k < |t| && t[k] == ',' as int ::
           Entry(t[..k], fields.key, fields.value) && Entries(t[k + 1..], fields.others)
  }

  ghost predicate Entry(t: Text, key: Text, value: Tree)
    decreases value, 2
  {
    exists k | 0 <= k < |t| && t[k] == ':' as int :: Spaced(t[..k], key) && Denotes(t[k + 1..], value)
  }

  /** A key, with white space around it. */
  ghost predicate Spaced(t: Text, key: Text) {
    exists i, j | 0 <= i <= j <= |t| :: White(t[..i]) && White(t[j..]) && IsLiteral(t[i..j], key)
  }

  // ----- the bounds of the registrar client ---------------------------------------------------

  /** How many arrays and objects enclose the deepest value. */
  function Depth(v: Tree): nat {
    match v
    case Array(items) => if items.NoTrees? then 0 else 1 + DepthOfItems(items)
    case Object(fields) => if fields.NoFields? then 0 else 1 + DepthOfFields(fields)
    case _ => 0
  }

  function DepthOfItems(items: Trees): nat {
    match items
    case NoTrees => 0
    case Tree(head, tail) => if Depth(head) > DepthOfItems(tail) then Depth(head) else DepthOfItems(tail)
  }

  function DepthOfFields(fields: Fields): nat {
    match fields
    case NoFields => 0
    case Field(_, value, others) => if Depth(value) > DepthOfFields(others) then Depth(value) else DepthOfFields(others)
  }

  /** How many values v consists of. */
  function Size(v: Tree): nat {
    match v
    case Array(items) => 1 + SizeOfItems(items)
    case Object(fields) => 1 + SizeOfFields(fields)
    case _ => 1
  }

  function SizeOfItems(items: Trees): nat {
    match items case NoTrees => 0 case Tree(head, tail) => Size(head) + SizeOfItems(tail)
  }

  function SizeOfFields(fields: Fields): nat {
    match fields case NoFields => 0 case Field(_, value, others) => Size(value) + SizeOfFields(others)
  }

  predicate HasKey(fields: Fields, key: Text) {
    match fields case NoFields => false case Field(k, _, others) => k == key || HasKey(others, key)
  }

  /** No object repeats a key, and none has one of the three that reach an object's prototype. */
  predicate KeysAreFresh(v: Tree) {
    match v
    case Array(items) => ItemsAreFresh(items)
    case Object(fields) => FieldsAreFresh(fields)
    case _ => true
  }

  predicate ItemsAreFresh(items: Trees) {
    match items case NoTrees => true case Tree(head, tail) => KeysAreFresh(head) && ItemsAreFresh(tail)
  }

  predicate FieldsAreFresh(fields: Fields) {
    match fields
    case NoFields => true
    case Field(key, value, others) =>
      && !HasKey(others, key)
      && key != Units("__proto__") && key != Units("constructor") && key != Units("prototype")
      && KeysAreFresh(value) && FieldsAreFresh(others)
  }

  predicate Admissible(v: Tree, nodes: nat) {
    Depth(v) <= 16 && Size(v) <= nodes && KeysAreFresh(v)
  }

  // ----- what becomes of the numbers ----------------------------------------------------------

  /** w is v but for its numbers, and each of them is the text of its own characters. */
  predicate NumbersAsText(v: Tree, w: Tree) {
    match v
    case NumberToken(token) => w == TextLeaf(token)
    case Array(items) => w.Array? && ItemsAsText(items, w.items)
    case Object(fields) => w.Object? && FieldsAsText(fields, w.fields)
    case _ => w == v
  }

  predicate ItemsAsText(items: Trees, others: Trees) {
    match items
    case NoTrees => others.NoTrees?
    case Tree(head, tail) => others.Tree? && NumbersAsText(head, others.head) && ItemsAsText(tail, others.tail)
  }

  predicate FieldsAsText(fields: Fields, others: Fields) {
    match fields
    case NoFields => others.NoFields?
    case Field(key, value, rest) =>
      others.Field? && others.key == key && NumbersAsText(value, others.value) && FieldsAsText(rest, others.others)
  }
}
