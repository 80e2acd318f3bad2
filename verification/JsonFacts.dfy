/**
 What the definition of JSON text comes to on string literals and numbers, and JSON.parse with it.
 */
module JsonFacts {
  import opened CodeUnits
  import opened JsonGrammar
  import opened JsonMeaning
  import opened JsonText
  import opened LosslessJson
  import opened NumberPatterns
  import opened Options
  import opened Patterns

  function Quoted(t: Text): Text {
    [QUOTE] + t + [QUOTE]
  }

  lemma NotWhite(t: Text, c: char)
    requires c < 128 as char && c != ' ' && c != '\t' && c != '\n' && c != '\r'
    requires White(t) && t != []
    ensures t[0] != c as int && t[|t| - 1] != c as int
  {
  }

  /** A text that starts and ends with a quote denotes what stands between them, if anything. */
  lemma OnlyALiteral(t: Text, v: Tree)
    ensures Denotes(Quoted(t), v) <==> v.TextLeaf? && Literal(t) == Some(v.text)
  {
    hide Literal, White, Matches, Items, Entries;
    var u := Quoted(t);
    assert u[0] == QUOTE && u[|u| - 1] == QUOTE && Inside(u) == t;
    if Denotes(u, v) {
      var i, j :| 0 <= i <= j <= |u| && White(u[..i]) && White(u[j..]) && Bare(u[i..j], v);
      BareEnds(u[i..j], v);
      if i > 0 { NotWhite(u[..i], '\"'); }
      if j < |u| { NotWhite(u[j..], '\"'); }
      assert u[i..j] == u;
      QuoteStartsALiteral(u, v);
    }
    if v.TextLeaf? && Literal(t) == Some(v.text) {
      assert IsLiteral(u, v.text);
      assert u[..0] == [] && u[|u|..] == [] && u[0..|u|] == u;
      assert White(u[..0]) && White(u[|u|..]) by { NothingIsWhite(); }
    }
  }

  lemma NothingIsWhite()
    ensures White([])
  {
  }

  lemma BareEnds(t: Text, v: Tree)
    requires Bare(t, v)
    ensures t != []
  {
    hide Items, Entries, White, Literal;
    if v.NumberToken? { NumeralOfMatch(t); }
  }

  lemma NumeralOfMatch(t: Text)
    requires Matches(NUMBER, t)
    ensures t != [] && t[0] != QUOTE
  {
    hide Matches;
    var n := NumeralOf(t);
  }

  lemma QuoteStartsALiteral(t: Text, v: Tree)
    requires Bare(t, v) && t != [] && t[0] == QUOTE
    ensures v.TextLeaf? && IsLiteral(t, v.text)
  {
    hide Items, Entries, White, Literal;
    if v.NumberToken? { NumeralOfMatch(t); }
  }

  /** A literal means what the tables say, and anything else between quotes is no JSON. */
  lemma LiteralMeaning(t: Text)
    ensures JsonParse(Quoted(t)) == match Literal(t) case None => None case Some(text) => Some(TextLeaf(text))
  {
    hide Literal, JsonParse, Denotes;
    match Literal(t)
    case Some(text) =>
      OnlyALiteral(t, TextLeaf(text));
      ParseIsTheValue(Quoted(t), TextLeaf(text));
    case None =>
      if JsonParse(Quoted(t)).Some? {
        OnlyALiteral(t, JsonParse(Quoted(t)).value);
        ParseIsTheValue(Quoted(t), JsonParse(Quoted(t)).value);
      }
  }

  /** Each of the eight letters after a backslash. */
  lemma ShortEscapes(i: nat)
    requires i < 8
    ensures JsonParse([QUOTE, BACKSLASH, LETTERS[i], QUOTE]) == Some(TextLeaf([VALUES[i]]))
  {
    hide JsonParse;
    var t := [BACKSLASH, LETTERS[i]];
    assert Position(LETTERS, LETTERS[i]) == Some(i) by { LettersDiffer(i); }
    assert t[2..] == [] && Literal(t[2..]) == Some([]);
    assert [VALUES[i]] + [] == [VALUES[i]];
    LiteralMeaning(t);
    assert Quoted(t) == [QUOTE, BACKSLASH, LETTERS[i], QUOTE];
  }

  lemma LettersDiffer(i: nat)
    requires i < 8
    ensures Position(LETTERS, LETTERS[i]) == Some(i)
  {
    hide Position, LETTERS;
    TheLetters();
    var j := Position(LETTERS, LETTERS[i]).value;
    assert LETTERS[j] == LETTERS[i];
  }

  /** Every spelling of a code unit by its four hexadecimal digits, each from either table. */
  lemma HexEscapes(a: nat, b: nat, c: nat, d: nat, ta: Text, tb: Text, tc: Text, td: Text)
    requires a < 16 && b < 16 && c < 16 && d < 16
    requires {ta, tb, tc, td} <= {LOWER, UPPER}
    ensures |ta| == |tb| == |tc| == |td| == 16
    ensures JsonParse([QUOTE, BACKSLASH, 'u' as int, ta[a], tb[b], tc[c], td[d], QUOTE])
         == Some(TextLeaf([4096 * a + 256 * b + 16 * c + d]))
  {
    hide JsonParse, Position, HexOf, LOWER, UPPER;
    assert ta in {LOWER, UPPER} && tb in {LOWER, UPPER} && tc in {LOWER, UPPER} && td in {LOWER, UPPER};
    DigitOf(a, ta);
    DigitOf(b, tb);
    DigitOf(c, tc);
    DigitOf(d, td);
    var t := [BACKSLASH, 'u' as int, ta[a], tb[b], tc[c], td[d]];
    NoU();
    assert t[2..6] == [ta[a], tb[b], tc[c], td[d]];
    assert t[6..] == [] && Literal(t[6..]) == Some([]);
    var u := 4096 * a + 256 * b + 16 * c + d;
    assert [u] + [] == [u];
    assert Literal(t) == Some([u]);
    LiteralMeaning(t);
    assert Quoted(t) == [QUOTE, BACKSLASH, 'u' as int, ta[a], tb[b], tc[c], td[d], QUOTE];
  }

  lemma DigitOf(a: nat, table: Text)
    requires a < 16 && table in {LOWER, UPPER}
    ensures |table| == 16 && HexOf(table[a]) == Some(a)
  {
    hide Position;
    forall i | 0 <= i < 16 ensures LOWER[i] == if i < 10 then ZERO + i else 'a' as int + (i - 10) {
    }
    forall i | 0 <= i < 16 ensures UPPER[i] == if i < 10 then ZERO + i else 'A' as int + (i - 10) {
    }
    if Position(LOWER, table[a]).Some? {
      assert LOWER[Position(LOWER, table[a]).value] == table[a];
    } else {
      assert UPPER[Position(UPPER, table[a]).value] == table[a];
    }
  }

  /** A text of units from U+0020 on, without quote and backslash, stands for itself. */
  lemma {:induction false} PlainStands(t: Text)
    requires forall i | 0 <= i < |t| :: t[i] >= 0x20 && t[i] != QUOTE && t[i] != BACKSLASH
    ensures Literal(t) == Some(t) && JsonParse(Quoted(t)) == Some(TextLeaf(t))
  {
    hide JsonParse;
    LiteralMeaning(t);
    if t != [] {
      PlainStands(t[1..]);
      assert [t[0]] + t[1..] == t;
    }
  }

  /** A text is the number of its own characters exactly when it matches the expression for numbers. */
  lemma NumberMeaning(t: Text)
    ensures JsonParse(t) == Some(NumberToken(t)) <==> Matches(NUMBER, t)
  {
    hide JsonParse, Matches, White;
    ParseIsTheValue(t, NumberToken(t));
    if Matches(NUMBER, t) {
      assert t[..0] == [] && t[|t|..] == [] && t[0..|t|] == t;
      assert White(t[..0]) && White(t[|t|..]) by { NothingIsWhite(); }
      assert Bare(t[0..|t|], NumberToken(t));
    }
  }
}
