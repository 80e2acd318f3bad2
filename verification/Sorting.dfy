/**
 The order of JavaScript strings and sorting by a comparison, as the canonical encoder uses them.
 */
module Sorting {
  import opened CodeUnits

  /** `left < right` on strings: the first differing code unit decides, and a prefix comes first. */
  predicate TextLess(a: Text, b: Text) {
    b != [] && (a == [] || a[0] < b[0] || (a[0] == b[0] && TextLess(a[1..], b[1..])))
  }

  lemma {:induction false} TextLessIsStrict(a: Text, b: Text)
    ensures !(TextLess(a, b) && TextLess(b, a))
    ensures a != b <==> TextLess(a, b) || TextLess(b, a)
    decreases |a|
  {
    if a != [] && b != [] && a[0] == b[0] {
      TextLessIsStrict(a[1..], b[1..]);
      assert a == [a[0]] + a[1..] && b == [b[0]] + b[1..];
    }
  }

  lemma {:induction false} TextLessTransitive(a: Text, b: Text, c: Text)
    requires TextLess(a, b) && TextLess(b, c)
    ensures TextLess(a, c)
    decreases |a|
  {
    if a != [] && a[0] == b[0] && b[0] == c[0] {
      TextLessTransitive(a[1..], b[1..], c[1..]);
    }
  }

  /** less orders the elements of s strictly and leaves no two of them tied. */
  ghost predicate StrictOn<T(!new)>(less: (T, T) -> bool, s: set<T>) {
    && (forall a, b | a in s && b in s && a != b :: less(a, b) != less(b, a))
    && (forall a | a in s :: !less(a, a))
    && (forall a, b, c | a in s && b in s && c in s && less(a, b) && less(b, c) :: less(a, c))
  }

  function Elements<T>(s: seq<T>): set<T> {
    set x | x in s
  }

  predicate NoRepeats<T(==)>(s: seq<T>) {
    forall i, j | 0 <= i < j < |s| :: s[i] != s[j]
  }

  lemma NoRepeatsUnfold<T>(s: seq<T>)
    requires s != []
    ensures NoRepeats(s) <==> s[0] !in s[1..] && NoRepeats(s[1..])
  {
  }

  ghost predicate Ascending<T(!new)>(less: (T, T) -> bool, s: seq<T>) {
    s != [] ==> (forall x | x in s[1..] :: less(s[0], x)) && Ascending(less, s[1..])
  }

  function Insert<T>(x: T, s: seq<T>, less: (T, T) -> bool): seq<T> {
    if s == [] || less(x, s[0]) then [x] + s else [s[0]] + Insert(x, s[1..], less)
  }

  function Sort<T>(s: seq<T>, less: (T, T) -> bool): seq<T> {
    if s == [] then [] else Insert(s[0], Sort(s[1..], less), less)
  }

  lemma ElementsUnfold<T>(s: seq<T>)
    requires s != []
    ensures Elements(s) == {s[0]} + Elements(s[1..])
  {
  }

  lemma EmptyElements<T>(s: seq<T>)
    ensures Elements(s) == {} <==> s == []
  {
    if s != [] { assert s[0] in Elements(s); }
  }

  lemma {:induction false} InsertSorts<T(!new)>(x: T, s: seq<T>, less: (T, T) -> bool)
    requires Ascending(less, s) && x !in s && StrictOn(less, {x} + Elements(s))
    ensures Ascending(less, Insert(x, s, less)) && Elements(Insert(x, s, less)) == {x} + Elements(s)
    ensures |Insert(x, s, less)| == |s| + 1
  {
    if s != [] {
      ElementsUnfold(s);
      if less(x, s[0]) {
        assert ([x] + s)[1..] == s;
        assert Elements([x] + s) == {x} + Elements(s);
      } else {
        InsertSorts(x, s[1..], less);
        var tail := Insert(x, s[1..], less);
        assert ([s[0]] + tail)[1..] == tail;
        assert Elements([s[0]] + tail) == {s[0]} + Elements(tail);
        assert forall y | y in tail :: y in Elements(tail);
      }
    }
  }

  /** Sorting a list without repeats gives its elements in ascending order. */
  lemma {:induction false} SortSorts<T(!new)>(s: seq<T>, less: (T, T) -> bool)
    requires NoRepeats(s) && StrictOn(less, Elements(s))
    ensures Ascending(less, Sort(s, less)) && Elements(Sort(s, less)) == Elements(s) && |Sort(s, less)| == |s|
  {
    if s != [] {
      NoRepeatsUnfold(s);
      ElementsUnfold(s);
      SortSorts(s[1..], less);
      var tail := Sort(s[1..], less);
      assert s[0] in tail <==> s[0] in Elements(tail);
      InsertSorts(s[0], tail, less);
    }
  }

  lemma {:induction false} AscendingHasNoRepeats<T(!new)>(s: seq<T>, less: (T, T) -> bool)
    requires Ascending(less, s) && StrictOn(less, Elements(s))
    ensures NoRepeats(s)
  {
    if s != [] {
      ElementsUnfold(s);
      AscendingHasNoRepeats(s[1..], less);
      assert s[0] in Elements(s);
      NoRepeatsUnfold(s);
    }
  }

  /** Only one ascending list has given elements. */
  lemma {:induction false} AscendingUnique<T(!new)>(s: seq<T>, t: seq<T>, less: (T, T) -> bool)
    requires Ascending(less, s) && Ascending(less, t) && Elements(s) == Elements(t) && StrictOn(less, Elements(s))
    ensures s == t
    decreases |s|
  {
    EmptyElements(s);
    EmptyElements(t);
    if s != [] {
      ElementsUnfold(s);
      ElementsUnfold(t);
      assert s[0] in Elements(t) && t[0] in Elements(s);
      assert s[0] == t[0];
      AscendingHasNoRepeats(s, less);
      AscendingHasNoRepeats(t, less);
      NoRepeatsUnfold(s);
      NoRepeatsUnfold(t);
      assert s[0] !in Elements(s[1..]) && t[0] !in Elements(t[1..]);
      assert Elements(s[1..]) == Elements(s) - {s[0]} == Elements(t[1..]);
      AscendingUnique(s[1..], t[1..], less);
      assert s == [s[0]] + s[1..] && t == [t[0]] + t[1..];
    }
  }

  /** An ascending list sorts to itself. */
  lemma SortKeepsAscending<T(!new)>(s: seq<T>, less: (T, T) -> bool)
    requires Ascending(less, s) && StrictOn(less, Elements(s))
    ensures Sort(s, less) == s
  {
  }
}
