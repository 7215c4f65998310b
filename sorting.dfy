/**
 * Python's ordering of `str` values (code point by code point, a proper prefix first)
 * and `sorted()` over a directory listing.
 */
module Sorting {

  /** `a < b` on Python strings. */
  predicate LexLt(a: string, b: string)
  {
    if |b| == 0 then false
    else if |a| == 0 then true
    else if a[0] != b[0] then a[0] < b[0]
    else LexLt(a[1..], b[1..])
  }

  /** `a <= b` on Python strings. */
  predicate LexLe(a: string, b: string)
  {
    !LexLt(b, a)
  }

  lemma {:induction false} LexLtIrreflexive(a: string)
    ensures !LexLt(a, a)
  {
    if |a| > 0 { LexLtIrreflexive(a[1..]); }
  }

  lemma {:induction false} LexLtAsymmetric(a: string, b: string)
    ensures LexLt(a, b) ==> !LexLt(b, a)
  {
    if |a| > 0 && |b| > 0 && a[0] == b[0] { LexLtAsymmetric(a[1..], b[1..]); }
  }

  lemma {:induction false} LexLtTransitive(a: string, b: string, c: string)
    requires LexLt(a, b) && LexLt(b, c)
    ensures LexLt(a, c)
  {
    if |a| > 0 && a[0] == b[0] && b[0] == c[0] { LexLtTransitive(a[1..], b[1..], c[1..]); }
  }

  /** Two different strings are always ordered one way or the other. */
  lemma {:induction false} LexLtTotal(a: string, b: string)
    requires a != b
    ensures LexLt(a, b) || LexLt(b, a)
  {
    if |a| > 0 && |b| > 0 && a[0] == b[0] {
      assert a == [a[0]] + a[1..] && b == [b[0]] + b[1..];
      LexLtTotal(a[1..], b[1..]);
    }
  }

  /** A proper prefix comes first. */
  lemma {:induction false} ProperPrefixFirst(a: string, b: string)
    requires b != []
    ensures LexLt(a, a + b)
  {
    if |a| > 0 {
      assert (a + b)[0] == a[0] && (a + b)[1..] == a[1..] + b;
      ProperPrefixFirst(a[1..], b);
    }
  }

  predicate Sorted(s: seq<string>)
  {
    forall i, j :: 0 <= i < j < |s| ==> LexLe(s[i], s[j])
  }

  predicate StrictlySorted(s: seq<string>)
  {
    forall i, j :: 0 <= i < j < |s| ==> LexLt(s[i], s[j])
  }

  predicate Distinct(s: seq<string>)
  {
    forall i, j :: 0 <= i < j < |s| ==> s[i] != s[j]
  }

  /** `x` put into `s` before the first element not smaller than it. */
  function Insert(x: string, s: seq<string>): (r: seq<string>)
    ensures multiset(r) == multiset(s) + multiset{x}
  {
    if s == [] then [x]
    else if LexLe(x, s[0]) then [x] + s
    else
      assert s == [s[0]] + s[1..];
      [s[0]] + Insert(x, s[1..])
  }

  lemma {:induction false} InsertSorted(x: string, s: seq<string>)
    requires Sorted(s)
    ensures Sorted(Insert(x, s))
    ensures StrictlySorted(s) && x !in s ==> StrictlySorted(Insert(x, s))
  {
    var strict := StrictlySorted(s) && x !in s;
    if s == [] {
    } else if LexLe(x, s[0]) {
      BelowSorted(x, s, strict);
      ConsSorted(x, s, strict);
    } else {
      var rest := s[1..];
      InsertSorted(x, rest);
      assert s == [s[0]] + rest;
      HeadBelowInsert(x, s, strict);
      ConsSorted(s[0], Insert(x, rest), strict);
    }
  }

  /** An element not above the head of a sorted sequence is below all of it. */
  lemma BelowSorted(x: string, s: seq<string>, strict: bool)
    requires Sorted(s) && s != [] && LexLe(x, s[0])
    requires strict ==> StrictlySorted(s) && x !in s
    ensures forall y :: y in multiset(s) ==> if strict then LexLt(x, y) else LexLe(x, y)
  {
    if strict {
      LexLtTotal(x, s[0]);
    }
    forall y | y in multiset(s) ensures if strict then LexLt(x, y) else LexLe(x, y) {
      var j :| 0 <= j < |s| && s[j] == y;
      if j > 0 {
        LeChain(x, s[0], s[j]);
        if strict { LexLtTransitive(x, s[0], s[j]); }
      }
    }
  }

  /** The head of a sorted sequence stays below everything once a larger element is inserted into its tail. */
  lemma HeadBelowInsert(x: string, s: seq<string>, strict: bool)
    requires Sorted(s) && s != [] && !LexLe(x, s[0])
    requires strict ==> StrictlySorted(s)
    ensures forall y :: y in multiset(Insert(x, s[1..])) ==> if strict then LexLt(s[0], y) else LexLe(s[0], y)
  {
    LexLtAsymmetric(s[0], x);
    forall y | y in multiset(Insert(x, s[1..])) ensures if strict then LexLt(s[0], y) else LexLe(s[0], y) {
      if y != x {
        assert y in multiset(s[1..]);
        var j :| 0 <= j < |s[1..]| && s[1..][j] == y;
        assert s[j + 1] == y;
      }
    }
  }

  /** Putting a least element in front of a sorted sequence keeps it sorted. */
  lemma ConsSorted(head: string, rest: seq<string>, strict: bool)
    requires Sorted(rest) && (strict ==> StrictlySorted(rest))
    requires forall y :: y in multiset(rest) ==> if strict then LexLt(head, y) else LexLe(head, y)
    ensures Sorted([head] + rest) && (strict ==> StrictlySorted([head] + rest))
  {
    var r := [head] + rest;
    forall i, j | 0 <= i < j < |r| ensures LexLe(r[i], r[j]) && (strict ==> LexLt(r[i], r[j])) {
      assert r[j] == rest[j - 1] && r[j] in multiset(rest);
      if i > 0 {
        assert r[i] == rest[i - 1];
      }
      LexLtAsymmetric(r[i], r[j]);
    }
  }

  lemma LeChain(a: string, b: string, c: string)
    requires LexLe(a, b) && LexLe(b, c)
    ensures LexLe(a, c)
  {
    if LexLt(c, a) {
      if b == c {
      } else {
        LexLtTotal(b, c);
        LexLtTransitive(b, c, a);
      }
    }
  }

  /** `sorted(s)`: the elements of `s` in ascending order; strictly ascending when they are pairwise different. */
  function Sort(s: seq<string>): (r: seq<string>)
    ensures Sorted(r)
    ensures multiset(r) == multiset(s)
    ensures Distinct(s) ==> StrictlySorted(r)
  {
    if s == [] then [] else
      var init := s[..|s| - 1];
      assert s == init + [s[|s| - 1]];
      var sortedInit := Sort(init);
      assert Distinct(s) ==> s[|s| - 1] !in multiset(init);
      InsertSorted(s[|s| - 1], sortedInit);
      Insert(s[|s| - 1], sortedInit)
  }

  /** A set of names has exactly one strictly ascending listing. */
  lemma {:induction false} StrictlySortedUnique(a: seq<string>, b: seq<string>)
    requires StrictlySorted(a) && StrictlySorted(b)
    requires forall x :: x in a <==> x in b
    ensures a == b
    decreases |a|
  {
    assert a != [] ==> a[0] in a;
    assert b != [] ==> b[0] in b;
    if a != [] && b != [] {
      assert a[0] in b && b[0] in a;
      if a[0] != b[0] {
        var i :| 0 <= i < |a| && a[i] == b[0];
        var j :| 0 <= j < |b| && b[j] == a[0];
        assert i > 0 && j > 0;
        assert LexLt(a[0], b[0]);
        assert LexLt(b[0], a[0]);
        LexLtAsymmetric(a[0], b[0]);
      }
      LexLtIrreflexive(a[0]);
      assert a[0] !in a[1..];
      assert b[0] !in b[1..];
      assert a == [a[0]] + a[1..] && b == [b[0]] + b[1..];
      forall x ensures x in a[1..] <==> x in b[1..] {
        assert x in a <==> x in a[1..] || x == a[0];
        assert x in b <==> x in b[1..] || x == b[0];
      }
      StrictlySortedUnique(a[1..], b[1..]);
    }
  }

  /** Some listing of the names of a finite set, in no particular order. */
  ghost function Enumerate(names: set<string>): (r: seq<string>)
    ensures forall x :: x in r <==> x in names
    ensures Distinct(r)
  {
    if names == {} then [] else
      var x :| x in names;
      [x] + Enumerate(names - {x})
  }

  /** The names of a directory listing in `sorted()` order. */
  ghost function SortedListing(names: set<string>): (r: seq<string>)
    ensures forall x :: x in r <==> x in names
    ensures StrictlySorted(r)
  {
    var e := Enumerate(names);
    var r := Sort(e);
    assert forall x :: x in r <==> x in multiset(e);
    r
  }

  /** Sorting any listing of the names gives `SortedListing` of them. */
  lemma SortIsSortedListing(s: seq<string>, names: set<string>)
    requires Distinct(s) && forall x :: x in s <==> x in names
    ensures Sort(s) == SortedListing(names)
  {
    var r := Sort(s);
    assert forall x :: x in r <==> x in multiset(s);
    StrictlySortedUnique(r, SortedListing(names));
  }
}
