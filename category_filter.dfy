/**
 * The selection step before the union: keep the features whose geometry is exactly a
 * Polygon, then those whose label is one of the three occupied-area categories.
 */
module CategoryFilter {
  import opened Geometry
  import opened Seqs

  /** The labels whose polygons are merged. */
  const Categories: set<string> := {"CADR and CALR", "Occupied", "Occupied Crimea"}

  /** The mask `isinstance(x, Polygon)`: a MultiPolygon is not a Polygon. */
  predicate IsPolygon(f: Feature)
  {
    f.geometry.Poly?
  }

  /** `name.isin([...])` against the fixed category labels. */
  predicate InCategories(f: Feature)
  {
    f.name in Categories
  }

  /** A boolean mask applied to a frame: the rows it selects, in their original order. */
  function Keep(fs: seq<Feature>, mask: Feature -> bool): seq<Feature>
  {
    if fs == [] then [] else (if mask(fs[0]) then [fs[0]] else []) + Keep(fs[1..], mask)
  }

  /** The rows that reach the union: polygons first, then by category. */
  function SelectForMerge(fs: seq<Feature>): seq<Feature>
  {
    Keep(Keep(fs, IsPolygon), InCategories)
  }

  /** Masking commutes with concatenation, so the kept rows stay in input order. */
  lemma {:induction false} KeepAppend(a: seq<Feature>, b: seq<Feature>, mask: Feature -> bool)
    ensures Keep(a + b, mask) == Keep(a, mask) + Keep(b, mask)
  {
    if a == [] {
      assert a + b == b;
    } else {
      assert (a + b)[0] == a[0] && (a + b)[1..] == a[1..] + b;
      KeepAppend(a[1..], b, mask);
      SeqAssoc(if mask(a[0]) then [a[0]] else [], Keep(a[1..], mask), Keep(b, mask));
    }
  }

  /** A row is kept exactly when it is in the input and the mask selects it. */
  lemma {:induction false} KeepMembers(fs: seq<Feature>, mask: Feature -> bool)
    ensures forall f :: f in Keep(fs, mask) <==> f in fs && mask(f)
  {
    if fs != [] {
      KeepMembers(fs[1..], mask);
      assert fs == [fs[0]] + fs[1..];
    }
  }

  /** Applying two masks one after the other keeps what their conjunction keeps. */
  lemma {:induction false} KeepTwice(fs: seq<Feature>, first: Feature -> bool, second: Feature -> bool, both: Feature -> bool)
    requires forall f :: both(f) == (first(f) && second(f))
    ensures Keep(Keep(fs, first), second) == Keep(fs, both)
  {
    if fs != [] {
      KeepTwice(fs[1..], first, second, both);
      KeepAppend(if first(fs[0]) then [fs[0]] else [], Keep(fs[1..], first), second);
    }
  }

  /** The rows that reach the union are the Polygon rows whose label is a category, in input order. */
  lemma SelectForMergeSpec(fs: seq<Feature>)
    ensures forall f :: f in SelectForMerge(fs) <==> f in fs && f.geometry.Poly? && f.name in Categories
    ensures forall a, b :: fs == a + b ==> SelectForMerge(fs) == SelectForMerge(a) + SelectForMerge(b)
    ensures |SelectForMerge(fs)| <= |fs|
  {
    KeepMembers(fs, IsPolygon);
    KeepMembers(Keep(fs, IsPolygon), InCategories);
    forall a, b | fs == a + b ensures SelectForMerge(fs) == SelectForMerge(a) + SelectForMerge(b) {
      KeepAppend(a, b, IsPolygon);
      KeepAppend(Keep(a, IsPolygon), Keep(b, IsPolygon), InCategories);
    }
    KeepShrinks(fs, IsPolygon);
    KeepShrinks(Keep(fs, IsPolygon), InCategories);
  }

  lemma {:induction false} KeepShrinks(fs: seq<Feature>, mask: Feature -> bool)
    ensures |Keep(fs, mask)| <= |fs|
  {
    if fs != [] { KeepShrinks(fs[1..], mask); }
  }

  /** Applying the same mask twice keeps what applying it once keeps. */
  lemma {:induction false} KeepIdempotent(fs: seq<Feature>, mask: Feature -> bool)
    ensures Keep(Keep(fs, mask), mask) == Keep(fs, mask)
  {
    if fs != [] {
      var head := if mask(fs[0]) then [fs[0]] else [];
      assert head != [] ==> head[1..] == [];
      assert Keep(head, mask) == head;
      KeepAppend(head, Keep(fs[1..], mask), mask);
      KeepIdempotent(fs[1..], mask);
    }
  }

  /** Both masks at once. */
  predicate Selected(f: Feature)
  {
    IsPolygon(f) && InCategories(f)
  }

  /** Selecting twice selects nothing more. */
  lemma SelectForMergeIdempotent(fs: seq<Feature>)
    ensures SelectForMerge(SelectForMerge(fs)) == SelectForMerge(fs)
  {
    KeepTwice(fs, IsPolygon, InCategories, Selected);
    KeepTwice(SelectForMerge(fs), IsPolygon, InCategories, Selected);
    KeepIdempotent(fs, Selected);
  }

  /** Three polygons and a multipolygon: only the two polygons with a category label are merged. */
  lemma SelectForMergeExample(p1: Polygon, p2: Polygon, p3: Polygon, m: Polygon)
    ensures SelectForMerge([
      Feature("CADR and CALR", Poly(p1)),
      Feature("Occupied", Poly(p2)),
      Feature("Other", Poly(p3)),
      Feature("Occupied", Multi([m]))]) == [Feature("CADR and CALR", Poly(p1)), Feature("Occupied", Poly(p2))]
  {
    var f1, f2 := Feature("CADR and CALR", Poly(p1)), Feature("Occupied", Poly(p2));
    var f3, f4 := Feature("Other", Poly(p3)), Feature("Occupied", Multi([m]));
    var fs := [f1, f2, f3, f4];
    assert fs[1..] == [f2, f3, f4] && fs[1..][1..] == [f3, f4] && fs[1..][1..][1..] == [f4];
    assert Keep([f4], IsPolygon) == [];
    assert Keep([f3, f4], IsPolygon) == [f3];
    assert Keep([f2, f3, f4], IsPolygon) == [f2, f3];
    assert Keep(fs, IsPolygon) == [f1, f2, f3];
    var ps := [f1, f2, f3];
    assert ps[1..] == [f2, f3] && ps[1..][1..] == [f3];
    assert "Other"[1] != "Occupied"[1];
    assert |"Other"| != |"CADR and CALR"| && |"Other"| != |"Occupied Crimea"|;
    assert "Other" !in Categories;
    assert Keep([f3], InCategories) == [];
    assert Keep([f2, f3], InCategories) == [f2];
  }
}
