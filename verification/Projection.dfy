/** Whether a projection gives back the file's own columns, in whatever order it names them. */
module Projection {
  import opened Wrappers
  import opened Arrow

  datatype Column = Column(name: string, shape: DataType)

  /** A projection as planned: none at all, one that does not plan, or the field of each expression. */
  datatype Projection = All | Unplanned | Columns(fields: seq<Option<Field>>)

  // ---- Names in order ----

  predicate Before(a: string, b: string) {
    a == [] || (b != [] && (a[0] < b[0] || (a[0] == b[0] && Before(a[1..], b[1..]))))
  }

  lemma {:induction false} BeforeIsTotal(a: string, b: string)
    ensures Before(a, b) || Before(b, a)
  {
    if a != [] && b != [] && a[0] == b[0] {
      BeforeIsTotal(a[1..], b[1..]);
    }
  }

  lemma {:induction false} BeforeIsAntisymmetric(a: string, b: string)
    requires Before(a, b) && Before(b, a)
    ensures a == b
  {
    if a != [] {
      BeforeIsAntisymmetric(a[1..], b[1..]);
      assert a == [a[0]] + a[1..] && b == [b[0]] + b[1..];
    }
  }

  lemma {:induction false} BeforeIsTransitive(a: string, b: string, c: string)
    requires Before(a, b) && Before(b, c)
    ensures Before(a, c)
  {
    if a != [] && a[0] == b[0] == c[0] {
      BeforeIsTransitive(a[1..], b[1..], c[1..]);
    }
  }

  predicate Sorted(s: seq<Column>) {
    forall i, j :: 0 <= i < j < |s| ==> Before(s[i].name, s[j].name)
  }

  /** Stable, as the standard sort is: an equal name goes behind the ones already placed. */
  function Placed(c: Column, s: seq<Column>): seq<Column> {
    if s == [] || !Before(s[0].name, c.name) then [c] + s else [s[0]] + Placed(c, s[1..])
  }

  function SortedByName(s: seq<Column>): seq<Column> {
    if s == [] then [] else Placed(s[|s| - 1], SortedByName(s[..|s| - 1]))
  }

  lemma {:induction false} PlacedHolds(c: Column, s: seq<Column>)
    ensures multiset(Placed(c, s)) == multiset(s) + multiset{c}
  {
    if s != [] && Before(s[0].name, c.name) {
      PlacedHolds(c, s[1..]);
      assert s == [s[0]] + s[1..];
    }
  }

  lemma {:induction false} PlacedKeeps(c: Column, s: seq<Column>)
    requires Sorted(s)
    ensures Sorted(Placed(c, s)) && multiset(Placed(c, s)) == multiset(s) + multiset{c}
  {
    PlacedHolds(c, s);
    if s != [] && Before(s[0].name, c.name) {
      PlacedKeeps(c, s[1..]);
      forall d <- Placed(c, s[1..])
        ensures Before(s[0].name, d.name)
      {
        assert d in multiset(Placed(c, s[1..]));
      }
    } else {
      forall d <- s
        ensures Before(c.name, d.name)
      {
        BeforeIsTotal(s[0].name, c.name);
        if d != s[0] {
          BeforeIsTransitive(c.name, s[0].name, d.name);
        }
      }
    }
  }

  lemma {:induction false} SortingKeeps(s: seq<Column>)
    ensures Sorted(SortedByName(s)) && multiset(SortedByName(s)) == multiset(s)
  {
    if s != [] {
      SortingKeeps(s[..|s| - 1]);
      PlacedKeeps(s[|s| - 1], SortedByName(s[..|s| - 1]));
      assert s == s[..|s| - 1] + [s[|s| - 1]];
    }
  }

  predicate DistinctNames(s: seq<Column>) {
    forall i, j :: 0 <= i < j < |s| ==> s[i].name != s[j].name
  }

  predicate NamesTell(s: seq<Column>) {
    forall i, j :: 0 <= i < |s| && 0 <= j < |s| && s[i].name == s[j].name ==> s[i] == s[j]
  }

  lemma {:induction false} SameFirst(a: seq<Column>, b: seq<Column>)
    requires Sorted(a) && Sorted(b) && multiset(a) == multiset(b) && NamesTell(a) && a != [] && b != []
    ensures a[0] == b[0]
  {
    assert a[0] in multiset(b) && b[0] in multiset(a);
    var j :| 0 <= j < |b| && b[j] == a[0];
    var k :| 0 <= k < |a| && a[k] == b[0];
    if j > 0 && k > 0 {
      BeforeIsAntisymmetric(a[0].name, b[0].name);
    }
  }

  /** Columns a name tells apart are in order in one way only. */
  lemma {:induction false} SortedOnce(a: seq<Column>, b: seq<Column>)
    requires Sorted(a) && Sorted(b) && multiset(a) == multiset(b) && NamesTell(a)
    ensures a == b
  {
    assert |a| == |multiset(a)| == |multiset(b)| == |b|;
    if a != [] {
      SameFirst(a, b);
      assert a == [a[0]] + a[1..] && b == [b[0]] + b[1..];
      assert multiset(a[1..]) == multiset(a) - multiset{a[0]};
      assert multiset(b[1..]) == multiset(b) - multiset{b[0]};
      SortedOnce(a[1..], b[1..]);
    }
  }

  // ---- The comparison ----

  function Shaped(fields: seq<Field>): seq<Column> {
    seq(|fields|, i requires 0 <= i < |fields| => Column(fields[i].name, Shape(fields[i].type_)))
  }

  predicate Planned(p: Projection) {
    p.Columns? && forall i :: 0 <= i < |p.fields| ==> p.fields[i].Some?
  }

  function Fields(p: Projection): seq<Field>
    requires Planned(p)
  {
    seq(|p.fields|, i requires 0 <= i < |p.fields| => p.fields[i].value)
  }

  /** The projected columns and the file's, each in order of name, are the same. */
  predicate Accepts(projected: seq<Field>, schema: seq<Field>) {
    SortedByName(Shaped(projected)) == SortedByName(Shaped(schema))
  }

  /** Whether the projection would return the file's own schema. */
  method EveryColumn(projection: Projection, schema: seq<Field>) returns (same: bool)
    ensures same == (projection.All? || (Planned(projection) && Accepts(Fields(projection), schema)))
  {
    if projection.All? {
      return true;
    }
    if projection.Unplanned? {
      return false;
    }
    var projected: seq<Column> := [];
    for i := 0 to |projection.fields|
      invariant forall j :: 0 <= j < i ==> projection.fields[j].Some?
      invariant |projected| == i
      invariant forall j :: 0 <= j < i ==>
                  projected[j] == Column(projection.fields[j].value.name, Shape(projection.fields[j].value.type_))
    {
      if projection.fields[i].None? {
        return false;
      }
      var field := projection.fields[i].value;
      projected := projected + [Column(field.name, Shape(field.type_))];
    }
    assert projected == Shaped(Fields(projection));
    same := SortedByName(projected) == SortedByName(Shaped(schema));
  }

  /** Every column of one list is, up to nullability, a column of the other. */
  predicate Covers(one: seq<Field>, other: seq<Field>) {
    forall i :: 0 <= i < |other| ==> Has(one, other[i])
  }

  predicate Has(fields: seq<Field>, f: Field) {
    exists j :: 0 <= j < |fields| && AlikeFields(fields[j], f)
  }

  /**
   Where the file's columns have distinct names, the comparison accepts exactly the projections
   that are the file's columns rearranged, each alike but for nullability.
   */
  lemma {:induction false} AcceptedIsRearranged(projected: seq<Field>, schema: seq<Field>)
    requires DistinctNames(Shaped(schema))
    ensures Accepts(projected, schema) <==> |projected| == |schema| && Covers(projected, schema)
    ensures Accepts(projected, schema) ==> Covers(schema, projected)
  {
    var p, h := Shaped(projected), Shaped(schema);
    SortingKeeps(p);
    SortingKeeps(h);
    if SortedByName(p) == SortedByName(h) {
      SameColumnsCover(projected, schema);
      SameColumnsCover(schema, projected);
      assert |p| == |multiset(p)| == |multiset(h)| == |h|;
    }
    if |projected| == |schema| && Covers(projected, schema) {
      CoveredColumnsAreSame(projected, schema);
      NamesTellSorted(h);
      SortedOnce(SortedByName(h), SortedByName(p));
    }
  }

  lemma {:induction false} NamesTellSorted(h: seq<Column>)
    requires DistinctNames(h)
    ensures NamesTell(SortedByName(h))
  {
    SortingKeeps(h);
    var s := SortedByName(h);
    forall i, j | 0 <= i < |s| && 0 <= j < |s| && s[i].name == s[j].name
      ensures s[i] == s[j]
    {
      assert s[i] in multiset(h) && s[j] in multiset(h);
    }
  }

  lemma {:induction false} SameColumnsCover(one: seq<Field>, other: seq<Field>)
    requires multiset(Shaped(one)) == multiset(Shaped(other))
    ensures Covers(one, other)
  {
    forall i | 0 <= i < |other|
      ensures Has(one, other[i])
    {
      assert Shaped(other)[i] in multiset(Shaped(other));
      var j :| 0 <= j < |one| && Shaped(one)[j] == Shaped(other)[i];
      ShapeDecides(one[j].type_, other[i].type_);
    }
  }

  lemma {:induction false} CoveredColumnsAreSame(projected: seq<Field>, schema: seq<Field>)
    requires DistinctNames(Shaped(schema)) && |projected| == |schema| && Covers(projected, schema)
    ensures multiset(Shaped(projected)) == multiset(Shaped(schema))
  {
    var p, h := Shaped(projected), Shaped(schema);
    forall c
      ensures multiset(h)[c] <= multiset(p)[c]
    {
      if c in multiset(h) {
        var i :| 0 <= i < |h| && h[i] == c;
        var j :| 0 <= j < |projected| && AlikeFields(projected[j], schema[i]);
        ShapeDecides(projected[j].type_, schema[i].type_);
        assert p[j] == c && c in multiset(p);
        OnceOnly(h, c);
      }
    }
    assert multiset(h) <= multiset(p);
    assert |multiset(p) - multiset(h)| == 0;
    assert multiset(p) == multiset(h) + (multiset(p) - multiset(h));
  }

  lemma {:induction false} OnceOnly(h: seq<Column>, c: Column)
    requires DistinctNames(h)
    ensures multiset(h)[c] <= 1
  {
    if h != [] {
      assert h == [h[0]] + h[1..];
      OnceOnly(h[1..], c);
      if h[0] == c {
        assert c !in h[1..];
      }
    }
  }
}
