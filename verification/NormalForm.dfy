/**
 What the translated statement looks like: in the target's spelling at every depth, reading the
 tables it read before, and unchanged by being translated again.
 */
module NormalForm {
  import opened Wrappers
  import opened Syntax
  import opened Functions
  import opened Rewrite
  import opened Visit
  import opened Facts
  import opened Shapes

  predicate AboutTables(f: Fact) {
    f.Unread? || f.Undefined?
  }

  /** A fact that says nothing of expressions, only of the queries under them. */
  predicate Silent(f: Fact) {
    AboutTables(f) || f.OneLimit?
  }

  /** A fact the region tests carry over: they bring in no new table, bound or string. */
  predicate Passive(f: Fact) {
    Silent(f) || f.Inclusive? || f.NumericCoordinates?
  }

  predicate Follows(v: Visitor, f: Fact) {
    Silent(f) || (v.Translator? && (f.Normal? || f.NumericCoordinates?))
  }

  /** What a walk that ends says of a fact before it and after it. */
  predicate Carried(v: Visitor, f: Fact, before: bool, after: bool) {
    if f.Normal? then after
    else if v.Translator? && f.OneLimit? then before
    else if Silent(f) then before == after
    else before ==> after
  }

  // ---- What a region test keeps ----

  lemma {:induction false} TestKeeps(f: Fact, e: Expr)
    requires Passive(f) && RegionTest(e).Ok? && RegionTest(e).value.Some?
    ensures Silent(f) ==> Everywhere(f, e) == Everywhere(f, RegionTest(e).value.value)
    ensures Everywhere(f, e) ==> Everywhere(f, RegionTest(e).value.value)
  {
    match ComparedTest(e.left, e.op, e.right) {
      case Some(_) => ComparedKeeps(f, e);
      case None => BoundedKeeps(f, e);
    }
  }

  lemma {:induction false} BoundedKeeps(f: Fact, e: Expr)
    requires Passive(f) && IsCone(e)
    ensures Silent(f) ==> Everywhere(f, e) == Everywhere(f, RegionTest(e).value.value)
    ensures Everywhere(f, e) ==> Everywhere(f, RegionTest(e).value.value)
  {
    var (call, radius) := BoundedDistance(e.left, e.op, e.right).value;
    EverywhereFew(f, [e.left, e.right]);
    EverywhereNested(f, e.left);
    EverywhereNested(f, e.right);
    WithinKeeps(f, call, radius);
  }

  lemma {:induction false} ComparedKeeps(f: Fact, e: Expr)
    requires Passive(f) && e.Binary? && ComparedTest(e.left, e.op, e.right).Some?
    requires RegionTest(e).Ok?
    ensures Everywhere(f, e) == Everywhere(f, RegionTest(e).value.value)
  {
    EverywhereFew(f, [e.left, e.right]);
    EverywhereNested(f, e.left);
    EverywhereNested(f, e.right);
    var (call, holds) := ComparedTest(e.left, e.op, e.right).value;
    EverywhereNumber(f, if IsRegionFunction(Unnest(e.left)) then e.right else e.left);
    var test := Contains(call).value;
    ContainsKeeps(f, call);
    EverywhereFew(f, [test]);
    assert Everywhere(f, Unary(Not, test)) == Everywhere(f, test);
  }

  lemma {:induction false} ContainsKeeps(f: Fact, call: Expr)
    requires Passive(f) && IsRegionFunction(call) && Contains(call).Ok?
    ensures Everywhere(f, Contains(call).value) == Everywhere(f, call)
  {
    var a, b := call.items[0], call.items[1];
    ItemsOfTwo(call);
    EverywhereFew(f, [a, b]);
    EverywhereFew(f, [b, a]);
  }

  lemma {:induction false} WithinKeeps(f: Fact, call: Expr, radius: Expr)
    requires Passive(f) && IsNamed(call, DISTANCE) && Within(call, radius).Ok? && Within(call, radius).value.Some?
    ensures var circle := Within(call, radius).value.value;
            && (Silent(f) ==> Everywhere(f, circle) == (Everywhere(f, call) && Everywhere(f, radius)))
            && (Everywhere(f, call) && Everywhere(f, radius) ==> Everywhere(f, circle))
  {
    var (row, ra, dec) := RowAndCentre(call.items).value;
    var circle := CallTo("CIRCLE", [ra, dec, radius]);
    CircleKeeps(f, ra, dec, radius);
    EverywhereFew(f, [row, circle]);
    RowKeeps(f, call);
  }

  lemma {:induction false} CircleKeeps(f: Fact, ra: Expr, dec: Expr, radius: Expr)
    requires Passive(f) && IsConstant(ra) && IsConstant(dec)
    ensures Everywhere(f, CallTo("CIRCLE", [ra, dec, radius])) == Everywhere(f, radius)
  {
    EverywhereNumber(f, ra);
    EverywhereNumber(f, dec);
    EverywhereFew(f, [ra, dec, radius]);
  }

  lemma {:induction false} RowKeeps(f: Fact, call: Expr)
    requires Passive(f) && IsNamed(call, DISTANCE) && |call.items| in {2, 4} && RowAndCentre(call.items).Some?
    ensures Silent(f) ==> Everywhere(f, RowAndCentre(call.items).value.0) == Everywhere(f, call)
    ensures Everywhere(f, call) ==> Everywhere(f, RowAndCentre(call.items).value.0)
  {
    if |call.items| == 2 {
      ItemsOfTwo(call);
      var a, b := call.items[0], call.items[1];
      EverywhereFew(f, [a, b]);
      if ConstantPoint(a).Some? { PointEverywhere(f, a); } else { PointEverywhere(f, b); }
    } else {
      FourKeep(f, call.items[0], call.items[1], call.items[2], call.items[3]);
      ItemsOfFour(call);
    }
  }

  lemma {:induction false} FourKeep(f: Fact, a: Expr, b: Expr, c: Expr, d: Expr)
    requires Passive(f) && RowAndCentre([a, b, c, d]).Some?
    ensures var row := RowAndCentre([a, b, c, d]).value.0;
            && (Silent(f) ==> Everywhere(f, row) == EverywhereAll(f, [a, b, c, d]))
            && (EverywhereAll(f, [a, b, c, d]) && (f.NumericCoordinates? ==> !Unnest(a).Quoted? && !Unnest(c).Quoted?)
                ==> Everywhere(f, row))
  {
    EverywhereFew(f, [a, b, c, d]);
    assert [a, b, c, d][..2] == [a, b] && [a, b, c, d][2..] == [c, d];
    if IsConstant(a) && IsConstant(b) {
      EverywhereNumber(f, a);
      EverywhereNumber(f, b);
      PointKeeps(f, c, d);
    } else {
      EverywhereNumber(f, c);
      EverywhereNumber(f, d);
      PointKeeps(f, a, b);
    }
  }

  lemma {:induction false} PointKeeps(f: Fact, a: Expr, b: Expr)
    requires Passive(f)
    ensures Everywhere(f, CallTo("POINT", [a, b]))
         == (Everywhere(f, a) && Everywhere(f, b) && (f.NumericCoordinates? ==> !Unnest(a).Quoted?))
  {
    EverywhereFew(f, [a, b]);
  }

  lemma {:induction false} PointEverywhere(f: Fact, e: Expr)
    requires Passive(f)
    requires ConstantPoint(e).Some?
    ensures Everywhere(f, e)
  {
    EverywhereNested(f, e);
    var point := Unnest(e);
    ItemsOfTwo(point);
    EverywhereFew(f, [point.items[0], point.items[1]]);
    EverywhereNumber(f, point.items[0]);
    EverywhereNumber(f, point.items[1]);
  }

  // ---- What one node keeps ----

  /** A comparison left alone is one the translator would leave alone again. */
  lemma {:induction false} NormalComparison(e: Expr, l: Expr, r: Expr)
    requires e.Binary? && RegionTest(e) == Ok(None)
    requires Walk(Translator, e.left) == Ok(l) && Walk(Translator, e.right) == Ok(r)
    requires Everywhere(Normal, l) && Everywhere(Normal, r)
    ensures RegionTest(Binary(l, e.op, r)) == Ok(None)
  {
    EverywhereNested(Normal, l);
    EverywhereNested(Normal, r);
    assert ComparedTest(l, e.op, r).None?;
    CallKept(e.left, DISTANCE);
    CallKept(e.right, DISTANCE);
    assert ComparedTest(e.left, e.op, e.right).None?;
    match BoundedDistance(e.left, e.op, e.right) {
      case None =>
      case Some((call, _)) => SeparationKept(call);
    }
  }

  lemma {:induction false} SeparationKept(call: Expr)
    requires call.Call? && WalkAll(Translator, call.items).Ok?
    ensures forall radius, radius' ::
              Within(call, radius) == Ok(None) ==>
                Within(call.(items := WalkAll(Translator, call.items).value), radius') == Ok(None)
  {
    PlainKept(Translator, call.items);
    if |call.items| in {2, 4} {
      RowAndCentreKept(call.items);
    }
  }

  lemma {:induction false} TextIsOrdinary(f: Fact, e: Expr)
    requires Unnest(e).Quoted?
    ensures Everywhere(f, e)
  {
    EverywhereNested(f, e);
  }

  lemma {:induction false} NumericKept(call: Expr)
    requires call.Call? && WalkAll(Translator, call.items).Ok?
    requires OfExpr(NumericCoordinates, call)
    ensures OfExpr(NumericCoordinates, call.(items := WalkAll(Translator, call.items).value))
  {
    forall i | 0 <= i < |call.items|
      ensures Unnest(WalkAll(Translator, call.items).value[i]).Quoted? == Unnest(call.items[i]).Quoted?
    {
      WalkAllAt(Translator, call.items, i);
      TextKept(Translator, call.items[i]);
    }
  }

  lemma {:induction false} AfterKeepsTables(v: Visitor, f: Fact, call: Expr)
    requires call.Call? && Silent(f) && AfterExpr(v, call).Ok?
    ensures Everywhere(f, AfterExpr(v, call).value) == EverywhereAll(f, call.items)
  {
    var out := AfterExpr(v, call).value;
    if v.CoordinateSystems? && NamesSystem(call) {
      TextIsOrdinary(f, call.items[0]);
    } else if v.Translator? && AdqlName(call.name) == Some(MOD) {
      RemainderKeeps(f, call);
    }
  }

  lemma {:induction false} RemainderKeeps(f: Fact, call: Expr)
    requires call.Call? && Remainder(call).Ok?
    requires f.Normal? ==> EverywhereAll(f, call.items)
    ensures Everywhere(f, Remainder(call).value) == EverywhereAll(f, call.items)
  {
    ItemsOfTwo(call);
    var a, b := call.items[0], call.items[1];
    EverywhereFew(f, [a, b]);
    EverywhereNested(f, a);
    EverywhereNested(f, b);
    EverywhereFew(f, [Binary(a, Modulo, b)]);
    assert Everywhere(f, Binary(a, Modulo, b)) == EverywhereAll(f, [a, b]) by {
      if f.Normal? {
        assert ComparedTest(a, Modulo, b).None?;
      }
    }
  }

  lemma {:induction false} AfterNormal(call: Expr)
    requires call.Call? && AfterExpr(Translator, call).Ok? && EverywhereAll(Normal, call.items)
    ensures Everywhere(Normal, AfterExpr(Translator, call).value)
  {
    if AdqlName(call.name) == Some(MOD) {
      RemainderKeeps(Normal, call);
    } else {
      RenamedIsShared(call);
    }
  }

  /** What is not a remainder stays a call, of a function both languages name the same. */
  lemma {:induction false} RenamedIsShared(call: Expr)
    requires call.Call? && AfterExpr(Translator, call).Ok? && AdqlName(call.name) != Some(MOD)
    ensures var out := AfterExpr(Translator, call).value;
            && out.Call? && out.items == call.items && out.form == call.form
            && (AdqlName(out.name).Some? ==> IsShared(AdqlName(out.name).value))
            && (out.name == call.name || AdqlName(out.name).value.Other?)
  {
    if AdqlName(call.name).Some? && Renamed(AdqlName(call.name).value).Some? {
      RenamedIsOther(AdqlName(call.name).value);
    }
  }

  lemma {:induction false} RenamedIsOther(f: AdqlFunction)
    requires Renamed(f).Some?
    ensures Recognised(Renamed(f).value).Other?
  {
    WrittenRenamings();
  }

  lemma {:induction false} AfterNumeric(call: Expr)
    requires call.Call? && AfterExpr(Translator, call).Ok?
    requires OfExpr(NumericCoordinates, call) && EverywhereAll(NumericCoordinates, call.items)
    ensures Everywhere(NumericCoordinates, AfterExpr(Translator, call).value)
  {
    if AdqlName(call.name) == Some(MOD) {
      RemainderKeeps(NumericCoordinates, call);
    } else {
      RenamedIsShared(call);
    }
  }

  // ---- The whole tree ----

  lemma {:induction false} Keeps(v: Visitor, f: Fact, e: Expr)
    requires Walk(v, e).Ok? && Follows(v, f)
    ensures Carried(v, f, Everywhere(f, e), Everywhere(f, Walk(v, e).value))
    decreases Weight(e)
  {
    BeforeExprShrinks(v, e);
    var before := BeforeExpr(v, e).value;
    if before != e && !f.Normal? {
      TestKeeps(f, e);
    }
    KeepsAll(v, f, Kids(before));
    if before.Related? {
      KeepsQuery(v, f, before.query);
    }
    NodeKeeps(v, f, e);
  }

  /** One node, given what its children keep. */
  lemma {:induction false} NodeKeeps(v: Visitor, f: Fact, e: Expr)
    requires Walk(v, e).Ok? && Follows(v, f)
    requires var before := BeforeExpr(v, e).value;
             && Carried(v, f, EverywhereAll(f, Kids(before)), EverywhereAll(f, WalkAll(v, Kids(before)).value))
             && (before.Related? ==>
                   Carried(v, f, EverywhereQuery(f, before.query),
                           EverywhereQuery(f, WalkQuery(v, before.query).value)))
    ensures Carried(v, f, Everywhere(f, BeforeExpr(v, e).value), Everywhere(f, Walk(v, e).value))
  {
    var before := BeforeExpr(v, e).value;
    if before.Call? {
      CallKeeps(v, f, before);
    } else if before.Binary? && f.Normal? {
      BinaryKeepsNormal(e);
    }
  }

  lemma {:induction false} CallKeeps(v: Visitor, f: Fact, call: Expr)
    requires call.Call? && WalkAll(v, call.items).Ok? && Follows(v, f)
    requires AfterExpr(v, call.(items := WalkAll(v, call.items).value)).Ok?
    requires Carried(v, f, EverywhereAll(f, call.items), EverywhereAll(f, WalkAll(v, call.items).value))
    ensures Carried(v, f, Everywhere(f, call),
                    Everywhere(f, AfterExpr(v, call.(items := WalkAll(v, call.items).value)).value))
  {
    var between := call.(items := WalkAll(v, call.items).value);
    if Silent(f) {
      AfterKeepsTables(v, f, between);
    } else if f.Normal? {
      AfterNormal(between);
    } else if Everywhere(f, call) {
      NumericKept(call);
      AfterNumeric(between);
    }
  }

  lemma {:induction false} BinaryKeepsNormal(e: Expr)
    requires e.Binary? && Walk(Translator, e).Ok? && RegionTest(e) == Ok(None)
    requires EverywhereAll(Normal, WalkAll(Translator, [e.left, e.right]).value)
    ensures Everywhere(Normal, Walk(Translator, e).value)
  {
    var kids := WalkAll(Translator, [e.left, e.right]).value;
    WalkAllAt(Translator, [e.left, e.right], 0);
    WalkAllAt(Translator, [e.left, e.right], 1);
    NormalComparison(e, kids[0], kids[1]);
  }

  lemma {:induction false} KeepsAll(v: Visitor, f: Fact, es: seq<Expr>)
    requires WalkAll(v, es).Ok? && Follows(v, f)
    ensures Carried(v, f, EverywhereAll(f, es), EverywhereAll(f, WalkAll(v, es).value))
    decreases WeightAll(es)
  {
    if es != [] {
      Keeps(v, f, es[0]);
      KeepsAll(v, f, es[1..]);
    }
  }

  lemma {:induction false} KeepsQuery(v: Visitor, f: Fact, q: Query)
    requires WalkQuery(v, q).Ok? && Follows(v, f)
    ensures Carried(v, f, EverywhereQuery(f, q), EverywhereQuery(f, WalkQuery(v, q).value))
    decreases WeightQuery(q)
  {
    BeforeQueryShrinks(v, q);
    var before := BeforeQuery(v, q).value;
    TopKeeps(v, f, q);
    KeepsWith(v, f, before.with);
    KeepsBody(v, f, before.body);
    KeepsAll(v, f, before.order);
    KeepsAll(v, f, before.limit);
    KeepsAll(v, f, before.offset);
  }

  lemma {:induction false} TopKeeps(v: Visitor, f: Fact, q: Query)
    requires BeforeQuery(v, q).Ok?
    ensures !f.Normal? && !f.OneLimit? ==> EverywhereQuery(f, q) == EverywhereQuery(f, BeforeQuery(v, q).value)
    ensures v.Translator? ==> OfQuery(Normal, BeforeQuery(v, q).value) && OfQuery(OneLimit, q)
    ensures f.OneLimit? && EverywhereQuery(f, BeforeQuery(v, q).value) ==> EverywhereQuery(f, q)
  {
    if v.Translator? && q.body.Select? && q.body.top.Top? {
      var n := Number(q.body.top.quantity.count as real);
      EverywhereNumber(f, n);
      EverywhereFew(f, [n]);
      assert q.limit == [] && EverywhereAll(f, q.limit);
      assert EverywhereBody(f, q.body.(top := NoTop)) == EverywhereBody(f, q.body);
    }
  }

  lemma {:induction false} KeepsWith(v: Visitor, f: Fact, w: With)
    requires WalkWith(v, w).Ok? && Follows(v, f)
    ensures Carried(v, f, EverywhereWith(f, w), EverywhereWith(f, WalkWith(v, w).value))
    decreases WeightWith(w)
  {
    if w.Cte? {
      KeepsWith(v, f, w.earlier);
      KeepsQuery(v, f, w.named);
    }
  }

  lemma {:induction false} KeepsBody(v: Visitor, f: Fact, b: Body)
    requires WalkBody(v, b).Ok? && Follows(v, f)
    ensures Carried(v, f, EverywhereBody(f, b), EverywhereBody(f, WalkBody(v, b).value))
    decreases WeightBody(b)
  {
    match b {
      case Select(_, columns, from, filter) =>
        KeepsAll(v, f, columns);
        KeepsSource(v, f, from);
        KeepsAll(v, f, filter);
      case SetOperation(_, one, other) =>
        KeepsBody(v, f, one);
        KeepsBody(v, f, other);
      case Inner(inside) => KeepsQuery(v, f, inside);
    }
  }

  lemma {:induction false} KeepsSource(v: Visitor, f: Fact, s: Source)
    requires WalkSource(v, s).Ok? && Follows(v, f)
    ensures Carried(v, f, EverywhereSource(f, s), EverywhereSource(f, WalkSource(v, s).value))
    decreases WeightSource(s)
  {
    match s {
      case Nothing =>
      case Table(_, _, args, _) => KeepsAll(v, f, args);
      case Derived(derived, _) => KeepsQuery(v, f, derived);
      case Joined(near, far, on) =>
        KeepsSource(v, f, near);
        KeepsSource(v, f, far);
        KeepsAll(v, f, on);
    }
  }
}
