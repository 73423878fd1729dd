/**
 Which statements the translator takes: for each of its two passes, the conditions on a node, and
 the queries that meet them everywhere. A pass ends on those, and refuses every other.
 */
module Grammar {
  import opened Wrappers
  import opened Ascii
  import opened Functions
  import opened Syntax
  import opened Rewrite
  import opened Visit
  import opened Facts
  import opened Shapes
  import opened Systems
  import opened Acceptance

  // ---- One node ----

  predicate SaysTest(e: Expr) {
    Says(e, "CONTAINS") || Says(e, "INTERSECTS")
  }

  /** A comparison of one region function with something else. */
  predicate ComparesTest(e: Expr) {
    e.Binary? && SaysTest(e.left) != SaysTest(e.right)
  }

  /** The other side is a number, and the two ask for the test or against it. */
  ghost predicate AsksTest(e: Expr)
    requires ComparesTest(e)
  {
    if SaysTest(e.left) then Asked(e.op, e.right) else exists op :: Turned(op, e.op) && Asked(op, e.left)
  }

  /** A position and a region, the position first or, of an intersection, either way. */
  predicate PlacesTest(call: Expr) {
    && PlainList(call, 2)
    && (Says(call.items[0], "POINT") || (Called(call.name, "INTERSECTS") && Says(call.items[1], "POINT")))
  }

  /** A `DISTANCE` that may be bounded: one to a constant centre is from a `POINT`. */
  ghost predicate MayBeBounded(e: Expr) {
    match e
    case Nested(inner) => MayBeBounded(inner)
    case Call(name, _, items) =>
      Called(name, "DISTANCE") ==>
        || PlainList(e, 4)
        || (PlainList(e, 2)
            && (IsConstantPoint(items[0]) != IsConstantPoint(items[1]) ==>
                  Says(items[0], "POINT") && Says(items[1], "POINT")))
    case _ => true
  }

  ghost predicate Allowed(v: Visitor, e: Expr) {
    match v
    case CoordinateSystems => !IsForeign(e)
    case Translator =>
      && (e.Call? ==> CallAllowed(e))
      && (e.Binary? && e.op in {Lt, LtEq} ==> MayBeBounded(e.left))
      && (e.Binary? && e.op in {Gt, GtEq} ==> MayBeBounded(e.right))
  }

  /** A table of a `FROM` is a table, or a schema and a table, and is not called. */
  predicate AllowedTable(v: Visitor, name: ObjectName, called: bool) {
    v.Translator? ==> !called && (|name| == 1 || |name| == 2) && forall part <- name :: part.Word?
  }

  // ---- A whole query ----

  ghost predicate Taken(v: Visitor, e: Expr)
    decreases Weight(e)
  {
    KidsWeigh(e);
    if v.Translator? && ComparesTest(e)
    then AsksTest(e) && TakenTest(if SaysTest(e.left) then e.left else e.right)
    else Allowed(v, e) && TakenAll(v, Kids(e)) && (e.Related? ==> TakenQuery(v, e.query))
  }

  ghost predicate TakenTest(e: Expr)
    decreases Weight(e)
  {
    match e
    case Nested(inner) => TakenTest(inner)
    case Call(_, _, items) => PlacesTest(e) && TakenAll(Translator, items)
    case _ => false
  }

  ghost predicate TakenAll(v: Visitor, es: seq<Expr>)
    decreases WeightAll(es)
  {
    es != [] ==> Taken(v, es[0]) && TakenAll(v, es[1..])
  }

  ghost predicate TakenQuery(v: Visitor, q: Query)
    decreases WeightQuery(q)
  {
    && (v.Translator? ==> OfQuery(OneLimit, q))
    && TakenWith(v, q.with)
    && TakenBody(v, q.body)
    && TakenAll(v, q.order)
    && TakenAll(v, q.limit)
    && TakenAll(v, q.offset)
  }

  ghost predicate TakenWith(v: Visitor, w: With)
    decreases WeightWith(w)
  {
    w.Cte? ==> TakenWith(v, w.earlier) && TakenQuery(v, w.named)
  }

  ghost predicate TakenBody(v: Visitor, b: Body)
    decreases WeightBody(b)
  {
    match b
    case Select(_, columns, from, filter) => TakenAll(v, columns) && TakenSource(v, from) && TakenAll(v, filter)
    case SetOperation(_, one, other) => TakenBody(v, one) && TakenBody(v, other)
    case Inner(inside) => TakenQuery(v, inside)
  }

  ghost predicate TakenSource(v: Visitor, s: Source)
    decreases WeightSource(s)
  {
    match s
    case Nothing => true
    case Table(table, called, args, _) => AllowedTable(v, table, called) && TakenAll(v, args)
    case Derived(derived, _) => TakenQuery(v, derived)
    case Joined(near, far, on) => TakenSource(v, near) && TakenSource(v, far) && TakenAll(v, on)
  }

  // ---- A pass ends exactly there ----

  lemma {:induction false} SaysTestIs(e: Expr)
    ensures SaysTest(e) <==> IsRegionFunction(Unnest(e))
  {
    SaysIs(e, CONTAINS);
    SaysIs(e, INTERSECTS);
  }

  lemma {:induction false} PlacesTestIs(call: Expr)
    requires call.Call?
    ensures Placeable(call) <==> PlacesTest(call) && WalkAll(Translator, call.items).Ok?
  {
    if |call.items| == 2 {
      var a, b := call.items[0], call.items[1];
      ItemsOfTwo(call);
      WalkFew(Translator, [a, b]);
      if PlacesTest(call) && WalkAll(Translator, call.items).Ok? {
        assert if Says(a, "POINT") then Places(call, a, b) else Places(call, b, a);
      }
    }
  }

  lemma {:induction false} TakenTestIs(e: Expr)
    ensures TakenTest(e) <==>
              var call := Unnest(e); call.Call? && PlacesTest(call) && TakenAll(Translator, call.items)
    decreases e
  {
    if e.Nested? {
      TakenTestIs(e.inner);
    }
  }

  lemma {:induction false} ComparesTestIs(e: Expr)
    requires ComparesTest(e)
    ensures var call := Unnest(if SaysTest(e.left) then e.left else e.right);
            Walk(Translator, e).Ok? <==> AsksTest(e) && PlacesTest(call) && WalkAll(Translator, call.items).Ok?
  {
    SaysTestIs(e.left);
    SaysTestIs(e.right);
    if SaysTest(e.left) {
      var call := Unnest(e.left);
      ComparisonsTranslated(e, call, e.right, e.op);
      PlacesTestIs(call);
    } else {
      var call := Unnest(e.right);
      PlacesTestIs(call);
      forall op | Turned(op, e.op)
        ensures Walk(Translator, e).Ok? <==> Asked(op, e.left) && Placeable(call)
      {
        ComparisonsTranslated(e, call, e.left, op);
      }
      assert Turned(Mirrored(e.op), e.op);
    }
  }

  lemma {:induction false} MayBeBoundedIs(e: Expr)
    requires Unnest(e).Call? && Called(Unnest(e).name, "DISTANCE")
    ensures var call := Unnest(e);
            MayBeBounded(e) <==>
              && (PlainList(call, 2) || PlainList(call, 4))
              && forall row, ra, dec :: Centred(call.items, row, ra, dec) ==> Says(row, "POINT")
    decreases e
  {
    if e.Nested? {
      MayBeBoundedIs(e.inner);
    } else if PlainList(e, 2) {
      if IsConstantPoint(e.items[0]) != IsConstantPoint(e.items[1]) {
        var centre := if IsConstantPoint(e.items[0]) then e.items[0] else e.items[1];
        var row := if IsConstantPoint(e.items[0]) then e.items[1] else e.items[0];
        var ra, dec :| IsCentre(centre, ra, dec);
        assert Centred(e.items, row, ra, dec);
        CentreIsPoint(centre, ra, dec);
      }
    } else {
      assert Upper("POINT") == "POINT";
    }
  }

  lemma {:induction false} CentreIsPoint(e: Expr, ra: Expr, dec: Expr)
    requires IsCentre(e, ra, dec)
    ensures Says(e, "POINT")
    decreases e
  {
    if e.Nested? {
      CentreIsPoint(e.inner, ra, dec);
    }
  }

  lemma {:induction false} OtherBinaryIs(e: Expr)
    requires e.Binary? && !ComparesTest(e)
    ensures Walk(Translator, e).Ok? <==> WalkAll(Translator, Kids(e)).Ok? && Allowed(Translator, e)
  {
    SaysTestIs(e.left);
    SaysTestIs(e.right);
    WalkFew(Translator, [e.left, e.right]);
    var side := if e.op in {Lt, LtEq} then e.left else e.right;
    var radius := if e.op in {Lt, LtEq} then e.right else e.left;
    BoundsIs(e, Unnest(side), radius);
    if Bounds(e, Unnest(side), radius) {
      BoundedDistancesTranslated(e, Unnest(side), radius);
      MayBeBoundedIs(side);
    } else {
      UnboundedIs(e);
      ComparisonStays(e);
    }
  }

  lemma {:induction false} UnboundedIs(e: Expr)
    requires e.Binary? && !ComparesTest(e) && BoundedDistance(e.left, e.op, e.right).None?
    ensures Allowed(Translator, e) && RegionTest(e) == Ok(None)
  {
    SaysTestIs(e.left);
    SaysTestIs(e.right);
    forall side | side == e.left || side == e.right
      ensures MayBeBounded(side) || IsCall(side, DISTANCE)
    {
      OtherCallMayBeBounded(side);
    }
  }

  lemma {:induction false} OtherCallMayBeBounded(e: Expr)
    ensures MayBeBounded(e) || IsCall(e, DISTANCE)
    decreases e
  {
    if e.Nested? {
      OtherCallMayBeBounded(e.inner);
    } else {
      SaysIs(e, DISTANCE);
    }
  }

  lemma {:induction false} Takes(v: Visitor, e: Expr)
    ensures Walk(v, e).Ok? <==> Taken(v, e)
    decreases Weight(e), 1
  {
    KidsWeigh(e);
    if v.Translator? && ComparesTest(e) {
      var side := if SaysTest(e.left) then e.left else e.right;
      ComparesTestIs(e);
      TakenTestIs(side);
      SaysTestIs(side);
      UnnestWeighs(side);
      TakesAll(v, Unnest(side).items);
    } else {
      TakesAll(v, Kids(e));
      if e.Related? {
        TakesQuery(v, e.query);
      }
      NodeIs(v, e);
    }
  }

  lemma {:induction false} NodeIs(v: Visitor, e: Expr)
    requires !(v.Translator? && ComparesTest(e))
    ensures Walk(v, e).Ok? <==>
              Allowed(v, e) && WalkAll(v, Kids(e)).Ok? && (e.Related? ==> WalkQuery(v, e.query).Ok?)
  {
    if e.Call? {
      if v.Translator? { CallTaken(e); } else { TakesCall(e); }
    } else if e.Binary? && v.Translator? {
      OtherBinaryIs(e);
    }
  }

  lemma {:induction false} TakesAll(v: Visitor, es: seq<Expr>)
    ensures WalkAll(v, es).Ok? <==> TakenAll(v, es)
    decreases WeightAll(es), 0
  {
    if es != [] {
      Takes(v, es[0]);
      TakesAll(v, es[1..]);
    }
  }

  /** A pass ends on exactly the queries it takes at every depth. */
  lemma {:induction false} TakesQuery(v: Visitor, q: Query)
    ensures WalkQuery(v, q).Ok? <==> TakenQuery(v, q)
    decreases WeightQuery(q)
  {
    TakesWith(v, q.with);
    TakesBody(v, q.body);
    TakesAll(v, q.order);
    TakesAll(v, q.limit);
    TakesAll(v, q.offset);
    QueryIs(v, q);
  }

  /**
   A query is taken exactly when its clauses are and a `TOP` is a number of rows beside no other
   limit: no other `TOP` is refused, and no query for it.
   */
  lemma {:induction false} QueryIs(v: Visitor, q: Query)
    ensures WalkQuery(v, q).Ok? <==>
              && (v.Translator? ==> OfQuery(OneLimit, q))
              && WalkWith(v, q.with).Ok? && WalkBody(v, q.body).Ok?
              && WalkAll(v, q.order).Ok? && WalkAll(v, q.limit).Ok? && WalkAll(v, q.offset).Ok?
  {
    if v.Translator? && TopAsLimit(q).Ok? {
      var before := TopAsLimit(q).value;
      if before != q {
        WalkFew(Translator, before.limit);
        assert WalkAll(Translator, q.limit) == Ok([]);
      }
      assert WalkBody(v, before.body).Ok? <==> WalkBody(v, q.body).Ok?;
    }
  }

  lemma {:induction false} TakesWith(v: Visitor, w: With)
    ensures WalkWith(v, w).Ok? <==> TakenWith(v, w)
    decreases WeightWith(w)
  {
    if w.Cte? {
      TakesWith(v, w.earlier);
      TakesQuery(v, w.named);
    }
  }

  lemma {:induction false} TakesBody(v: Visitor, b: Body)
    ensures WalkBody(v, b).Ok? <==> TakenBody(v, b)
    decreases WeightBody(b)
  {
    match b {
      case Select(_, columns, from, filter) =>
        TakesAll(v, columns);
        TakesSource(v, from);
        TakesAll(v, filter);
      case SetOperation(_, one, other) =>
        TakesBody(v, one);
        TakesBody(v, other);
      case Inner(inside) => TakesQuery(v, inside);
    }
  }

  lemma {:induction false} TakesSource(v: Visitor, s: Source)
    ensures WalkSource(v, s).Ok? <==> TakenSource(v, s)
    decreases WeightSource(s)
  {
    match s {
      case Nothing =>
      case Table(table, called, args, _) =>
        TakesAll(v, args);
        assert BeforeTable(v, table, called).Ok? <==> AllowedTable(v, table, called);
      case Derived(derived, _) => TakesQuery(v, derived);
      case Joined(near, far, on) =>
        TakesSource(v, near);
        TakesSource(v, far);
        TakesAll(v, on);
    }
  }
}
