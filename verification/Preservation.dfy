/** Both passes keep what a statement means, each taking one reading to the next. */
module Preservation {
  import opened Wrappers
  import opened Functions
  import opened Syntax
  import opened Rewrite
  import opened Visit
  import opened Facts
  import opened Shapes
  import opened Meaning
  import NormalForm

  // ---- Lists, parentheses and numbers ----

  lemma {:induction false} EvalFew(rd: Reading, w: World, es: seq<Expr>, env: Env)
    requires 1 <= |es| <= 3
    ensures EvalAll(rd, w, es, env)
         == if |es| == 1 then [Eval(rd, w, es[0], env)]
            else if |es| == 2 then [Eval(rd, w, es[0], env), Eval(rd, w, es[1], env)]
            else [Eval(rd, w, es[0], env), Eval(rd, w, es[1], env), Eval(rd, w, es[2], env)]
  {
    if |es| > 1 {
      EvalFew(rd, w, es[1..], env);
    } else {
      assert es[1..] == [] && EvalAll(rd, w, [], env) == [];
    }
  }

  lemma {:induction false} EvalAt(rd: Reading, w: World, es: seq<Expr>, i: nat, env: Env)
    requires i < |es|
    ensures EvalAll(rd, w, es, env)[i] == Eval(rd, w, es[i], env)
  {
    if i > 0 {
      EvalAt(rd, w, es[1..], i - 1, env);
    }
  }

  lemma {:induction false} EvalNested(rd: Reading, w: World, e: Expr, env: Env)
    ensures Eval(rd, w, Unnest(e), env) == Eval(rd, w, e, env)
    decreases e
  {
    if e.Nested? {
      EvalFew(rd, w, [e.inner], env);
      EvalNested(rd, w, e.inner, env);
    }
  }

  /** A number written out is that number in every reading, on every row. */
  lemma {:induction false} EvalNumber(rd: Reading, w: World, e: Expr, env: Env)
    requires NumberOf(e).Some?
    ensures Eval(rd, w, e, env) == Num(NumberOf(e).value)
    decreases Weight(e)
  {
    EvalNested(rd, w, e, env);
    UnnestWeighs(e);
    var u := Unnest(e);
    if u.Unary? {
      EvalFew(rd, w, [u.operand], env);
      EvalNumber(rd, w, u.operand, env);
    }
  }

  // ---- Geometry, value by value ----

  predicate IsPlace(v: Val) {
    v.Position? || v.Null? || v.Bad?
  }

  /** A test, 1 or 0 or unknown, compared with a truth value is the test, or its negation. */
  lemma {:induction false} TestCompared(w: World, p: Val, r: Val)
    requires IsPlace(p)
    ensures AdqlContains(w, p, r) == AdqlIntersects(w, p, r) == AdqlIntersects(w, r, p) == Inside(w, p, r)
    ensures Comparison(w, Eq, Indicator(Inside(w, p, r)), Num(1.0)) == Inside(w, p, r)
    ensures Comparison(w, Eq, Num(1.0), Indicator(Inside(w, p, r))) == Inside(w, p, r)
    ensures Comparison(w, Gt, Indicator(Inside(w, p, r)), Num(0.0)) == Inside(w, p, r)
    ensures Comparison(w, Lt, Num(0.0), Indicator(Inside(w, p, r))) == Inside(w, p, r)
    ensures Comparison(w, Eq, Indicator(Inside(w, p, r)), Num(0.0)) == Negation(Inside(w, p, r))
    ensures Comparison(w, Eq, Num(0.0), Indicator(Inside(w, p, r))) == Negation(Inside(w, p, r))
    ensures Comparison(w, NotEq, Indicator(Inside(w, p, r)), Num(1.0)) == Negation(Inside(w, p, r))
    ensures Comparison(w, NotEq, Num(1.0), Indicator(Inside(w, p, r))) == Negation(Inside(w, p, r))
  {
  }

  /** A separation bounded by a radius is a circle holding its edge. */
  lemma {:induction false} BoundIsCircle(w: World, p: Val, ra: real, dec: real, r: Val)
    requires IsPlace(p) && Symmetric(w)
    ensures var centre := Position(Place(ra, dec));
            var inside := Inside(w, p, MakeCircle(Num(ra), Num(dec), r));
            && Separation(w, p, centre) == Separation(w, centre, p)
            && Comparison(w, LtEq, Separation(w, p, centre), r) == inside
            && Comparison(w, GtEq, r, Separation(w, p, centre)) == inside
  {
  }

  lemma {:induction false} GeometryCall(rd: Reading, w: World, e: Expr, env: Env)
    requires !rd.Adql? && e.Call? && AdqlName(e.name).Some?
    ensures var f, vals := AdqlName(e.name).value, EvalAll(rd, w, e.items, env);
            && (f == POINT ==> Eval(rd, w, e, env) == if |vals| == 2 then MakePoint(vals[0], vals[1]) else Bad)
            && (f == CIRCLE ==>
                  Eval(rd, w, e, env) == if |vals| == 3 then MakeCircle(vals[0], vals[1], vals[2]) else Bad)
            && (f == DISTANCE && |vals| == 2 ==> Eval(rd, w, e, env) == Separation(w, vals[0], vals[1]))
            && (f == DISTANCE && |vals| == 4 ==>
                  Eval(rd, w, e, env) == Separation(w, MakePoint(vals[0], vals[1]), MakePoint(vals[2], vals[3])))
  {
    GeometryResolves(e.name[0].ident.value);
  }

  lemma {:induction false} PointIsPlace(rd: Reading, w: World, e: Expr, env: Env)
    requires !rd.Adql? && IsCall(e, POINT)
    ensures IsPlace(Eval(rd, w, e, env))
  {
    EvalNested(rd, w, e, env);
    GeometryCall(rd, w, Unnest(e), env);
  }

  // ---- The region tests keep their meaning ----

  /** The boolean test the translation writes. */
  lemma {:induction false} TestCallMeaning(rd: Reading, w: World, p: Expr, r: Expr, env: Env)
    requires !rd.Adql?
    ensures Eval(rd, w, CallTo("contains", [p, r]), env) == Inside(w, Eval(rd, w, p, env), Eval(rd, w, r, env))
  {
    EvalFew(rd, w, [p, r], env);
  }

  /** A region function's own value, before it is rewritten. */
  lemma {:induction false} RegionCallMeaning(rd: Reading, w: World, call: Expr, env: Env)
    requires (rd.Bare? || rd.Closed?) && IsRegionFunction(call) && |call.items| == 2
    ensures var x, y := Eval(rd, w, call.items[0], env), Eval(rd, w, call.items[1], env);
            Eval(rd, w, call, env)
              == Indicator(if IsNamed(call, CONTAINS) then AdqlContains(w, x, y) else AdqlIntersects(w, x, y))
  {
    ItemsOfTwo(call);
    EvalFew(rd, w, [call.items[0], call.items[1]], env);
  }

  lemma {:induction false} ContainsMeaning(rd: Reading, w: World, call: Expr, env: Env)
    requires (rd.Bare? || rd.Closed?) && IsRegionFunction(call) && Contains(call).Ok?
    ensures var test := Eval(rd, w, Contains(call).value, env);
            && Eval(rd, w, call, env) == Indicator(test)
            && exists p, r :: IsPlace(p) && test == Inside(w, p, r)
  {
    var a, b := call.items[0], call.items[1];
    RegionCallMeaning(rd, w, call, env);
    var x, y := Eval(rd, w, a, env), Eval(rd, w, b, env);
    if IsCall(a, POINT) {
      PointIsPlace(rd, w, a, env);
      TestCompared(w, x, y);
      TestCallMeaning(rd, w, a, b, env);
    } else {
      PointIsPlace(rd, w, b, env);
      TestCompared(w, y, x);
      TestCallMeaning(rd, w, b, a, env);
    }
  }

  /** A comparison that becomes no circle compares what is inside its parentheses. */
  lemma {:induction false} ComparisonMeaning(rd: Reading, w: World, e: Expr, env: Env)
    requires e.Binary? && ComparedTest(e.left, e.op, e.right).Some?
    ensures Eval(rd, w, e, env)
            == Comparison(w, e.op, Eval(rd, w, Unnest(e.left), env), Eval(rd, w, Unnest(e.right), env))
  {
    EvalFew(rd, w, [e.left, e.right], env);
    EvalNested(rd, w, e.left, env);
    EvalNested(rd, w, e.right, env);
  }

  /** A test's value compared as it is asked for is the test, or its negation. */
  lemma {:induction false} AskedOfATest(w: World, op: BinaryOp, value: real, p: Val, r: Val)
    requires IsPlace(p)
    ensures var test, number := Inside(w, p, r), Num(value);
            && ((op == Eq && value == 1.0) || (op == Gt && value == 0.0) ==>
                  Comparison(w, op, Indicator(test), number)
                    == Comparison(w, Mirrored(op), number, Indicator(test)) == test)
            && ((op == Eq && value == 0.0) || (op == NotEq && value == 1.0) ==>
                  Comparison(w, op, Indicator(test), number)
                    == Comparison(w, Mirrored(op), number, Indicator(test)) == Negation(test))
  {
    TestCompared(w, p, r);
  }

  lemma {:induction false} ComparedValue(rd: Reading, w: World, e: Expr, env: Env)
    requires (rd.Bare? || rd.Closed?) && e.Binary? && ComparedTest(e.left, e.op, e.right).Some?
    requires Contains(ComparedTest(e.left, e.op, e.right).value.0).Ok?
    ensures var (call, holds) := ComparedTest(e.left, e.op, e.right).value;
            var test := Eval(rd, w, Contains(call).value, env);
            Eval(rd, w, e, env) == if holds then test else Negation(test)
  {
    var (call, holds) := ComparedTest(e.left, e.op, e.right).value;
    ContainsMeaning(rd, w, call, env);
    var p, r :| IsPlace(p) && Eval(rd, w, Contains(call).value, env) == Inside(w, p, r);
    ComparisonMeaning(rd, w, e, env);
    if IsRegionFunction(Unnest(e.left)) {
      NumberMeaning(rd, w, e.right, env);
      AskedOfATest(w, e.op, NumberOf(e.right).value, p, r);
    } else {
      NumberMeaning(rd, w, e.left, env);
      AskedOfATest(w, Mirrored(e.op), NumberOf(e.left).value, p, r);
    }
  }

  lemma {:induction false} NumberMeaning(rd: Reading, w: World, e: Expr, env: Env)
    requires IsConstant(e)
    ensures Eval(rd, w, Unnest(e), env) == Num(NumberOf(e).value)
  {
    EvalNumber(rd, w, e, env);
    EvalNested(rd, w, e, env);
  }

  lemma {:induction false} ComparedMeaning(rd: Reading, w: World, e: Expr, env: Env)
    requires (rd.Bare? || rd.Closed?) && e.Binary? && ComparedTest(e.left, e.op, e.right).Some? && RegionTest(e).Ok?
    ensures Eval(rd, w, RegionTest(e).value.value, env) == Eval(rd, w, e, env)
  {
    ComparedValue(rd, w, e, env);
    EvalFew(rd, w, [Contains(ComparedTest(e.left, e.op, e.right).value.0).value], env);
  }

  lemma {:induction false} ConstantPointMeaning(rd: Reading, w: World, e: Expr, env: Env)
    requires !rd.Adql? && ConstantPoint(e).Some?
    ensures var (ra, dec) := ConstantPoint(e).value;
            Eval(rd, w, e, env) == Position(Place(NumberOf(ra).value, NumberOf(dec).value))
  {
    var call := Unnest(e);
    EvalNested(rd, w, e, env);
    ItemsOfTwo(call);
    EvalFew(rd, w, [call.items[0], call.items[1]], env);
    EvalNumber(rd, w, call.items[0], env);
    EvalNumber(rd, w, call.items[1], env);
    GeometryCall(rd, w, call, env);
  }

  /** The separation a circle is made from, its row first. */
  lemma {:induction false} SeparationMeaning(rd: Reading, w: World, call: Expr, env: Env)
    requires !rd.Adql? && IsNamed(call, DISTANCE) && Symmetric(w)
    requires |call.items| in {2, 4} && RowAndCentre(call.items).Some? && IsCall(RowAndCentre(call.items).value.0, POINT)
    ensures var (row, ra, dec) := RowAndCentre(call.items).value;
            && IsConstant(ra) && IsConstant(dec)
            && Eval(rd, w, call, env)
               == Separation(w, Eval(rd, w, row, env), Position(Place(NumberOf(ra).value, NumberOf(dec).value)))
  {
    var (row, ra, dec) := RowAndCentre(call.items).value;
    PointIsPlace(rd, w, row, env);
    GeometryCall(rd, w, call, env);
    if |call.items| == 2 {
      ItemsOfTwo(call);
      var a, b := call.items[0], call.items[1];
      EvalFew(rd, w, [a, b], env);
      ConstantPointMeaning(rd, w, if ConstantPoint(a).Some? then a else b, env);
    } else {
      FourMeaning(rd, w, call, env);
    }
    BoundIsCircle(w, Eval(rd, w, row, env), NumberOf(ra).value, NumberOf(dec).value, Null);
  }

  lemma {:induction false} FourMeaning(rd: Reading, w: World, call: Expr, env: Env)
    requires !rd.Adql? && call.Call? && |call.items| == 4 && RowAndCentre(call.items).Some?
    ensures var (row, ra, dec) := RowAndCentre(call.items).value;
            var vals := EvalAll(rd, w, call.items, env);
            var centre := Position(Place(NumberOf(ra).value, NumberOf(dec).value));
            && IsConstant(ra) && IsConstant(dec)
            && ((MakePoint(vals[0], vals[1]) == Eval(rd, w, row, env) && MakePoint(vals[2], vals[3]) == centre)
                || (MakePoint(vals[2], vals[3]) == Eval(rd, w, row, env) && MakePoint(vals[0], vals[1]) == centre))
  {
    ItemsOfFour(call);
    var items := call.items;
    EvalAt(rd, w, items, 0, env);
    EvalAt(rd, w, items, 1, env);
    EvalAt(rd, w, items, 2, env);
    EvalAt(rd, w, items, 3, env);
    var (row, ra, dec) := RowAndCentre(items).value;
    EvalNumber(rd, w, ra, env);
    EvalNumber(rd, w, dec, env);
    if IsConstant(items[0]) && IsConstant(items[1]) {
      PointMeaning(rd, w, items[2], items[3], env);
    } else {
      PointMeaning(rd, w, items[0], items[1], env);
    }
  }

  lemma {:induction false} PointMeaning(rd: Reading, w: World, ra: Expr, dec: Expr, env: Env)
    requires !rd.Adql?
    ensures Eval(rd, w, CallTo("POINT", [ra, dec]), env) == MakePoint(Eval(rd, w, ra, env), Eval(rd, w, dec, env))
  {
    EvalFew(rd, w, [ra, dec], env);
    GeometryCall(rd, w, CallTo("POINT", [ra, dec]), env);
  }

  lemma {:induction false} CircleMeaning(rd: Reading, w: World, ra: Expr, dec: Expr, radius: Expr, env: Env)
    requires !rd.Adql? && IsConstant(ra) && IsConstant(dec)
    ensures Eval(rd, w, CallTo("CIRCLE", [ra, dec, radius]), env)
            == MakeCircle(Num(NumberOf(ra).value), Num(NumberOf(dec).value), Eval(rd, w, radius, env))
  {
    EvalNumber(rd, w, ra, env);
    EvalNumber(rd, w, dec, env);
    EvalFew(rd, w, [ra, dec, radius], env);
    GeometryCall(rd, w, CallTo("CIRCLE", [ra, dec, radius]), env);
  }

  lemma {:induction false} WithinMeaning(rd: Reading, w: World, call: Expr, radius: Expr, env: Env)
    requires (rd.Bare? || rd.Closed?) && IsNamed(call, DISTANCE) && Symmetric(w)
    requires Within(call, radius).Ok? && Within(call, radius).value.Some?
    ensures var test := Eval(rd, w, Within(call, radius).value.value, env);
            var bound := Eval(rd, w, radius, env);
            && Comparison(w, LtEq, Eval(rd, w, call, env), bound) == test
            && Comparison(w, GtEq, bound, Eval(rd, w, call, env)) == test
  {
    var (row, ra, dec) := RowAndCentre(call.items).value;
    SeparationMeaning(rd, w, call, env);
    PointIsPlace(rd, w, row, env);
    BoundIsCircle(w, Eval(rd, w, row, env), NumberOf(ra).value, NumberOf(dec).value, Eval(rd, w, radius, env));
    CircleMeaning(rd, w, ra, dec, radius, env);
    TestCallMeaning(rd, w, row, CallTo("CIRCLE", [ra, dec, radius]), env);
  }

  /** A bound that becomes a circle is read as holding its edge, from whichever side it is written. */
  lemma {:induction false} BoundMeaning(rd: Reading, w: World, e: Expr, env: Env)
    requires IsCone(e) && (rd.Closed? || (rd.Bare? && OfExpr(Inclusive, e)))
    ensures var (call, radius) := BoundedDistance(e.left, e.op, e.right).value;
            var distance, bound := Eval(rd, w, call, env), Eval(rd, w, radius, env);
            || Eval(rd, w, e, env) == Comparison(w, LtEq, distance, bound)
            || Eval(rd, w, e, env) == Comparison(w, GtEq, bound, distance)
  {
    EvalFew(rd, w, [e.left, e.right], env);
    EvalNested(rd, w, e.left, env);
    EvalNested(rd, w, e.right, env);
  }

  /** The rewriting before a node's children are walked says what the node said. */
  lemma {:induction false} TestMeaning(rd: Reading, w: World, e: Expr, env: Env)
    requires rd.Closed? || (rd.Bare? && OfExpr(Inclusive, e))
    requires Symmetric(w) && RegionTest(e).Ok? && RegionTest(e).value.Some?
    ensures Eval(rd, w, RegionTest(e).value.value, env) == Eval(rd, w, e, env)
  {
    if ComparedTest(e.left, e.op, e.right).Some? {
      ComparedMeaning(rd, w, e, env);
    } else {
      var (call, radius) := BoundedDistance(e.left, e.op, e.right).value;
      BoundMeaning(rd, w, e, env);
      WithinMeaning(rd, w, call, radius, env);
    }
  }

  /** A row whose separation is the bound itself. */
  predicate OnEdge(w: World, e: Expr, env: Env)
    requires e.Binary? && BoundedDistance(e.left, e.op, e.right).Some?
  {
    var (call, radius) := BoundedDistance(e.left, e.op, e.right).value;
    var distance := Eval(Bare, w, call, env);
    distance.Num? && distance == Eval(Bare, w, radius, env)
  }

  /**
   `DISTANCE(p, c) < r` is read as `<=`: the rewriting agrees with a strict bound on a row if and
   only if the row's separation is not the radius itself.
   */
  lemma {:induction false} StrictEdge(w: World, e: Expr, env: Env)
    requires Symmetric(w) && IsCone(e) && (e.op == Lt || e.op == Gt)
    ensures Eval(Bare, w, RegionTest(e).value.value, env) == Eval(Bare, w, e, env) <==> !OnEdge(w, e, env)
  {
    var (call, radius) := BoundedDistance(e.left, e.op, e.right).value;
    StrictBoundMeaning(w, e, env);
    WithinMeaning(Bare, w, call, radius, env);
    ConeSeparation(w, e, env);
    EdgeOfComparison(w, Eval(Bare, w, call, env), Eval(Bare, w, radius, env));
  }

  lemma {:induction false} EdgeOfComparison(w: World, distance: Val, bound: Val)
    requires distance.Num? || distance.Null? || distance.Bad?
    ensures Comparison(w, Lt, distance, bound) == Comparison(w, LtEq, distance, bound)
            <==> !(distance.Num? && distance == bound)
    ensures Comparison(w, Gt, bound, distance) == Comparison(w, GtEq, bound, distance)
            <==> !(distance.Num? && distance == bound)
  {
  }

  lemma {:induction false} StrictBoundMeaning(w: World, e: Expr, env: Env)
    requires IsCone(e) && (e.op == Lt || e.op == Gt)
    ensures var (call, radius) := BoundedDistance(e.left, e.op, e.right).value;
            var distance, bound := Eval(Bare, w, call, env), Eval(Bare, w, radius, env);
            Eval(Bare, w, e, env)
            == if e.op == Lt then Comparison(w, Lt, distance, bound) else Comparison(w, Gt, bound, distance)
  {
    EvalFew(Bare, w, [e.left, e.right], env);
    EvalNested(Bare, w, e.left, env);
    EvalNested(Bare, w, e.right, env);
  }

  /** What is compared with a circle's radius is a number, unless a position is missing or is none. */
  lemma {:induction false} ConeSeparation(w: World, e: Expr, env: Env)
    requires Symmetric(w) && IsCone(e)
    ensures var distance := Eval(Bare, w, BoundedDistance(e.left, e.op, e.right).value.0, env);
            distance.Num? || distance.Null? || distance.Bad?
  {
    SeparationMeaning(Bare, w, BoundedDistance(e.left, e.op, e.right).value.0, env);
  }

  // ---- One node ----

  /** The reading a pass takes a statement in, and the one it leaves it in. */
  predicate Takes(v: Visitor, rd: Reading) {
    match v
    case CoordinateSystems => rd.Adql?
    case Translator => rd.Bare? || rd.Closed?
  }

  function Leaves(v: Visitor): Reading {
    match v case CoordinateSystems => Bare case Translator => Target
  }

  /** A strict bound is read strictly only where it becomes no circle. */
  predicate Strict(v: Visitor, rd: Reading) {
    v.Translator? && rd.Bare?
  }

  lemma {:induction false} CallMeaning(v: Visitor, rd: Reading, w: World, call: Expr, env: Env)
    requires Takes(v, rd) && call.Call? && WalkAll(v, call.items).Ok?
    requires AfterExpr(v, call.(items := WalkAll(v, call.items).value)).Ok?
    ensures var walked := WalkAll(v, call.items).value;
            var vals := EvalAll(Leaves(v), w, walked, env);
            NodeValue(rd, w, call, env.scope, vals, [])
            == Eval(Leaves(v), w, AfterExpr(v, call.(items := walked)).value, env)
  {
    var between := call.(items := WalkAll(v, call.items).value);
    if v.CoordinateSystems? {
      if call.items != [] {
        WalkAllAt(v, call.items, 0);
        TextKept(v, call.items[0]);
      }
      assert NamesSystem(between) == NamesSystem(call);
      assert forall name, form, vals :: CallValue(Adql, w, name, form, vals) == CallValue(Bare, w, name, form, vals);
    } else if AdqlName(call.name) == Some(MOD) {
      RemainderMeaning(w, between, env);
    } else {
      RenamedMeaning(rd, w, between, env);
    }
  }

  lemma {:induction false} RemainderMeaning(w: World, call: Expr, env: Env)
    requires call.Call? && Remainder(call).Ok?
    ensures var vals := EvalAll(Target, w, call.items, env);
            Eval(Target, w, Remainder(call).value, env) == w.remainder(vals[0], vals[1])
  {
    ItemsOfTwo(call);
    EvalFew(Target, w, [call.items[0], call.items[1]], env);
    EvalFew(Target, w, [Binary(call.items[0], Modulo, call.items[1])], env);
  }

  /** The target's name for a function is that function. */
  lemma {:induction false} RenamedIsRegistered(w: World, f: AdqlFunction, name: ObjectName, form: CallForm,
                                               vals: seq<Val>)
    requires Renamed(f).Some?
    ensures TargetCall(w, [Word(Ident(Renamed(f).value, false))], form, vals) == AdqlCall(w, f, name, form, vals)
  {
    WrittenRenamings();
  }

  lemma {:induction false} RenamedMeaning(rd: Reading, w: World, call: Expr, env: Env)
    requires rd.Bare? || rd.Closed?
    requires call.Call? && AdqlName(call.name) != Some(MOD) && AfterExpr(Translator, call).Ok?
    ensures Eval(Target, w, AfterExpr(Translator, call).value, env)
         == CallValue(rd, w, call.name, call.form, EvalAll(Target, w, call.items, env))
  {
    if AdqlName(call.name).Some? && Renamed(AdqlName(call.name).value).Some? {
      RenamedIsRegistered(w, AdqlName(call.name).value, call.name, call.form, EvalAll(Target, w, call.items, env));
    }
  }

  /** A select item keeps its name, and a star stays one. */
  lemma {:induction false} ItemKept(v: Visitor, e: Expr)
    requires Walk(v, e).Ok?
    ensures OutputName(Walk(v, e).value) == OutputName(e) && Walk(v, e).value.Star? == e.Star?
  {
    if BeforeExpr(v, e) == Ok(e) {
      if e.Call? { WalkCall(v, e); } else { WalkOther(v, e); }
    } else {
      assert e.Binary? && RegionTest(e).value.Some?;
      assert Walk(v, e).value.Call? || Walk(v, e).value.Unary?;
    }
  }

  lemma {:induction false} CellsKept(v: Visitor, columns: seq<Expr>, vals: seq<Val>, scope: Scope)
    requires WalkAll(v, columns).Ok? && |vals| == |columns|
    ensures Cells(WalkAll(v, columns).value, vals, scope) == Cells(columns, vals, scope)
  {
    if columns != [] {
      var head, tail := Walk(v, columns[0]).value, WalkAll(v, columns[1..]).value;
      assert ([head] + tail)[0] == head && ([head] + tail)[1..] == tail;
      ItemKept(v, columns[0]);
      CellsKept(v, columns[1..], vals[1..], scope);
    }
  }

  lemma {:induction false} ProjectedKept(v: Visitor, columns: seq<Expr>, scopes: seq<Scope>, each: seq<seq<Val>>)
    requires WalkAll(v, columns).Ok?
    requires |each| == |scopes| && forall i :: 0 <= i < |each| ==> |each[i]| == |columns|
    ensures Projected(WalkAll(v, columns).value, scopes, each) == Projected(columns, scopes, each)
  {
    forall i | 0 <= i < |scopes|
      ensures Cells(WalkAll(v, columns).value, each[i], scopes[i]) == Cells(columns, each[i], scopes[i])
    {
      CellsKept(v, columns, each[i], scopes[i]);
    }
  }

  // ---- The row limit ----

  /**
   `TOP n` where the target reads a limit: past the offset and then `n` rows, in every reading and
   at every nested query.
   */
  lemma {:induction false} TopMeaning(rd: Reading, w: World, q: Query, env: Env)
    ensures TopAsLimit(q).Ok? <==> OfQuery(OneLimit, q)
    ensures TopAsLimit(q).Ok? ==> EvalQuery(rd, w, TopAsLimit(q).value, env) == EvalQuery(rd, w, q, env)
  {
    if q.body.Select? && q.body.top.Top? && TopAsLimit(q).Ok? {
      var n := q.body.top.quantity.count;
      var inner := env.(ctes := EvalWith(rd, w, q.with, env));
      EvalFew(rd, w, [Number(n as real)], inner);
      assert CountOf([Num(n as real)]) == Some(n);
      assert CountOf(EvalAll(rd, w, [], inner)).None?;
    }
  }

  /** The query with neither a `TOP` nor an offset. */
  function Unbounded(q: Query): Query
    requires q.body.Select?
  {
    q.(body := q.body.(top := NoTop), offset := [])
  }

  /** So many rows past so many others, where there are any. */
  function Window(rows: seq<Row>, past: nat, n: nat): seq<Row> {
    if |rows| <= past then [] else if |rows| <= past + n then rows[past..] else rows[past..past + n]
  }

  /** `TOP n` beside `OFFSET m` is the `n` rows past the first `m`, before it is moved and after. */
  lemma {:induction false} TopPastOffset(rd: Reading, w: World, q: Query, n: nat, m: nat, env: Env)
    requires q.body.Select? && q.body.top == Top(false, false, Rows(n))
    requires q.limits == LimitOffset(false) && q.limit == [] && q.offset == [Number(m as real)]
    ensures EvalQuery(rd, w, q, env) == Window(EvalQuery(rd, w, Unbounded(q), env), m, n)
    ensures TopAsLimit(q).Ok? && EvalQuery(rd, w, TopAsLimit(q).value, env) == EvalQuery(rd, w, q, env)
  {
    TopMeaning(rd, w, q, env);
    var inner := env.(ctes := EvalWith(rd, w, q.with, env));
    EvalFew(rd, w, [Number(m as real)], inner);
    assert CountOf([Num(m as real)]) == Some(m);
    assert CountOf(EvalAll(rd, w, [], inner)).None?;
  }

  // ---- The whole tree ----

  lemma {:induction false} Preserved(v: Visitor, rd: Reading, w: World, e: Expr, env: Env)
    requires Takes(v, rd) && Symmetric(w) && Walk(v, e).Ok? && (Strict(v, rd) ==> Everywhere(Inclusive, e))
    ensures Eval(Leaves(v), w, Walk(v, e).value, env) == Eval(rd, w, e, env)
    decreases Weight(e), 0
  {
    BeforeExprShrinks(v, e);
    var before := BeforeExpr(v, e).value;
    BeforeMeaning(v, rd, w, e, env);
    PreservedAll(v, rd, w, Kids(before), env);
    if before.Related? {
      PreservedQuery(v, rd, w, before.query, env);
    }
    NodePreserved(v, rd, w, e, env);
  }

  lemma {:induction false} BeforeMeaning(v: Visitor, rd: Reading, w: World, e: Expr, env: Env)
    requires Takes(v, rd) && Symmetric(w) && BeforeExpr(v, e).Ok? && (Strict(v, rd) ==> Everywhere(Inclusive, e))
    ensures Eval(rd, w, BeforeExpr(v, e).value, env) == Eval(rd, w, e, env)
    ensures Strict(v, rd) ==> Everywhere(Inclusive, BeforeExpr(v, e).value)
  {
    if BeforeExpr(v, e).value != e {
      TestMeaning(rd, w, e, env);
      if Strict(v, rd) {
        NormalForm.TestKeeps(Inclusive, e);
      }
    }
  }

  /** What is under a node, once rewritten, keeps its meaning. */
  ghost predicate KidsPreserved(v: Visitor, rd: Reading, w: World, before: Expr, env: Env) {
    && WalkAll(v, Kids(before)).Ok?
    && EvalAll(Leaves(v), w, WalkAll(v, Kids(before)).value, env) == EvalAll(rd, w, Kids(before), env)
    && (before.Related? ==>
          && WalkQuery(v, before.query).Ok?
          && EvalQuery(Leaves(v), w, WalkQuery(v, before.query).value, env) == EvalQuery(rd, w, before.query, env))
  }

  /** One node keeps its meaning where everything under it does. */
  lemma {:induction false} NodePreserved(v: Visitor, rd: Reading, w: World, e: Expr, env: Env)
    requires Takes(v, rd) && Walk(v, e).Ok? && KidsPreserved(v, rd, w, BeforeExpr(v, e).value, env)
    ensures Eval(Leaves(v), w, Walk(v, e).value, env) == Eval(rd, w, BeforeExpr(v, e).value, env)
  {
    var before := BeforeExpr(v, e).value;
    if before.Call? {
      CallMeaning(v, rd, w, before, env);
    } else {
      OtherPreserved(v, rd, w, e, env);
    }
  }

  lemma {:induction false} OtherPreserved(v: Visitor, rd: Reading, w: World, e: Expr, env: Env)
    requires Takes(v, rd) && Walk(v, e).Ok? && KidsPreserved(v, rd, w, BeforeExpr(v, e).value, env)
    requires !BeforeExpr(v, e).value.Call?
    ensures Eval(Leaves(v), w, Walk(v, e).value, env) == Eval(rd, w, BeforeExpr(v, e).value, env)
  {
    var before := BeforeExpr(v, e).value;
  }

  lemma {:induction false} PreservedAll(v: Visitor, rd: Reading, w: World, es: seq<Expr>, env: Env)
    requires Takes(v, rd) && Symmetric(w) && WalkAll(v, es).Ok? && (Strict(v, rd) ==> EverywhereAll(Inclusive, es))
    ensures EvalAll(Leaves(v), w, WalkAll(v, es).value, env) == EvalAll(rd, w, es, env)
    decreases WeightAll(es), 0
  {
    if es != [] {
      var head, tail := Walk(v, es[0]).value, WalkAll(v, es[1..]).value;
      assert ([head] + tail)[0] == head && ([head] + tail)[1..] == tail;
      Preserved(v, rd, w, es[0], env);
      PreservedAll(v, rd, w, es[1..], env);
    }
  }

  lemma {:induction false} PreservedEach(v: Visitor, rd: Reading, w: World, es: seq<Expr>, scopes: seq<Scope>, env: Env)
    requires Takes(v, rd) && Symmetric(w) && WalkAll(v, es).Ok? && (Strict(v, rd) ==> EverywhereAll(Inclusive, es))
    ensures EvalEach(Leaves(v), w, WalkAll(v, es).value, scopes, env) == EvalEach(rd, w, es, scopes, env)
    decreases WeightAll(es), 1
  {
    forall i | 0 <= i < |scopes|
      ensures EvalAll(Leaves(v), w, WalkAll(v, es).value, env.(scope := scopes[i] + env.scope))
           == EvalAll(rd, w, es, env.(scope := scopes[i] + env.scope))
    {
      PreservedAll(v, rd, w, es, env.(scope := scopes[i] + env.scope));
    }
  }

  lemma {:induction false} PreservedQuery(v: Visitor, rd: Reading, w: World, q: Query, env: Env)
    requires Takes(v, rd) && Symmetric(w) && WalkQuery(v, q).Ok? && (Strict(v, rd) ==> EverywhereQuery(Inclusive, q))
    ensures EvalQuery(Leaves(v), w, WalkQuery(v, q).value, env) == EvalQuery(rd, w, q, env)
    decreases WeightQuery(q), 2
  {
    var before := BeforeQuery(v, q).value;
    BeforeQueryShrinks(v, q);
    if v.Translator? {
      TopMeaning(rd, w, q, env);
    }
    NormalForm.TopKeeps(v, Inclusive, q);
    PreservedWhole(v, rd, w, before, env);
  }

  lemma {:induction false} PreservedWhole(v: Visitor, rd: Reading, w: World, q: Query, env: Env)
    requires Takes(v, rd) && Symmetric(w) && (Strict(v, rd) ==> EverywhereQuery(Inclusive, q))
    requires WalkWith(v, q.with).Ok? && ClausesWalk(v, q)
    ensures var walked := Query(WalkWith(v, q.with).value, WalkBody(v, q.body).value, WalkAll(v, q.order).value,
                                q.limits, WalkAll(v, q.limit).value, WalkAll(v, q.offset).value);
            EvalQuery(Leaves(v), w, walked, env) == EvalQuery(rd, w, q, env)
    decreases WeightQuery(q), 1
  {
    PreservedWith(v, rd, w, q.with, env);
    PreservedClauses(v, rd, w, q, env.(ctes := EvalWith(rd, w, q.with, env)));
  }

  predicate ClausesWalk(v: Visitor, q: Query) {
    && WalkBody(v, q.body).Ok?
    && WalkAll(v, q.order).Ok? && WalkAll(v, q.limit).Ok? && WalkAll(v, q.offset).Ok?
  }

  lemma {:induction false} PreservedClauses(v: Visitor, rd: Reading, w: World, q: Query, env: Env)
    requires Takes(v, rd) && Symmetric(w) && (Strict(v, rd) ==> EverywhereQuery(Inclusive, q))
    requires ClausesWalk(v, q)
    ensures EvalAnswered(Leaves(v), w, WalkBody(v, q.body).value, env) == EvalAnswered(rd, w, q.body, env)
    ensures TopOf(WalkBody(v, q.body).value) == TopOf(q.body)
    ensures forall scopes ::
              EvalEach(Leaves(v), w, WalkAll(v, q.order).value, scopes, env) == EvalEach(rd, w, q.order, scopes, env)
    ensures EvalAll(Leaves(v), w, WalkAll(v, q.limit).value, env) == EvalAll(rd, w, q.limit, env)
    ensures EvalAll(Leaves(v), w, WalkAll(v, q.offset).value, env) == EvalAll(rd, w, q.offset, env)
    decreases WeightQuery(q), 0
  {
    PreservedAnswered(v, rd, w, q.body, env);
    forall scopes
      ensures EvalEach(Leaves(v), w, WalkAll(v, q.order).value, scopes, env) == EvalEach(rd, w, q.order, scopes, env)
    {
      PreservedEach(v, rd, w, q.order, scopes, env);
    }
    PreservedAll(v, rd, w, q.limit, env);
    PreservedAll(v, rd, w, q.offset, env);
  }

  lemma {:induction false} PreservedAnswered(v: Visitor, rd: Reading, w: World, b: Body, env: Env)
    requires Takes(v, rd) && Symmetric(w) && WalkBody(v, b).Ok? && (Strict(v, rd) ==> EverywhereBody(Inclusive, b))
    ensures EvalAnswered(Leaves(v), w, WalkBody(v, b).value, env) == EvalAnswered(rd, w, b, env)
    ensures TopOf(WalkBody(v, b).value) == TopOf(b)
    decreases WeightBody(b), 3
  {
    if b.Select? {
      PreservedSelect(v, rd, w, b.columns, b.from, b.filter, env);
    } else {
      PreservedBody(v, rd, w, b, env);
    }
  }

  lemma {:induction false} PreservedWith(v: Visitor, rd: Reading, w: World, with: With, env: Env)
    requires Takes(v, rd) && Symmetric(w) && WalkWith(v, with).Ok?
    requires Strict(v, rd) ==> EverywhereWith(Inclusive, with)
    ensures EvalWith(Leaves(v), w, WalkWith(v, with).value, env) == EvalWith(rd, w, with, env)
    decreases WeightWith(with), 0
  {
    if with.Cte? {
      PreservedWith(v, rd, w, with.earlier, env);
      PreservedQuery(v, rd, w, with.named, env.(ctes := EvalWith(rd, w, with.earlier, env)));
    }
  }

  lemma {:induction false} PreservedSelect(v: Visitor, rd: Reading, w: World,
                                           columns: seq<Expr>, from: Source, filter: seq<Expr>, env: Env)
    requires Takes(v, rd) && Symmetric(w)
    requires WalkAll(v, columns).Ok? && WalkSource(v, from).Ok? && WalkAll(v, filter).Ok?
    requires Strict(v, rd) ==>
               && EverywhereAll(Inclusive, columns) && EverywhereSource(Inclusive, from)
               && EverywhereAll(Inclusive, filter)
    ensures EvalSelect(Leaves(v), w, WalkAll(v, columns).value, WalkSource(v, from).value,
                       WalkAll(v, filter).value, env)
         == EvalSelect(rd, w, columns, from, filter, env)
    decreases WeightAll(columns) + WeightSource(from) + WeightAll(filter), 2
  {
    PreservedSource(v, rd, w, from, env);
    var scopes := EvalSource(rd, w, from, env);
    PreservedEach(v, rd, w, filter, scopes, env);
    var kept := Holding(scopes, EvalEach(rd, w, filter, scopes, env));
    PreservedEach(v, rd, w, columns, kept, env);
    ProjectedKept(v, columns, kept, EvalEach(rd, w, columns, kept, env));
  }

  lemma {:induction false} PreservedBody(v: Visitor, rd: Reading, w: World, b: Body, env: Env)
    requires Takes(v, rd) && Symmetric(w) && WalkBody(v, b).Ok? && (Strict(v, rd) ==> EverywhereBody(Inclusive, b))
    ensures EvalBody(Leaves(v), w, WalkBody(v, b).value, env) == EvalBody(rd, w, b, env)
    decreases WeightBody(b), 0
  {
    match b {
      case Select(_, columns, from, filter) => PreservedSelect(v, rd, w, columns, from, filter, env);
      case SetOperation(_, one, other) =>
        PreservedBody(v, rd, w, one, env);
        PreservedBody(v, rd, w, other, env);
      case Inner(inside) => PreservedQuery(v, rd, w, inside, env);
    }
  }

  lemma {:induction false} PreservedSource(v: Visitor, rd: Reading, w: World, s: Source, env: Env)
    requires Takes(v, rd) && Symmetric(w) && WalkSource(v, s).Ok? && (Strict(v, rd) ==> EverywhereSource(Inclusive, s))
    ensures EvalSource(Leaves(v), w, WalkSource(v, s).value, env) == EvalSource(rd, w, s, env)
    decreases WeightSource(s), 0
  {
    match s {
      case Nothing =>
      case Table(_, _, _, _) =>
      case Derived(derived, _) => PreservedQuery(v, rd, w, derived, env);
      case Joined(near, far, on) =>
        PreservedSource(v, rd, w, near, env);
        PreservedSource(v, rd, w, far, env);
        PreservedEach(v, rd, w, on, Paired(EvalSource(rd, w, near, env), EvalSource(rd, w, far, env)), env);
    }
  }
}
