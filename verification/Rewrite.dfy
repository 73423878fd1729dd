/**
 What the translator does at one node: the pieces of `src/adql/translate.rs` that look at a
 comparison, a call, a query or a table name and say what stands there instead.
 */
module Rewrite {
  import opened Wrappers
  import opened Ascii
  import opened Syntax
  import opened Functions

  datatype Reason =
    | NotASelect
    | UnknownSystem(geometry: AdqlFunction, system: string)
    | TableFunction(table: ObjectName)
    | NotATableName(table: ObjectName)
    | NotImplemented(called: AdqlFunction)
    | OutsideAComparison(called: AdqlFunction)
    | PositionAndRegion(called: AdqlFunction)
    | PointFirst(called: AdqlFunction)
    | TwoPositions
    | InOrderAndAlone(call: Option<AdqlFunction>)
    | DividendAndDivisor
    | TopTakesRows
    | TopWrittenOut
    | TopAndLimit

  /** ADQL's functions this service does not answer, each refused by name. */
  predicate IsImplemented(f: AdqlFunction) {
    !f.AREA? && !f.BOX? && !f.CENTROID? && !f.COORD1? && !f.COORD2? && !f.COORDSYS? && !f.IN_UNIT?
    && !f.IVO_GEOM_TRANSFORM? && !f.POLYGON? && !f.REGION?
  }

  /** The target's name for a function ADQL calls something else. */
  function Renamed(f: AdqlFunction): Option<string> {
    match f
    case CEILING => Some("ceil")
    case LOG => Some("ln")
    case TRUNCATE => Some("trunc")
    case _ => None
  }

  predicate TakesSystem(f: AdqlFunction) {
    f.POINT? || f.CIRCLE? || f.BOX? || f.POLYGON?
  }

  const SYSTEMS: set<string> := {"", "ICRS", "UNKNOWN"}

  /** A list with nothing in the parentheses but the arguments. */
  const PLAIN := Listed(false, false)

  // ---- Reading a node ----

  /** A call's name as ADQL reads it; none for a quoted name or one of several parts. */
  function AdqlName(name: ObjectName): Option<AdqlFunction> {
    if |name| == 1 && name[0].Word? && !name[0].ident.quoted
    then Some(Recognised(name[0].ident.value))
    else None
  }

  predicate IsNamed(e: Expr, f: AdqlFunction) {
    e.Call? && AdqlName(e.name) == Some(f)
  }

  function Unnest(e: Expr): (u: Expr)
    ensures !u.Nested?
  {
    if e.Nested? then Unnest(e.inner) else e
  }

  lemma {:induction false} UnnestWeighs(e: Expr)
    ensures Weight(Unnest(e)) <= Weight(e)
    decreases e
  {
    if e.Nested? {
      UnnestWeighs(e.inner);
    }
  }

  predicate IsCall(e: Expr, f: AdqlFunction) {
    IsNamed(Unnest(e), f)
  }

  /** A number written out, signed or not. */
  function NumberOf(e: Expr): Option<real>
    decreases Weight(e)
  {
    UnnestWeighs(e);
    match Unnest(e)
    case Unary(Minus, operand) =>
      (match NumberOf(operand) case Some(x) => Some(-x) case None => None)
    case Unary(Plus, operand) => NumberOf(operand)
    case Number(value) => Some(value)
    case _ => None
  }

  predicate IsConstant(e: Expr) {
    NumberOf(e).Some?
  }

  /** A call's arguments, where they are the plain positional list ADQL writes. */
  function Arguments(call: Expr): Result<seq<Expr>, Reason>
    requires call.Call?
  {
    if call.form == PLAIN && forall item <- call.items :: Positional(item)
    then Ok(call.items)
    else Refused(InOrderAndAlone(AdqlName(call.name)))
  }

  predicate Positional(e: Expr) {
    !e.Star? && !e.Labelled?
  }

  /** A call the translation writes. `contains` is quoted, which marks the boolean test. */
  function CallTo(name: string, args: seq<Expr>): Expr {
    Call([Word(Ident(name, name == "contains"))], PLAIN, args)
  }

  /** A `POINT` of two numbers written out, as those two. */
  function ConstantPoint(e: Expr): Option<(Expr, Expr)> {
    var call := Unnest(e);
    if IsNamed(call, POINT) && Arguments(call).Ok? && |call.items| == 2
       && IsConstant(call.items[0]) && IsConstant(call.items[1])
    then Some((call.items[0], call.items[1]))
    else None
  }

  // ---- The region tests ----

  predicate IsRegionFunction(e: Expr) {
    IsNamed(e, CONTAINS) || IsNamed(e, INTERSECTS)
  }

  /** A region function compared with a truth value, and whether it was asked to hold. */
  function ComparedTest(left: Expr, op: BinaryOp, right: Expr): Option<(Expr, bool)> {
    var one, other := IsRegionFunction(Unnest(left)), IsRegionFunction(Unnest(right));
    if one == other then None
    else
      var call := if one then Unnest(left) else Unnest(right);
      var value := NumberOf(if one then right else left);
      var facing := if one then op else Mirrored(op);
      if value.None? then None
      else if (facing == Eq && value.value == 1.0) || (facing == Gt && value.value == 0.0) then Some((call, true))
      else if (facing == Eq && value.value == 0.0) || (facing == NotEq && value.value == 1.0) then Some((call, false))
      else None
  }

  function Mirrored(op: BinaryOp): BinaryOp {
    match op case Gt => Lt case Lt => Gt case _ => op
  }

  /** `DISTANCE(...)` bounded above, whichever side the bound is on: the call and the bound. */
  function BoundedDistance(left: Expr, op: BinaryOp, right: Expr): Option<(Expr, Expr)> {
    if (op == Lt || op == LtEq) && IsCall(left, DISTANCE) then Some((Unnest(left), right))
    else if (op == Gt || op == GtEq) && IsCall(right, DISTANCE) then Some((Unnest(right), left))
    else None
  }

  /** `CONTAINS(point, region)`, or `INTERSECTS` in either order, as the boolean test. */
  function Contains(call: Expr): Result<Expr, Reason>
    requires IsRegionFunction(call)
  {
    var f := AdqlName(call.name).value;
    var args :- Arguments(call);
    if |args| != 2 then Refused(PositionAndRegion(f))
    else if IsCall(args[0], POINT) then Ok(CallTo("contains", [args[0], args[1]]))
    else if IsCall(args[1], POINT) && f.INTERSECTS? then Ok(CallTo("contains", [args[1], args[0]]))
    else Refused(PointFirst(f))
  }

  /** The row's position and the constant centre of a `DISTANCE`, where it has one of each. */
  function RowAndCentre(args: seq<Expr>): Option<(Expr, Expr, Expr)>
    requires |args| == 2 || |args| == 4
  {
    if |args| == 2 then
      match (ConstantPoint(args[0]), ConstantPoint(args[1]))
      case (None, Some(centre)) => Some((args[0], centre.0, centre.1))
      case (Some(centre), None) => Some((args[1], centre.0, centre.1))
      case _ => None
    else
      match (IsConstant(args[0]) && IsConstant(args[1]), IsConstant(args[2]) && IsConstant(args[3]))
      case (false, true) => Some((CallTo("POINT", args[..2]), args[2], args[3]))
      case (true, false) => Some((CallTo("POINT", args[2..]), args[0], args[1]))
      case _ => None
  }

  /** `DISTANCE(...) < r` around a position written out, as the circle it is; none otherwise. */
  function Within(call: Expr, radius: Expr): Result<Option<Expr>, Reason>
    requires call.Call?
  {
    var args :- Arguments(call);
    if |args| != 2 && |args| != 4 then Refused(TwoPositions)
    else match RowAndCentre(args)
      case None => Ok(None)
      case Some((row, ra, dec)) =>
        if IsCall(row, POINT)
        then Ok(Some(CallTo("contains", [row, CallTo("CIRCLE", [ra, dec, radius])])))
        else Refused(TwoPositions)
  }

  /** A region test in ADQL's spelling as the boolean test, or none where this is not one. */
  function RegionTest(e: Expr): Result<Option<Expr>, Reason> {
    if !e.Binary? then Ok(None)
    else match ComparedTest(e.left, e.op, e.right)
      case Some((call, holds)) =>
        var test :- Contains(call);
        Ok(Some(if holds then test else Unary(Not, test)))
      case None =>
        match BoundedDistance(e.left, e.op, e.right)
        case Some((call, radius)) => Within(call, radius)
        case None => Ok(None)
  }

  /** A comparison that becomes a circle. */
  predicate IsCone(e: Expr) {
    && e.Binary?
    && ComparedTest(e.left, e.op, e.right).None?
    && BoundedDistance(e.left, e.op, e.right).Some?
    && RegionTest(e).Ok? && RegionTest(e).value.Some?
  }

  function Remainder(call: Expr): Result<Expr, Reason>
    requires call.Call?
  {
    var args :- Arguments(call);
    if |args| == 2 then Ok(Nested(Binary(args[0], Modulo, args[1]))) else Refused(DividendAndDivisor)
  }

  // ---- The limit clause and the table names ----

  /** `TOP n`, moved to where the target reads a limit. */
  function TopAsLimit(q: Query): Result<Query, Reason> {
    if !q.body.Select? || q.body.top.NoTop? then Ok(q)
    else if q.body.top.ties || q.body.top.percent then Refused(TopTakesRows)
    else match q.body.top.quantity
      case Rows(n) =>
        if q.limits == LimitOffset(false) && q.limit == []
        then Ok(q.(body := q.body.(top := NoTop), limit := [Number(n as real)]))
        else Refused(TopAndLimit)
      case _ => Refused(TopWrittenOut)
  }

  /** The name a `FROM` wrote, as one string: a table, or a schema and a table. */
  function WrittenName(name: ObjectName): Option<string> {
    if |name| == 1 && name[0].Word? then Some(name[0].ident.value)
    else if |name| == 2 && name[0].Word? && name[1].Word?
    then Some(name[0].ident.value + "." + name[1].ident.value)
    else None
  }

  // ---- The two visitors, hook by hook ----

  /** The pass that takes coordinate systems off, and the pass that rewrites. */
  datatype Visitor = CoordinateSystems | Translator

  function BeforeExpr(v: Visitor, e: Expr): Result<Expr, Reason> {
    if v.CoordinateSystems? then Ok(e)
    else
      var test :- RegionTest(e);
      Ok(match test case None => e case Some(written) => written)
  }

  function AfterExpr(v: Visitor, e: Expr): Result<Expr, Reason> {
    if !e.Call? || AdqlName(e.name).None? then Ok(e)
    else if v.CoordinateSystems? then DropSystem(e)
    else
      var f := AdqlName(e.name).value;
      if !IsImplemented(f) then Refused(NotImplemented(f))
      else if f.CONTAINS? || f.INTERSECTS? then Refused(OutsideAComparison(f))
      else if f.MOD? then Remainder(e)
      else match Renamed(f)
        case Some(name) => Ok(e.(name := [Word(Ident(name, false))]))
        case None => Ok(e)
  }

  /** Whether a geometry's first argument is written as a coordinate system. */
  predicate NamesSystem(e: Expr) {
    && e.Call?
    && AdqlName(e.name).Some? && TakesSystem(AdqlName(e.name).value)
    && e.form.Listed?
    && e.items != []
    && Unnest(e.items[0]).Quoted?
  }

  predicate KnownSystem(text: string) {
    exists known <- SYSTEMS :: SameFold(known, Trim(text))
  }

  function DropSystem(e: Expr): Result<Expr, Reason>
    requires e.Call?
  {
    if !NamesSystem(e) then Ok(e)
    else if KnownSystem(Unnest(e.items[0]).text) then Ok(e.(items := e.items[1..]))
    else Refused(UnknownSystem(AdqlName(e.name).value, Unnest(e.items[0]).text))
  }

  function BeforeQuery(v: Visitor, q: Query): Result<Query, Reason> {
    if v.CoordinateSystems? then Ok(q) else TopAsLimit(q)
  }

  /** A table of a `FROM` or a `JOIN`: named by one word or two, and never called. */
  function BeforeTable(v: Visitor, name: ObjectName, called: bool): Result<(), Reason> {
    if v.CoordinateSystems? then Ok(())
    else if called then Refused(TableFunction(name))
    else if WrittenName(name).None? then Refused(NotATableName(name))
    else Ok(())
  }

  // ---- A rewriting never grows the tree, so walking into it ends ----

  lemma {:induction false} BeforeExprShrinks(v: Visitor, e: Expr)
    ensures BeforeExpr(v, e).Ok? ==>
              WeightAll(Kids(BeforeExpr(v, e).value)) < Weight(BeforeExpr(v, e).value) <= Weight(e)
  {
    if v.Translator? {
      RegionTestShrinks(e);
    }
    if BeforeExpr(v, e).Ok? {
      KidsWeigh(BeforeExpr(v, e).value);
    }
  }

  lemma {:induction false} BeforeQueryShrinks(v: Visitor, q: Query)
    ensures BeforeQuery(v, q).Ok? ==> WeightQuery(BeforeQuery(v, q).value) <= WeightQuery(q)
  {
    TopAsLimitShrinks(q);
  }

  lemma {:induction false} TopAsLimitShrinks(q: Query)
    ensures TopAsLimit(q).Ok? ==> WeightQuery(TopAsLimit(q).value) <= WeightQuery(q)
  {
    if TopAsLimit(q).Ok? && q.body.Select? && q.body.top.Top? {
      var n := q.body.top.quantity.count;
      assert [Number(n as real)][1..] == [];
      assert WeightAll([Number(n as real)]) == 2;
    }
  }

  lemma {:induction false} RegionTestShrinks(e: Expr)
    ensures RegionTest(e).Ok? && RegionTest(e).value.Some? ==> Weight(RegionTest(e).value.value) <= Weight(e)
  {
    if e.Binary? {
      UnnestWeighs(e.left);
      UnnestWeighs(e.right);
      match ComparedTest(e.left, e.op, e.right) {
        case Some((call, _)) =>
          if Contains(call).Ok? {
            ItemsOfTwo(call);
            WeightOfFew([call.items[0], call.items[1]]);
            WeightOfFew([call.items[1], call.items[0]]);
          }
        case None =>
          match BoundedDistance(e.left, e.op, e.right) {
            case Some((call, radius)) => WithinShrinks(call, radius);
            case None =>
          }
      }
    }
  }

  lemma {:induction false} ItemsOfTwo(call: Expr)
    requires call.Call? && |call.items| == 2
    ensures call.items == [call.items[0], call.items[1]]
    ensures Weight(call) == 3 + Weight(call.items[0]) + Weight(call.items[1])
  {
    WeightOfFew([call.items[0], call.items[1]]);
  }

  lemma {:induction false} ItemsOfFour(call: Expr)
    requires call.Call? && |call.items| == 4
    ensures call.items == [call.items[0], call.items[1], call.items[2], call.items[3]]
    ensures Weight(call)
            == 5 + Weight(call.items[0]) + Weight(call.items[1]) + Weight(call.items[2]) + Weight(call.items[3])
    ensures call.items[..2] == [call.items[0], call.items[1]] && call.items[2..] == [call.items[2], call.items[3]]
  {
    var a, b, c, d := call.items[0], call.items[1], call.items[2], call.items[3];
    assert call.items == [a, b, c, d] && [a, b, c, d][1..] == [b, c, d];
    WeightOfFew([b, c, d]);
  }

  lemma {:induction false} WithinShrinks(call: Expr, radius: Expr)
    requires call.Call?
    ensures Within(call, radius).Ok? && Within(call, radius).value.Some? ==>
              Weight(Within(call, radius).value.value) <= 5 + Weight(call) + Weight(radius)
  {
    if Within(call, radius).Ok? && Within(call, radius).value.Some? {
      var (row, ra, dec) := RowAndCentre(call.items).value;
      WeightOfFew([ra, dec, radius]);
      WeightOfFew([row, CallTo("CIRCLE", [ra, dec, radius])]);
      RowAndCentreShrink(call);
    }
  }

  lemma {:induction false} RowAndCentreShrink(call: Expr)
    requires call.Call? && |call.items| in {2, 4} && RowAndCentre(call.items).Some?
    ensures var (row, ra, dec) := RowAndCentre(call.items).value;
            Weight(row) + Weight(ra) + Weight(dec) <= Weight(call) - 2
  {
    if |call.items| == 2 {
      ItemsOfTwo(call);
      var point := if ConstantPoint(call.items[0]).Some? then call.items[0] else call.items[1];
      UnnestWeighs(point);
      ItemsOfTwo(Unnest(point));
    } else {
      ItemsOfFour(call);
      WeightOfFew([call.items[0], call.items[1]]);
      WeightOfFew([call.items[2], call.items[3]]);
    }
  }
}
