/**
 What the translator takes and what it refuses. Meaning is kept of whatever is translated; here is
 which of ADQL's own spellings are, and the tree each of them becomes.
 */
module Acceptance {
  import opened Wrappers
  import opened Ascii
  import opened Functions
  import opened Syntax
  import opened Rewrite
  import opened Visit
  import opened Shapes

  // ---- What is written, read without the translator ----

  /** A name of one unquoted word, in any case. */
  predicate Called(name: ObjectName, word: string) {
    |name| == 1 && name[0].Word? && !name[0].ident.quoted && Upper(name[0].ident.value) == word
  }

  /** A call of that word, in any parentheses. */
  predicate Says(e: Expr, word: string) {
    match e
    case Nested(inner) => Says(inner, word)
    case Call(name, _, _) => Called(name, word)
    case _ => false
  }

  lemma {:induction false} SaysIs(e: Expr, f: AdqlFunction)
    requires !f.Other?
    ensures Says(e, WordOf(f)) <==> IsCall(e, f)
    ensures e.Call? ==> (Called(e.name, WordOf(f)) <==> IsNamed(e, f))
    decreases e
  {
    if e.Nested? {
      SaysIs(e.inner, f);
    } else if e.Call? && |e.name| == 1 && e.name[0].Word? {
      RecognisedIs(e.name[0].ident.value, f);
    }
  }

  /** A call with that many arguments in its parentheses, and nothing else. */
  predicate PlainList(call: Expr, count: nat) {
    && call.Call? && call.form == Listed(false, false) && |call.items| == count
    && forall item <- call.items :: !item.Star? && !item.Labelled?
  }

  /** A number, signed or not, in any parentheses. */
  predicate IsNumeral(e: Expr) {
    match e
    case Number(_) => true
    case Nested(inner) => IsNumeral(inner)
    case Unary(uop, operand) => (uop == Minus || uop == Plus) && IsNumeral(operand)
    case _ => false
  }

  lemma {:induction false} ConstantIs(e: Expr)
    ensures IsConstant(e) <==> IsNumeral(e)
    decreases e
  {
    if e.Nested? {
      ConstantIs(e.inner);
      NumberThroughNesting(e);
      NumberThroughNesting(e.inner);
    } else if e.Unary? {
      ConstantIs(e.operand);
    }
  }

  /** A `POINT` of those two numbers, in any parentheses. */
  predicate IsCentre(e: Expr, ra: Expr, dec: Expr) {
    match e
    case Nested(inner) => IsCentre(inner, ra, dec)
    case Call(name, _, items) =>
      Called(name, "POINT") && PlainList(e, 2) && items == [ra, dec] && IsNumeral(ra) && IsNumeral(dec)
    case _ => false
  }

  lemma {:induction false} CentreIs(e: Expr, ra: Expr, dec: Expr)
    ensures ConstantPoint(e) == Some((ra, dec)) <==> IsCentre(e, ra, dec)
    decreases e
  {
    if e.Nested? {
      CentreIs(e.inner, ra, dec);
    } else if e.Call? {
      SaysIs(e, POINT);
      if |e.items| == 2 {
        ItemsOfTwo(e);
        ConstantIs(e.items[0]);
        ConstantIs(e.items[1]);
      }
    }
  }

  ghost predicate IsConstantPoint(e: Expr) {
    exists ra, dec :: IsCentre(e, ra, dec)
  }

  lemma {:induction false} ConstantPointIs(e: Expr)
    ensures ConstantPoint(e).Some? <==> IsConstantPoint(e)
  {
    if ConstantPoint(e).Some? {
      CentreIs(e, ConstantPoint(e).value.0, ConstantPoint(e).value.1);
    }
    if ra, dec :| IsCentre(e, ra, dec) {
      CentreIs(e, ra, dec);
    }
  }

  /** One of two positions is a constant centre and the other the row's own, written as positions or coordinates. */
  ghost predicate Centred(items: seq<Expr>, row: Expr, ra: Expr, dec: Expr) {
    || (|items| == 2 && row == items[0] && IsCentre(items[1], ra, dec) && !IsConstantPoint(row))
    || (|items| == 2 && row == items[1] && IsCentre(items[0], ra, dec) && !IsConstantPoint(row))
    || (|items| == 4 && row == CallTo("POINT", items[..2]) && [ra, dec] == items[2..]
        && IsNumeral(ra) && IsNumeral(dec) && !(IsNumeral(items[0]) && IsNumeral(items[1])))
    || (|items| == 4 && row == CallTo("POINT", items[2..]) && [ra, dec] == items[..2]
        && IsNumeral(ra) && IsNumeral(dec) && !(IsNumeral(items[2]) && IsNumeral(items[3])))
  }

  lemma {:induction false} CentredIs(items: seq<Expr>, row: Expr, ra: Expr, dec: Expr)
    requires |items| == 2 || |items| == 4
    ensures RowAndCentre(items) == Some((row, ra, dec)) <==> Centred(items, row, ra, dec)
  {
    if |items| == 2 {
      CentreIs(items[0], ra, dec);
      CentreIs(items[1], ra, dec);
      ConstantPointIs(items[0]);
      ConstantPointIs(items[1]);
    } else {
      ConstantIs(items[0]);
      ConstantIs(items[1]);
      ConstantIs(items[2]);
      ConstantIs(items[3]);
      assert items[..2] == [items[0], items[1]] && items[2..] == [items[2], items[3]];
    }
  }

  // ---- A test in a comparison ----

  /**
   A comparison that a test, 1 or 0, stands on the left of, and whether it asks for the test to
   hold. `<> 0`, `>= 1`, `< 1` and `<= 0` ask as much and are not among them.
   */
  predicate Asks(op: BinaryOp, value: real, holds: bool) {
    if holds then (op == Eq && value == 1.0) || (op == Gt && value == 0.0)
    else (op == Eq && value == 0.0) || (op == NotEq && value == 1.0)
  }

  /** A test's position and its region: the position first, or in either order where order means nothing. */
  predicate Places(call: Expr, point: Expr, region: Expr) {
    && PlainList(call, 2) && Says(point, "POINT")
    && (call.items == [point, region]
        || (Called(call.name, "INTERSECTS") && call.items == [region, point] && !Says(region, "POINT")))
  }

  /** Both children of the test that is written are walked into, and it stays that test. */
  lemma {:induction false} TestWalked(point: Expr, region: Expr)
    ensures Walk(Translator, CallTo("contains", [point, region])).Ok? <==>
              Walk(Translator, point).Ok? && Walk(Translator, region).Ok?
    ensures Walk(Translator, point).Ok? && Walk(Translator, region).Ok? ==>
              Walk(Translator, CallTo("contains", [point, region]))
              == Ok(CallTo("contains", [Walk(Translator, point).value, Walk(Translator, region).value]))
  {
    var test := CallTo("contains", [point, region]);
    WalkFew(Translator, [point, region]);
    assert BeforeExpr(Translator, test) == Ok(test);
    if WalkAll(Translator, test.items).Ok? {
      assert Rebuild(test, WalkAll(Translator, test.items).value)
          == CallTo("contains", WalkAll(Translator, test.items).value);
    }
  }

  lemma {:induction false} NotWalked(test: Expr)
    ensures Walk(Translator, Unary(Not, test)).Ok? <==> Walk(Translator, test).Ok?
    ensures Walk(Translator, test).Ok? ==>
              Walk(Translator, Unary(Not, test)) == Ok(Unary(Not, Walk(Translator, test).value))
  {
    WalkFew(Translator, [test]);
  }

  lemma {:induction false} PlacedTest(call: Expr, point: Expr, region: Expr)
    requires IsRegionFunction(call) && Places(call, point, region)
    ensures Contains(call) == Ok(CallTo("contains", [point, region]))
  {
    SaysIs(point, POINT);
    SaysIs(region, POINT);
    SaysIs(call, INTERSECTS);
  }

  /** What is walked in a region test's place is what the rewriting put there. */
  lemma {:induction false} RewrittenWalk(e: Expr, test: Expr)
    requires RegionTest(e) == Ok(Some(test)) && RegionTest(test) == Ok(None)
    ensures Walk(Translator, e) == Walk(Translator, test)
  {
  }

  /** One comparison and the same one with its sides exchanged, of those a test may be asked by. */
  predicate Turned(op: BinaryOp, other: BinaryOp) {
    match op case Lt => other == Gt case Gt => other == Lt case _ => other == op
  }

  /** The two sides of a comparison, the test's first, and the operator as seen from the test. */
  predicate Faces(e: Expr, call: Expr, number: Expr, op: BinaryOp) {
    && e.Binary?
    && ((Unnest(e.left) == call && number == e.right && op == e.op)
        || (Unnest(e.right) == call && number == e.left && Turned(op, e.op)))
  }

  /** A position tested against a region, and asked to hold or not, becomes the boolean test or its negation. */
  lemma {:induction false} ComparedTestTranslated(e: Expr, call: Expr, number: Expr, op: BinaryOp, holds: bool,
                                                  point: Expr, region: Expr)
    requires IsRegionFunction(call) && Faces(e, call, number, op) && IsConstant(number)
    requires Asks(op, NumberOf(number).value, holds) && Places(call, point, region)
    ensures Walk(Translator, e).Ok? <==> Walk(Translator, point).Ok? && Walk(Translator, region).Ok?
    ensures Walk(Translator, e).Ok? ==>
              var test := CallTo("contains", [Walk(Translator, point).value, Walk(Translator, region).value]);
              Walk(Translator, e).value == if holds then test else Unary(Not, test)
  {
    var test := CallTo("contains", [point, region]);
    PlacedTest(call, point, region);
    RewrittenWalk(e, if holds then test else Unary(Not, test));
    TestWalked(point, region);
    NotWalked(test);
  }

  /** A test on its own, in parentheses or not, is refused: a comparison is what makes it one. */
  lemma {:induction false} LoneTestIsRefused(e: Expr)
    requires IsRegionFunction(Unnest(e))
    ensures Walk(Translator, e).Refused?
  {
    if Walk(Translator, e).Ok? {
      WalkNested(Translator, e);
      WalkCall(Translator, Unnest(e));
    }
  }

  predicate Asked(op: BinaryOp, number: Expr) {
    IsConstant(number) && (Asks(op, NumberOf(number).value, true) || Asks(op, NumberOf(number).value, false))
  }

  /** And so is every comparison of a test that does not ask for it, whatever it would have meant. */
  lemma {:induction false} OtherComparisonsAreRefused(e: Expr, call: Expr, number: Expr, op: BinaryOp)
    requires IsRegionFunction(call) && Faces(e, call, number, op)
    requires !Asked(op, number)
    ensures Walk(Translator, e).Refused?
  {
    var side := if Unnest(e.left) == call && number == e.right && op == e.op then e.left else e.right;
    LoneTestIsRefused(side);
    if RegionTest(e) == Ok(None) {
      ComparisonStays(e);
    } else if RegionTest(e).Ok? {
      BoundOfATest(e, side);
    }
  }

  /** A test standing as the radius of a circle is still on its own. */
  lemma {:induction false} BoundOfATest(e: Expr, side: Expr)
    requires IsCone(e) && (side == e.left || side == e.right) && IsRegionFunction(Unnest(side))
    requires Walk(Translator, side).Refused?
    ensures Walk(Translator, e).Refused?
  {
    var (call, radius) := BoundedDistance(e.left, e.op, e.right).value;
    assert radius == side;
    var (row, ra, dec) := RowAndCentre(call.items).value;
    var circle := CallTo("CIRCLE", [ra, dec, radius]);
    RewrittenWalk(e, CallTo("contains", [row, circle]));
    TestWalked(row, circle);
    if Walk(Translator, circle).Ok? {
      CircleWalked(ra, dec, radius);
    }
  }

  ghost predicate Placeable(call: Expr) {
    exists point, region :: Places(call, point, region) && Walk(Translator, point).Ok? && Walk(Translator, region).Ok?
  }

  /** Exactly these comparisons of a test are translated. */
  lemma {:induction false} ComparisonsTranslated(e: Expr, call: Expr, number: Expr, op: BinaryOp)
    requires IsRegionFunction(call) && Faces(e, call, number, op)
    ensures Walk(Translator, e).Ok? <==> Asked(op, number) && Placeable(call)
  {
    if !Asked(op, number) {
      OtherComparisonsAreRefused(e, call, number, op);
    } else {
      var holds := Asks(op, NumberOf(number).value, true);
      if point, region :| Places(call, point, region) && Walk(Translator, point).Ok? && Walk(Translator, region).Ok? {
        ComparedTestTranslated(e, call, number, op, holds, point, region);
      }
      if Walk(Translator, e).Ok? {
        AskedTestPlaces(e, call, number, op);
        var point, region := TestPlaces(call);
        ComparedTestTranslated(e, call, number, op, holds, point, region);
      }
    }
  }

  lemma {:induction false} AskedTestPlaces(e: Expr, call: Expr, number: Expr, op: BinaryOp)
    requires IsRegionFunction(call) && Faces(e, call, number, op) && Asked(op, number) && Walk(Translator, e).Ok?
    ensures Contains(call).Ok?
  {
    assert RegionTest(e).Ok?;
  }

  lemma {:induction false} TestPlaces(call: Expr) returns (point: Expr, region: Expr)
    requires IsRegionFunction(call) && Contains(call).Ok?
    ensures Places(call, point, region)
  {
    ItemsOfTwo(call);
    var a, b := call.items[0], call.items[1];
    point, region := if IsCall(a, POINT) then a else b, if IsCall(a, POINT) then b else a;
    SaysIs(a, POINT);
    SaysIs(b, POINT);
    SaysIs(call, INTERSECTS);
  }

  // ---- A bounded separation ----

  /** A `DISTANCE` bounded above, from either side. */
  predicate Bounds(e: Expr, call: Expr, radius: Expr) {
    && e.Binary? && call.Call? && Called(call.name, "DISTANCE")
    && ((e.op in {Lt, LtEq} && Unnest(e.left) == call && e.right == radius)
        || (e.op in {Gt, GtEq} && Unnest(e.right) == call && e.left == radius))
  }

  lemma {:induction false} BoundsIs(e: Expr, call: Expr, radius: Expr)
    requires e.Binary?
    ensures Bounds(e, call, radius) <==> BoundedDistance(e.left, e.op, e.right) == Some((call, radius))
    ensures Bounds(e, call, radius) ==> ComparedTest(e.left, e.op, e.right).None?
  {
    SaysIs(call, DISTANCE);
  }

  /** A separation from a constant centre becomes the circle around it, its coordinates as they were written. */
  lemma {:induction false} ConeTranslated(e: Expr, call: Expr, radius: Expr, row: Expr, ra: Expr, dec: Expr)
    requires Bounds(e, call, radius) && Centred(call.items, row, ra, dec) && Walk(Translator, e).Ok?
    ensures Walk(Translator, row).Ok? && Walk(Translator, ra).Ok? && Walk(Translator, dec).Ok?
    ensures Walk(Translator, radius).Ok?
    ensures Walk(Translator, e).value
            == CallTo("contains", [Walk(Translator, row).value,
                                   CallTo("CIRCLE", [Walk(Translator, ra).value, Walk(Translator, dec).value,
                                                     Walk(Translator, radius).value])])
    ensures NumberOf(Walk(Translator, ra).value) == NumberOf(ra)
    ensures NumberOf(Walk(Translator, dec).value) == NumberOf(dec)
  {
    BoundsIs(e, call, radius);
    CentredIs(call.items, row, ra, dec);
    var circle := CallTo("CIRCLE", [ra, dec, radius]);
    RewrittenWalk(e, CallTo("contains", [row, circle]));
    TestWalked(row, circle);
    CircleWalked(ra, dec, radius);
    NumberKept(Translator, ra);
    NumberKept(Translator, dec);
  }

  /**
   Exactly these bounded distances are translated: of two positions or four coordinates, and
   nothing else in the parentheses, and where one position is a constant centre the other is a
   `POINT`. One without a constant centre, between two rows or two constants, stays the comparison.
   */
  lemma {:induction false} BoundedDistancesTranslated(e: Expr, call: Expr, radius: Expr)
    requires Bounds(e, call, radius)
    ensures Walk(Translator, e).Ok? <==>
              && (PlainList(call, 2) || PlainList(call, 4))
              && (forall row, ra, dec :: Centred(call.items, row, ra, dec) ==> Says(row, "POINT"))
              && Walk(Translator, e.left).Ok? && Walk(Translator, e.right).Ok?
    ensures Walk(Translator, e).Ok? && (forall row, ra, dec :: !Centred(call.items, row, ra, dec)) ==>
              Walk(Translator, e).value == Binary(Walk(Translator, e.left).value, e.op, Walk(Translator, e.right).value)
  {
    BoundsIs(e, call, radius);
    if PlainList(call, 2) || PlainList(call, 4) {
      forall row, ra, dec
        ensures RowAndCentre(call.items) == Some((row, ra, dec)) <==> Centred(call.items, row, ra, dec)
      {
        CentredIs(call.items, row, ra, dec);
      }
      if RowAndCentre(call.items).None? {
        ComparisonStays(e);
      } else {
        ConeTaken(e, call, radius);
      }
    }
  }

  lemma {:induction false} ConeTaken(e: Expr, call: Expr, radius: Expr)
    requires Bounds(e, call, radius) && (PlainList(call, 2) || PlainList(call, 4)) && RowAndCentre(call.items).Some?
    ensures Walk(Translator, e).Ok? <==>
              && Says(RowAndCentre(call.items).value.0, "POINT")
              && Walk(Translator, e.left).Ok? && Walk(Translator, e.right).Ok?
  {
    BoundsIs(e, call, radius);
    var (row, ra, dec) := RowAndCentre(call.items).value;
    SaysIs(row, POINT);
    if IsCall(row, POINT) {
      var circle := CallTo("CIRCLE", [ra, dec, radius]);
      RewrittenWalk(e, CallTo("contains", [row, circle]));
      TestWalked(row, circle);
      CircleTaken(ra, dec, radius);
      SeparationTaken(call);
      NestingTaken(e.left);
      NestingTaken(e.right);
    }
  }

  /** A separation is taken exactly when the position that is not its constant centre is. */
  lemma {:induction false} SeparationTaken(call: Expr)
    requires call.Call? && Called(call.name, "DISTANCE") && |call.items| in {2, 4} && RowAndCentre(call.items).Some?
    ensures Walk(Translator, call).Ok? <==> Walk(Translator, RowAndCentre(call.items).value.0).Ok?
  {
    CallTaken(call);
    assert "DISTANCE" !in UNIMPLEMENTED;
    var (row, ra, dec) := RowAndCentre(call.items).value;
    if |call.items| == 2 {
      ItemsOfTwo(call);
      WalkFew(Translator, [call.items[0], call.items[1]]);
      CentreTaken(if ConstantPoint(call.items[0]).Some? then call.items[0] else call.items[1]);
    } else {
      FourTaken(call);
    }
  }

  /** A number written out is always translated. */
  lemma {:induction false} NumberTaken(e: Expr)
    requires IsConstant(e)
    ensures Walk(Translator, e).Ok?
    decreases e
  {
    match e {
      case Nested(inner) =>
        WalkFew(Translator, [inner]);
        NumberTaken(inner);
      case Unary(_, operand) =>
        WalkFew(Translator, [operand]);
        NumberTaken(operand);
      case _ =>
    }
  }

  lemma {:induction false} CircleTaken(ra: Expr, dec: Expr, radius: Expr)
    requires IsConstant(ra) && IsConstant(dec)
    ensures Walk(Translator, CallTo("CIRCLE", [ra, dec, radius])).Ok? <==> Walk(Translator, radius).Ok?
  {
    WrittenTaken("CIRCLE", [ra, dec, radius]);
    NumberTaken(ra);
    NumberTaken(dec);
    WalkFew(Translator, [ra, dec, radius]);
  }

  /** A geometry the translation writes is taken exactly when what it is made of is. */
  lemma {:induction false} WrittenTaken(word: string, items: seq<Expr>)
    requires word == "POINT" || word == "CIRCLE"
    ensures Walk(Translator, CallTo(word, items)).Ok? <==> WalkAll(Translator, items).Ok?
  {
    CallTaken(CallTo(word, items));
    assert Upper("POINT") == "POINT" && Upper("CIRCLE") == "CIRCLE";
  }

  /** A constant centre is always translated. */
  lemma {:induction false} CentreTaken(e: Expr)
    requires ConstantPoint(e).Some?
    ensures Walk(Translator, e).Ok?
  {
    var call := Unnest(e);
    NestingTaken(e);
    CallTaken(call);
    SaysIs(call, POINT);
    ItemsOfTwo(call);
    NumberTaken(call.items[0]);
    NumberTaken(call.items[1]);
    WalkFew(Translator, [call.items[0], call.items[1]]);
  }

  lemma {:induction false} FourTaken(call: Expr)
    requires call.Call? && |call.items| == 4 && RowAndCentre(call.items).Some?
    ensures WalkAll(Translator, call.items).Ok? <==> Walk(Translator, RowAndCentre(call.items).value.0).Ok?
  {
    ItemsOfFour(call);
    var a, b, c, d := call.items[0], call.items[1], call.items[2], call.items[3];
    assert call.items[1..] == [b, c, d];
    WalkFew(Translator, [b, c, d]);
    WalkFew(Translator, [a, b]);
    WalkFew(Translator, [c, d]);
    WrittenTaken("POINT", [a, b]);
    WrittenTaken("POINT", [c, d]);
    if IsConstant(a) && IsConstant(b) {
      NumberTaken(a);
      NumberTaken(b);
    } else {
      NumberTaken(c);
      NumberTaken(d);
    }
  }

  lemma {:induction false} CircleWalked(ra: Expr, dec: Expr, radius: Expr)
    requires Walk(Translator, CallTo("CIRCLE", [ra, dec, radius])).Ok?
    ensures Walk(Translator, ra).Ok? && Walk(Translator, dec).Ok? && Walk(Translator, radius).Ok?
    ensures Walk(Translator, CallTo("CIRCLE", [ra, dec, radius])).value
         == CallTo("CIRCLE", [Walk(Translator, ra).value, Walk(Translator, dec).value, Walk(Translator, radius).value])
  {
    var call := CallTo("CIRCLE", [ra, dec, radius]);
    WalkCall(Translator, call);
    WalkFew(Translator, [ra, dec, radius]);
  }

  /** A comparison that is no test stays that comparison, of what its sides become. */
  lemma {:induction false} ComparisonStays(e: Expr)
    requires e.Binary? && RegionTest(e) == Ok(None)
    ensures Walk(Translator, e).Ok? <==> Walk(Translator, e.left).Ok? && Walk(Translator, e.right).Ok?
    ensures Walk(Translator, e).Ok? ==>
              Walk(Translator, e).value == Binary(Walk(Translator, e.left).value, e.op, Walk(Translator, e.right).value)
  {
    WalkFew(Translator, [e.left, e.right]);
  }

  // ---- Functions by name ----

  /** The functions of ADQL this service does not answer. */
  const UNIMPLEMENTED: set<string> := {"AREA", "BOX", "CENTROID", "COORD1", "COORD2", "COORDSYS", "IN_UNIT",
                                       "IVO_GEOM_TRANSFORM", "POLYGON", "REGION"}

  lemma {:induction false} UnimplementedIs(written: string)
    ensures IsImplemented(Recognised(written)) <==> Upper(written) !in UNIMPLEMENTED
  {
    SpelledBack(Upper(written));
  }

  /**
   A name the translator lets stand over what is in its parentheses: quoted or of several parts,
   or a word that is answered and is no test; and a remainder has its two arguments and no more.
   */
  predicate CallAllowed(call: Expr)
    requires call.Call?
  {
    && (|call.name| == 1 && call.name[0].Word? && !call.name[0].ident.quoted ==>
          Upper(call.name[0].ident.value) !in UNIMPLEMENTED)
    && !Called(call.name, "CONTAINS") && !Called(call.name, "INTERSECTS")
    && (Called(call.name, "MOD") ==> PlainList(call, 2))
  }

  /** Exactly these calls are translated. */
  lemma {:induction false} CallTaken(call: Expr)
    requires call.Call?
    ensures Walk(Translator, call).Ok? <==> WalkAll(Translator, call.items).Ok? && CallAllowed(call)
  {
    SaysIs(call, CONTAINS);
    SaysIs(call, INTERSECTS);
    SaysIs(call, MOD);
    if AdqlName(call.name).Some? {
      UnimplementedIs(call.name[0].ident.value);
    }
    if WalkAll(Translator, call.items).Ok? {
      PlainKept(Translator, call.items);
      assert Rebuild(call, WalkAll(Translator, call.items).value)
             == call.(items := WalkAll(Translator, call.items).value);
    }
  }

  /** Parentheses refuse nothing. */
  lemma {:induction false} NestingTaken(e: Expr)
    ensures Walk(Translator, e).Ok? <==> Walk(Translator, Unnest(e)).Ok?
    decreases e
  {
    if e.Nested? {
      WalkFew(Translator, [e.inner]);
      NestingTaken(e.inner);
    }
  }

  /** `MOD` of two plain arguments is the remainder of what they become; of anything else it is refused. */
  lemma {:induction false} RemainderTranslated(call: Expr)
    requires call.Call? && Called(call.name, "MOD")
    ensures Walk(Translator, call).Ok? <==> PlainList(call, 2) && WalkAll(Translator, call.items).Ok?
    ensures Walk(Translator, call).Ok? ==>
              var kids := WalkAll(Translator, call.items).value;
              |kids| == 2 && Walk(Translator, call).value == Nested(Binary(kids[0], Modulo, kids[1]))
  {
    SaysIs(call, MOD);
    CallTaken(call);
    assert "MOD" !in UNIMPLEMENTED;
    if Walk(Translator, call).Ok? {
      WalkCall(Translator, call);
    }
  }
}
