/** The names a statement reads free, which neither pass adds to nor takes from. */
module FreeTables {
  import opened Wrappers
  import opened Functions
  import opened Syntax
  import opened Rewrite
  import opened Visit
  import opened Shapes
  import opened Scoping

  // ---- Lists, parentheses and numbers ----

  lemma {:induction false} FreeInFew(x: string, es: seq<Expr>, c: bool)
    ensures |es| == 0 ==> !FreeAll(x, es, c)
    ensures |es| == 1 ==> FreeAll(x, es, c) == Free(x, es[0], c)
    ensures |es| == 2 ==> FreeAll(x, es, c) == (Free(x, es[0], c) || Free(x, es[1], c))
    ensures |es| == 3 ==> FreeAll(x, es, c) == (Free(x, es[0], c) || Free(x, es[1], c) || Free(x, es[2], c))
    ensures |es| == 4 ==>
              FreeAll(x, es, c) == (Free(x, es[0], c) || Free(x, es[1], c) || Free(x, es[2], c) || Free(x, es[3], c))
  {
    if 0 < |es| <= 4 {
      FreeInFew(x, es[1..], c);
    }
  }

  lemma {:induction false} FreeInNested(x: string, e: Expr, c: bool)
    ensures Free(x, Unnest(e), c) == Free(x, e, c)
    decreases e
  {
    if e.Nested? {
      FreeInFew(x, [e.inner], c);
      FreeInNested(x, e.inner, c);
    }
  }

  lemma {:induction false} NumberIsClosed(x: string, e: Expr, c: bool)
    requires IsConstant(e)
    ensures !Free(x, e, c)
    decreases Weight(e)
  {
    FreeInNested(x, e, c);
    UnnestWeighs(e);
    var u := Unnest(e);
    if u.Unary? {
      FreeInFew(x, [u.operand], c);
      NumberIsClosed(x, u.operand, c);
    }
  }

  lemma {:induction false} FreeInBinary(x: string, e: Expr, c: bool)
    requires e.Binary?
    ensures Free(x, e, c) == (Free(x, Unnest(e.left), c) || Free(x, Unnest(e.right), c))
  {
    FreeInFew(x, [e.left, e.right], c);
    FreeInNested(x, e.left, c);
    FreeInNested(x, e.right, c);
  }

  // ---- One node ----

  lemma {:induction false} ContainsReads(x: string, call: Expr, c: bool)
    requires IsRegionFunction(call) && Contains(call).Ok?
    ensures Free(x, Contains(call).value, c) == Free(x, call, c)
  {
    ItemsOfTwo(call);
    FreeInFew(x, [call.items[0], call.items[1]], c);
    FreeInFew(x, [call.items[1], call.items[0]], c);
  }

  lemma {:induction false} RowReads(x: string, call: Expr, c: bool)
    requires call.Call? && |call.items| in {2, 4} && RowAndCentre(call.items).Some?
    ensures Free(x, RowAndCentre(call.items).value.0, c) == Free(x, call, c)
  {
    if |call.items| == 2 {
      ItemsOfTwo(call);
      FreeInFew(x, [call.items[0], call.items[1]], c);
      ConstantPointIsClosed(x, if ConstantPoint(call.items[0]).Some? then call.items[0] else call.items[1], c);
    } else {
      FreeInFew(x, call.items, c);
      FreeInFew(x, call.items[..2], c);
      FreeInFew(x, call.items[2..], c);
      var first := IsConstant(call.items[0]) && IsConstant(call.items[1]);
      TwoNumbersAreClosed(x, if first then call.items[..2] else call.items[2..], c);
    }
  }

  lemma {:induction false} TwoNumbersAreClosed(x: string, items: seq<Expr>, c: bool)
    requires |items| == 2 && IsConstant(items[0]) && IsConstant(items[1])
    ensures !FreeAll(x, items, c)
  {
    assert items == [items[0], items[1]];
    FreeInFew(x, [items[0], items[1]], c);
    NumberIsClosed(x, items[0], c);
    NumberIsClosed(x, items[1], c);
  }

  lemma {:induction false} ConstantPointIsClosed(x: string, e: Expr, c: bool)
    requires ConstantPoint(e).Some?
    ensures !Free(x, e, c)
  {
    FreeInNested(x, e, c);
    TwoNumbersAreClosed(x, Unnest(e).items, c);
  }

  lemma {:induction false} WithinReads(x: string, call: Expr, radius: Expr, c: bool)
    requires call.Call? && Within(call, radius).Ok? && Within(call, radius).value.Some?
    ensures Free(x, Within(call, radius).value.value, c) == (Free(x, call, c) || Free(x, radius, c))
  {
    var (row, ra, dec) := RowAndCentre(call.items).value;
    var circle := CallTo("CIRCLE", [ra, dec, radius]);
    RowReads(x, call, c);
    NumberIsClosed(x, ra, c);
    NumberIsClosed(x, dec, c);
    FreeInFew(x, [ra, dec, radius], c);
    assert Free(x, circle, c) == FreeAll(x, [ra, dec, radius], c);
    FreeInFew(x, [row, circle], c);
  }

  /** A region test rewritten reads the tables it read. */
  lemma {:induction false} TestReads(x: string, e: Expr, c: bool)
    requires RegionTest(e).Ok? && RegionTest(e).value.Some?
    ensures Free(x, RegionTest(e).value.value, c) == Free(x, e, c)
  {
    FreeInBinary(x, e, c);
    match ComparedTest(e.left, e.op, e.right) {
      case Some((call, _)) =>
        var number := if IsRegionFunction(Unnest(e.left)) then e.right else e.left;
        NumberIsClosed(x, number, c);
        FreeInNested(x, number, c);
        ContainsReads(x, call, c);
        FreeInFew(x, [Contains(call).value], c);
      case None =>
        var (call, radius) := BoundedDistance(e.left, e.op, e.right).value;
        FreeInNested(x, radius, c);
        WithinReads(x, call, radius, c);
    }
  }

  lemma {:induction false} AfterReads(v: Visitor, x: string, call: Expr, c: bool)
    requires call.Call? && AfterExpr(v, call).Ok?
    ensures Free(x, AfterExpr(v, call).value, c) == FreeAll(x, call.items, c)
  {
    if v.CoordinateSystems? && NamesSystem(call) {
      FreeInNested(x, call.items[0], c);
    } else if v.Translator? && AdqlName(call.name) == Some(MOD) {
      ItemsOfTwo(call);
      FreeInFew(x, [call.items[0], call.items[1]], c);
      FreeInFew(x, [Binary(call.items[0], Modulo, call.items[1])], c);
    }
  }

  // ---- The whole tree ----

  lemma {:induction false} Reads(v: Visitor, x: string, e: Expr, c: bool)
    requires Walk(v, e).Ok?
    ensures Free(x, Walk(v, e).value, c) == Free(x, e, c)
    decreases Weight(e)
  {
    BeforeExprShrinks(v, e);
    var before := BeforeExpr(v, e).value;
    if before != e {
      TestReads(x, e, c);
    }
    ReadsAll(v, x, Kids(before), c);
    if before.Related? {
      ReadsQuery(v, x, before.query, c);
    }
    if before.Call? {
      AfterReads(v, x, before.(items := WalkAll(v, before.items).value), c);
    }
  }

  lemma {:induction false} ReadsAll(v: Visitor, x: string, es: seq<Expr>, c: bool)
    requires WalkAll(v, es).Ok?
    ensures FreeAll(x, WalkAll(v, es).value, c) == FreeAll(x, es, c)
    decreases WeightAll(es)
  {
    if es != [] {
      var head, tail := Walk(v, es[0]).value, WalkAll(v, es[1..]).value;
      assert ([head] + tail)[0] == head && ([head] + tail)[1..] == tail;
      Reads(v, x, es[0], c);
      ReadsAll(v, x, es[1..], c);
    }
  }

  /** A query reads free what it read free, under nested scoping, after either pass. */
  lemma {:induction false} ReadsQuery(v: Visitor, x: string, q: Query, c: bool)
    requires WalkQuery(v, q).Ok?
    ensures FreeQuery(x, WalkQuery(v, q).value, c) == FreeQuery(x, q, c)
    decreases WeightQuery(q)
  {
    BeforeQueryShrinks(v, q);
    var before := BeforeQuery(v, q).value;
    if before != q {
      TopReads(x, q, c);
    }
    var inner := c || Defines(before.with, x);
    DefinesKept(v, x, before.with);
    ReadsWith(v, x, before.with, c);
    ReadsBody(v, x, before.body, inner);
    ReadsAll(v, x, before.order, inner);
    ReadsAll(v, x, before.limit, inner);
    ReadsAll(v, x, before.offset, inner);
  }

  lemma {:induction false} TopReads(x: string, q: Query, c: bool)
    requires TopAsLimit(q).Ok?
    ensures FreeQuery(x, TopAsLimit(q).value, c) == FreeQuery(x, q, c)
  {
    if q.body.Select? && q.body.top.Top? {
      var n := Number(q.body.top.quantity.count as real);
      var inner := c || Defines(q.with, x);
      FreeInFew(x, [n], inner);
      NumberIsClosed(x, n, inner);
      assert FreeBody(x, q.body.(top := NoTop), inner) == FreeBody(x, q.body, inner);
    }
  }

  lemma {:induction false} DefinesKept(v: Visitor, x: string, w: With)
    requires WalkWith(v, w).Ok?
    ensures Defines(WalkWith(v, w).value, x) == Defines(w, x)
    decreases w
  {
    if w.Cte? {
      DefinesKept(v, x, w.earlier);
    }
  }

  lemma {:induction false} ReadsWith(v: Visitor, x: string, w: With, c: bool)
    requires WalkWith(v, w).Ok?
    ensures FreeWith(x, WalkWith(v, w).value, c) == FreeWith(x, w, c)
    decreases WeightWith(w)
  {
    if w.Cte? {
      DefinesKept(v, x, w.earlier);
      ReadsWith(v, x, w.earlier, c);
      ReadsQuery(v, x, w.named, c || Defines(w.earlier, x));
    }
  }

  lemma {:induction false} ReadsBody(v: Visitor, x: string, b: Body, c: bool)
    requires WalkBody(v, b).Ok?
    ensures FreeBody(x, WalkBody(v, b).value, c) == FreeBody(x, b, c)
    decreases WeightBody(b)
  {
    match b {
      case Select(_, columns, from, filter) =>
        ReadsAll(v, x, columns, c);
        ReadsSource(v, x, from, c);
        ReadsAll(v, x, filter, c);
      case SetOperation(_, one, other) =>
        ReadsBody(v, x, one, c);
        ReadsBody(v, x, other, c);
      case Inner(inside) => ReadsQuery(v, x, inside, c);
    }
  }

  lemma {:induction false} ReadsSource(v: Visitor, x: string, s: Source, c: bool)
    requires WalkSource(v, s).Ok?
    ensures FreeSource(x, WalkSource(v, s).value, c) == FreeSource(x, s, c)
    decreases WeightSource(s)
  {
    match s {
      case Nothing =>
      case Table(_, _, args, _) => ReadsAll(v, x, args, c);
      case Derived(derived, _) => ReadsQuery(v, x, derived, c);
      case Joined(near, far, on) =>
        ReadsSource(v, x, near, c);
        ReadsSource(v, x, far, c);
        ReadsAll(v, x, on, c);
    }
  }
}
