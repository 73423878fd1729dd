/**
 What the walk never changes about a node: a number stays that number, a string literal that
 literal, and a `POINT` or a `DISTANCE` a call of the same name over walked arguments. The
 translator's decisions rest on exactly these, so they fall the same way before and after it.
 */
module Shapes {
  import opened Wrappers
  import opened Syntax
  import opened Functions
  import opened Rewrite
  import opened Visit

  lemma {:induction false} WalkAllAt(v: Visitor, es: seq<Expr>, i: nat)
    requires WalkAll(v, es).Ok? && i < |es|
    ensures Walk(v, es[i]).Ok? && WalkAll(v, es).value[i] == Walk(v, es[i]).value
  {
    if i > 0 {
      WalkAllAt(v, es[1..], i - 1);
    }
  }

  /** A list of a few is walked one by one. */
  lemma {:induction false} WalkFew(v: Visitor, es: seq<Expr>)
    requires 1 <= |es| <= 3
    ensures WalkAll(v, es).Ok? <==>
              && Walk(v, es[0]).Ok? && (|es| > 1 ==> Walk(v, es[1]).Ok?) && (|es| > 2 ==> Walk(v, es[2]).Ok?)
    ensures WalkAll(v, es).Ok? ==>
              WalkAll(v, es).value
              == if |es| == 1 then [Walk(v, es[0]).value]
                 else if |es| == 2 then [Walk(v, es[0]).value, Walk(v, es[1]).value]
                 else [Walk(v, es[0]).value, Walk(v, es[1]).value, Walk(v, es[2]).value]
  {
    if |es| > 1 {
      WalkFew(v, es[1..]);
    } else {
      assert es[1..] == [] && WalkAll(v, []) == Ok([]);
    }
  }

  /** A call is walked into and then looked at; the hook leaves a call or a remainder. */
  lemma {:induction false} WalkCall(v: Visitor, u: Expr)
    requires Walk(v, u).Ok? && u.Call?
    ensures WalkAll(v, u.items).Ok?
    ensures Walk(v, u) == AfterExpr(v, u.(items := WalkAll(v, u.items).value))
    ensures Walk(v, u).value.Call? || (Walk(v, u).value.Nested? && Walk(v, u).value.inner.Binary?)
  {
    assert BeforeExpr(v, u) == Ok(u);
    assert Rebuild(u, WalkAll(v, u.items).value) == u.(items := WalkAll(v, u.items).value);
  }

  /** Any other node the first hook leaves alone stays what it is, over walked children. */
  lemma {:induction false} WalkOther(v: Visitor, u: Expr)
    requires Walk(v, u).Ok? && !u.Call? && BeforeExpr(v, u) == Ok(u)
    ensures WalkAll(v, Kids(u)).Ok?
    ensures !u.Related? ==> Walk(v, u).value == Rebuild(u, WalkAll(v, Kids(u)).value)
    ensures u.Related? ==> WalkQuery(v, u.query).Ok?
    ensures u.Related? ==>
              Walk(v, u).value == Rebuild(u, WalkAll(v, Kids(u)).value).(query := WalkQuery(v, u.query).value)
  {
  }

  /** Walking sees through parentheses. */
  lemma {:induction false} WalkNested(v: Visitor, e: Expr)
    requires Walk(v, e).Ok?
    ensures Walk(v, Unnest(e)).Ok?
    ensures Unnest(Walk(v, e).value) == Unnest(Walk(v, Unnest(e)).value)
    decreases e
  {
    if e.Nested? {
      WalkFew(v, [e.inner]);
      WalkNested(v, e.inner);
    }
  }

  /** A number written out is the same number after the walk, and nothing becomes one. */
  lemma {:induction false} NumberKept(v: Visitor, e: Expr)
    requires Walk(v, e).Ok?
    ensures NumberOf(Walk(v, e).value) == NumberOf(e)
    decreases Weight(e), 1
  {
    WalkNested(v, e);
    NumberThroughNesting(e);
    NumberThroughNesting(Walk(v, e).value);
    NumberThroughNesting(Walk(v, Unnest(e)).value);
    UnnestWeighs(e);
    NumberKeptBare(v, Unnest(e));
  }

  lemma {:induction false} NumberKeptBare(v: Visitor, u: Expr)
    requires Walk(v, u).Ok? && !u.Nested?
    ensures NumberOf(Walk(v, u).value) == NumberOf(u)
    decreases Weight(u), 0
  {
    if u.Unary? {
      WalkFew(v, [u.operand]);
      NumberKept(v, u.operand);
    } else if u.Binary? && v.Translator? && RegionTest(u).value.Some? {
      NotANumber(v, u);
    } else if u.Call? {
      CallIsNoNumber(v, u);
    }
  }

  lemma {:induction false} CallIsNoNumber(v: Visitor, u: Expr)
    requires Walk(v, u).Ok? && u.Call?
    ensures NumberOf(Walk(v, u).value).None? && !Unnest(Walk(v, u).value).Quoted?
  {
    WalkCall(v, u);
    NumberThroughNesting(Walk(v, u).value);
  }

  lemma {:induction false} NumberThroughNesting(e: Expr)
    ensures NumberOf(Unnest(e)) == NumberOf(e)
  {
  }

  lemma {:induction false} NotANumber(v: Visitor, u: Expr)
    requires v.Translator? && u.Binary? && Walk(v, u).Ok? && RegionTest(u).Ok? && RegionTest(u).value.Some?
    ensures NumberOf(Walk(v, u).value).None? && !Unnest(Walk(v, u).value).Quoted?
    ensures forall f :: !IsCall(Walk(v, u).value, f)
  {
    var test := RegionTest(u).value.value;
    if test.Unary? {
      WalkFew(v, [test.operand]);
    }
  }

  /** A string literal is the same literal after the walk, and nothing becomes one. */
  lemma {:induction false} TextKept(v: Visitor, e: Expr)
    requires Walk(v, e).Ok?
    ensures Unnest(Walk(v, e).value).Quoted? == Unnest(e).Quoted?
    ensures Unnest(e).Quoted? ==> Unnest(Walk(v, e).value) == Unnest(e)
  {
    WalkNested(v, e);
    var u := Unnest(e);
    if u.Binary? && v.Translator? && RegionTest(u).value.Some? {
      NotANumber(v, u);
    } else if u.Call? {
      CallIsNoNumber(v, u);
    } else {
      WalkOther(v, u);
    }
  }

  /** The names a geometry and a separation are read by, and by nothing else. */
  predicate Kept(f: AdqlFunction) {
    f.POINT? || f.DISTANCE?
  }

  /** The translator leaves a `POINT` and a `DISTANCE` standing, over the walked arguments. */
  lemma {:induction false} CallKept(e: Expr, f: AdqlFunction)
    requires Walk(Translator, e).Ok? && Kept(f)
    ensures IsCall(Walk(Translator, e).value, f) == IsCall(e, f)
    ensures IsCall(e, f) ==> WalkAll(Translator, Unnest(e).items).Ok?
    ensures IsCall(e, f) ==>
              Unnest(Walk(Translator, e).value) == Unnest(e).(items := WalkAll(Translator, Unnest(e).items).value)
  {
    WalkNested(Translator, e);
    var u := Unnest(e);
    if u.Binary? && RegionTest(u).value.Some? {
      NotANumber(Translator, u);
    } else if u.Call? {
      WalkCall(Translator, u);
      NamedCallKept(u.(items := WalkAll(Translator, u.items).value), f);
    } else {
      WalkOther(Translator, u);
    }
  }

  lemma {:induction false} NamedCallKept(call: Expr, f: AdqlFunction)
    requires call.Call? && AfterExpr(Translator, call).Ok? && Kept(f)
    ensures IsCall(AfterExpr(Translator, call).value, f) == IsNamed(call, f)
    ensures IsNamed(call, f) ==> AfterExpr(Translator, call).value == call
  {
    WrittenRenamings();
    if AdqlName(call.name) == Some(MOD) {
      var remainder := Remainder(call).value;
      assert !Unnest(remainder.inner).Call?;
    }
  }

  lemma {:induction false} PlainKept(v: Visitor, es: seq<Expr>)
    requires WalkAll(v, es).Ok?
    ensures (forall item <- WalkAll(v, es).value :: Positional(item)) <==> (forall item <- es :: Positional(item))
  {
    var walked := WalkAll(v, es).value;
    forall i | 0 <= i < |es|
      ensures Positional(walked[i]) == Positional(es[i])
    {
      WalkAllAt(v, es, i);
      PositionalKept(v, es[i]);
    }
  }

  lemma {:induction false} PositionalKept(v: Visitor, e: Expr)
    requires Walk(v, e).Ok?
    ensures Positional(Walk(v, e).value) == Positional(e)
  {
    if e.Binary? && v.Translator? && RegionTest(e).value.Some? {
      var test := RegionTest(e).value.value;
      assert Walk(v, e).value.Call? || Walk(v, e).value.Unary?;
    }
  }

  /** A `POINT` of two numbers is one after the translator too, of the same numbers. */
  lemma {:induction false} ConstantPointKept(e: Expr)
    requires Walk(Translator, e).Ok?
    ensures ConstantPoint(Walk(Translator, e).value).Some? == ConstantPoint(e).Some?
  {
    CallKept(e, POINT);
    var u := Unnest(e);
    if IsNamed(u, POINT) {
      PlainKept(Translator, u.items);
      if |u.items| == 2 {
        WalkAllAt(Translator, u.items, 0);
        WalkAllAt(Translator, u.items, 1);
        NumberKept(Translator, u.items[0]);
        NumberKept(Translator, u.items[1]);
      }
    }
  }

  /** What a separation has for a row and a centre is the same question before and after. */
  lemma {:induction false} RowAndCentreKept(args: seq<Expr>)
    requires |args| == 2 || |args| == 4
    requires WalkAll(Translator, args).Ok?
    ensures RowAndCentre(WalkAll(Translator, args).value).Some? == RowAndCentre(args).Some?
  {
    forall i | 0 <= i < |args|
      ensures IsConstant(WalkAll(Translator, args).value[i]) == IsConstant(args[i])
      ensures ConstantPoint(WalkAll(Translator, args).value[i]).Some? == ConstantPoint(args[i]).Some?
    {
      WalkAllAt(Translator, args, i);
      NumberKept(Translator, args[i]);
      ConstantPointKept(args[i]);
    }
  }
}
