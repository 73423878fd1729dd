/**
 String literals counted through both passes. Neither ever writes one, and the first takes one off
 wherever a geometry begins with one; so a statement that both together give back has none that does.
 */
module Literals {
  import opened Wrappers
  import opened Functions
  import opened Syntax
  import opened Rewrite
  import opened Visit
  import opened Facts
  import opened Shapes

  function Texts(e: Expr): nat
    decreases Weight(e)
  {
    KidsWeigh(e);
    (if e.Quoted? then 1 else 0) + TextsAll(Kids(e)) + if e.Related? then TextsQuery(e.query) else 0
  }

  function TextsAll(es: seq<Expr>): nat
    decreases WeightAll(es)
  {
    if es == [] then 0 else Texts(es[0]) + TextsAll(es[1..])
  }

  function TextsQuery(q: Query): nat
    decreases WeightQuery(q)
  {
    TextsWith(q.with) + TextsBody(q.body) + TextsAll(q.order) + TextsAll(q.limit) + TextsAll(q.offset)
  }

  function TextsWith(w: With): nat
    decreases WeightWith(w)
  {
    match w case NoWith => 0 case Cte(earlier, _, named) => TextsWith(earlier) + TextsQuery(named)
  }

  function TextsBody(b: Body): nat
    decreases WeightBody(b)
  {
    match b
    case Select(_, columns, from, filter) => TextsAll(columns) + TextsSource(from) + TextsAll(filter)
    case SetOperation(_, one, other) => TextsBody(one) + TextsBody(other)
    case Inner(inside) => TextsQuery(inside)
  }

  function TextsSource(s: Source): nat
    decreases WeightSource(s)
  {
    match s
    case Nothing => 0
    case Table(_, _, args, _) => TextsAll(args)
    case Derived(derived, _) => TextsQuery(derived)
    case Joined(near, far, on) => TextsSource(near) + TextsSource(far) + TextsAll(on)
  }

  // ---- Lists, parentheses and numbers ----

  lemma {:induction false} TextsOfFew(es: seq<Expr>)
    ensures |es| == 0 ==> TextsAll(es) == 0
    ensures |es| == 1 ==> TextsAll(es) == Texts(es[0])
    ensures |es| == 2 ==> TextsAll(es) == Texts(es[0]) + Texts(es[1])
    ensures |es| == 3 ==> TextsAll(es) == Texts(es[0]) + Texts(es[1]) + Texts(es[2])
    ensures |es| == 4 ==> TextsAll(es) == Texts(es[0]) + Texts(es[1]) + Texts(es[2]) + Texts(es[3])
  {
    if 0 < |es| <= 4 {
      TextsOfFew(es[1..]);
    }
  }

  lemma {:induction false} TextsOfNested(e: Expr)
    ensures Texts(Unnest(e)) == Texts(e)
    decreases e
  {
    if e.Nested? {
      TextsOfFew([e.inner]);
      TextsOfNested(e.inner);
    }
  }

  lemma {:induction false} TextsOfNumber(e: Expr)
    requires IsConstant(e)
    ensures Texts(e) == 0
    decreases Weight(e)
  {
    TextsOfNested(e);
    UnnestWeighs(e);
    var u := Unnest(e);
    if u.Unary? {
      TextsOfFew([u.operand]);
      TextsOfNumber(u.operand);
    }
  }

  lemma {:induction false} TextsOfBinary(e: Expr)
    requires e.Binary?
    ensures Texts(e) == Texts(Unnest(e.left)) + Texts(Unnest(e.right))
  {
    TextsOfFew([e.left, e.right]);
    TextsOfNested(e.left);
    TextsOfNested(e.right);
  }

  // ---- One node ----

  lemma {:induction false} ContainsHolds(call: Expr)
    requires IsRegionFunction(call) && Contains(call).Ok?
    ensures Texts(Contains(call).value) == Texts(call)
  {
    ItemsOfTwo(call);
    TextsOfFew([call.items[0], call.items[1]]);
    TextsOfFew([call.items[1], call.items[0]]);
  }

  lemma {:induction false} RowHolds(call: Expr)
    requires call.Call? && |call.items| in {2, 4} && RowAndCentre(call.items).Some?
    ensures Texts(RowAndCentre(call.items).value.0) <= Texts(call)
  {
    if |call.items| == 2 {
      ItemsOfTwo(call);
      TextsOfFew([call.items[0], call.items[1]]);
    } else {
      ItemsOfFour(call);
      TextsOfFew([call.items[0], call.items[1], call.items[2], call.items[3]]);
      TextsOfFew([call.items[0], call.items[1]]);
      TextsOfFew([call.items[2], call.items[3]]);
    }
  }

  lemma {:induction false} WithinHolds(call: Expr, radius: Expr)
    requires call.Call? && Within(call, radius).Ok? && Within(call, radius).value.Some?
    ensures Texts(Within(call, radius).value.value) <= Texts(call) + Texts(radius)
  {
    var (row, ra, dec) := RowAndCentre(call.items).value;
    var circle := CallTo("CIRCLE", [ra, dec, radius]);
    RowHolds(call);
    TextsOfNumber(ra);
    TextsOfNumber(dec);
    TextsOfFew([ra, dec, radius]);
    TextsOfFew([row, circle]);
  }

  /** A region test rewritten holds no literal that was not there. */
  lemma {:induction false} TestHolds(e: Expr)
    requires RegionTest(e).Ok? && RegionTest(e).value.Some?
    ensures Texts(RegionTest(e).value.value) <= Texts(e)
  {
    TextsOfBinary(e);
    match ComparedTest(e.left, e.op, e.right) {
      case Some((call, _)) =>
        ContainsHolds(call);
        TextsOfFew([Contains(call).value]);
      case None =>
        var (call, radius) := BoundedDistance(e.left, e.op, e.right).value;
        TextsOfNested(radius);
        WithinHolds(call, radius);
    }
  }

  /** The hook after a call holds what it held, and one literal less where it takes a system off. */
  lemma {:induction false} AfterHolds(v: Visitor, call: Expr)
    requires call.Call? && AfterExpr(v, call).Ok?
    ensures Texts(AfterExpr(v, call).value) <= TextsAll(call.items)
    ensures v.CoordinateSystems? && Texts(AfterExpr(v, call).value) == TextsAll(call.items) ==> !NamesSystem(call)
  {
    if v.CoordinateSystems? && NamesSystem(call) {
      TextsOfNested(call.items[0]);
    } else if v.Translator? && AdqlName(call.name) == Some(MOD) {
      ItemsOfTwo(call);
      TextsOfFew([call.items[0], call.items[1]]);
      TextsOfFew([Binary(call.items[0], Modulo, call.items[1])]);
    }
  }

  // ---- The whole tree ----

  /** No literal is added; and where the first pass loses none, no geometry begins with one. */
  predicate Held(v: Visitor, before: nat, after: nat, bare: bool) {
    after <= before && (v.CoordinateSystems? && after == before ==> bare)
  }

  lemma {:induction false} Holds(v: Visitor, e: Expr)
    requires Walk(v, e).Ok?
    ensures Held(v, Texts(e), Texts(Walk(v, e).value), Everywhere(NoSystem, e))
    decreases Weight(e)
  {
    BeforeExprShrinks(v, e);
    var before := BeforeExpr(v, e).value;
    if before != e {
      TestHolds(e);
    }
    HoldsAll(v, Kids(before));
    if before.Related? {
      HoldsQuery(v, before.query);
    }
    if before.Call? {
      CallHolds(v, before);
    } else {
      OtherHolds(v, before, WalkAll(v, Kids(before)).value);
    }
  }

  /** Any other node holds what is under it. */
  lemma {:induction false} OtherHolds(v: Visitor, e: Expr, kids: seq<Expr>)
    requires !e.Call? && |kids| == |Kids(e)|
    ensures AfterExpr(v, Rebuild(e, kids)) == Ok(Rebuild(e, kids))
    ensures !e.Related? ==> Texts(Rebuild(e, kids)) - TextsAll(kids) == Texts(e) - TextsAll(Kids(e))
    ensures e.Related? ==>
              forall q :: Texts(Rebuild(e, kids).(query := q)) - TextsAll(kids) - TextsQuery(q)
                       == Texts(e) - TextsAll(Kids(e)) - TextsQuery(e.query)
  {
  }

  /** A call, given what its arguments hold. */
  lemma {:induction false} CallHolds(v: Visitor, call: Expr)
    requires call.Call? && Walk(v, call).Ok? && WalkAll(v, call.items).Ok?
    requires Held(v, TextsAll(call.items), TextsAll(WalkAll(v, call.items).value), EverywhereAll(NoSystem, call.items))
    ensures Held(v, Texts(call), Texts(Walk(v, call).value), Everywhere(NoSystem, call))
  {
    var between := call.(items := WalkAll(v, call.items).value);
    WalkCall(v, call);
    AfterHolds(v, between);
    if call.items != [] {
      WalkAllAt(v, call.items, 0);
      TextKept(v, call.items[0]);
    }
  }

  lemma {:induction false} HoldsAll(v: Visitor, es: seq<Expr>)
    requires WalkAll(v, es).Ok?
    ensures Held(v, TextsAll(es), TextsAll(WalkAll(v, es).value), EverywhereAll(NoSystem, es))
    decreases WeightAll(es)
  {
    if es != [] {
      var head, tail := Walk(v, es[0]).value, WalkAll(v, es[1..]).value;
      assert ([head] + tail)[0] == head && ([head] + tail)[1..] == tail;
      Holds(v, es[0]);
      HoldsAll(v, es[1..]);
    }
  }

  /** And so of a query: what both passes leave of its literals is all of them only if no geometry begins with one. */
  lemma {:induction false} HoldsQuery(v: Visitor, q: Query)
    requires WalkQuery(v, q).Ok?
    ensures Held(v, TextsQuery(q), TextsQuery(WalkQuery(v, q).value), EverywhereQuery(NoSystem, q))
    decreases WeightQuery(q)
  {
    BeforeQueryShrinks(v, q);
    var before := BeforeQuery(v, q).value;
    if before != q {
      TopHolds(q);
    }
    HoldsWith(v, before.with);
    HoldsBody(v, before.body);
    HoldsAll(v, before.order);
    HoldsAll(v, before.limit);
    HoldsAll(v, before.offset);
  }

  lemma {:induction false} TopHolds(q: Query)
    requires TopAsLimit(q).Ok?
    ensures TextsQuery(TopAsLimit(q).value) == TextsQuery(q)
  {
    if q.body.Select? && q.body.top.Top? {
      TextsOfFew([Number(q.body.top.quantity.count as real)]);
      assert TextsBody(q.body.(top := NoTop)) == TextsBody(q.body);
    }
  }

  lemma {:induction false} HoldsWith(v: Visitor, w: With)
    requires WalkWith(v, w).Ok?
    ensures Held(v, TextsWith(w), TextsWith(WalkWith(v, w).value), EverywhereWith(NoSystem, w))
    decreases WeightWith(w)
  {
    if w.Cte? {
      HoldsWith(v, w.earlier);
      HoldsQuery(v, w.named);
    }
  }

  lemma {:induction false} HoldsBody(v: Visitor, b: Body)
    requires WalkBody(v, b).Ok?
    ensures Held(v, TextsBody(b), TextsBody(WalkBody(v, b).value), EverywhereBody(NoSystem, b))
    decreases WeightBody(b)
  {
    match b {
      case Select(_, columns, from, filter) =>
        HoldsAll(v, columns);
        HoldsSource(v, from);
        HoldsAll(v, filter);
      case SetOperation(_, one, other) =>
        HoldsBody(v, one);
        HoldsBody(v, other);
      case Inner(inside) => HoldsQuery(v, inside);
    }
  }

  lemma {:induction false} HoldsSource(v: Visitor, s: Source)
    requires WalkSource(v, s).Ok?
    ensures Held(v, TextsSource(s), TextsSource(WalkSource(v, s).value), EverywhereSource(NoSystem, s))
    decreases WeightSource(s)
  {
    match s {
      case Nothing =>
      case Table(_, _, args, _) => HoldsAll(v, args);
      case Derived(derived, _) => HoldsQuery(v, derived);
      case Joined(near, far, on) =>
        HoldsSource(v, near);
        HoldsSource(v, far);
        HoldsAll(v, on);
    }
  }
}
