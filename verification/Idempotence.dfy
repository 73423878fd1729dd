/** When a pass over a statement leaves it exactly as it was. */
module Idempotence {
  import opened Wrappers
  import opened Syntax
  import opened Rewrite
  import opened Visit
  import opened Facts
  import opened Shapes

  /** The fact under which a pass has nothing to do. */
  predicate Idles(v: Visitor, f: Fact) {
    match v
    case Translator => f.Normal?
    case CoordinateSystems => f.NumericCoordinates? || f.NoSystem?
  }

  lemma {:induction false} Stays(v: Visitor, f: Fact, e: Expr)
    requires Idles(v, f) && Everywhere(f, e)
    ensures Walk(v, e) == Ok(e)
    decreases Weight(e)
  {
    KidsWeigh(e);
    StaysAll(v, f, Kids(e));
    if e.Related? {
      StaysQuery(v, f, e.query);
    }
    assert Rebuild(e, Kids(e)) == e;
    assert AfterExpr(v, e) == Ok(e);
  }

  lemma {:induction false} StaysAll(v: Visitor, f: Fact, es: seq<Expr>)
    requires Idles(v, f) && EverywhereAll(f, es)
    ensures WalkAll(v, es) == Ok(es)
    decreases WeightAll(es)
  {
    if es != [] {
      Stays(v, f, es[0]);
      StaysAll(v, f, es[1..]);
      assert [es[0]] + es[1..] == es;
    }
  }

  lemma {:induction false} StaysQuery(v: Visitor, f: Fact, q: Query)
    requires Idles(v, f) && EverywhereQuery(f, q)
    ensures WalkQuery(v, q) == Ok(q)
    decreases WeightQuery(q)
  {
    StaysWith(v, f, q.with);
    StaysBody(v, f, q.body);
    StaysAll(v, f, q.order);
    StaysAll(v, f, q.limit);
    StaysAll(v, f, q.offset);
    assert BeforeQuery(v, q) == Ok(q);
  }

  lemma {:induction false} StaysWith(v: Visitor, f: Fact, w: With)
    requires Idles(v, f) && EverywhereWith(f, w)
    ensures WalkWith(v, w) == Ok(w)
    decreases WeightWith(w)
  {
    if w.Cte? {
      StaysWith(v, f, w.earlier);
      StaysQuery(v, f, w.named);
    }
  }

  lemma {:induction false} StaysBody(v: Visitor, f: Fact, b: Body)
    requires Idles(v, f) && EverywhereBody(f, b)
    ensures WalkBody(v, b) == Ok(b)
    decreases WeightBody(b)
  {
    match b {
      case Select(_, columns, from, filter) =>
        StaysAll(v, f, columns);
        StaysSource(v, f, from);
        StaysAll(v, f, filter);
      case SetOperation(_, one, other) =>
        StaysBody(v, f, one);
        StaysBody(v, f, other);
      case Inner(inside) => StaysQuery(v, f, inside);
    }
  }

  lemma {:induction false} StaysSource(v: Visitor, f: Fact, s: Source)
    requires Idles(v, f) && EverywhereSource(f, s)
    ensures WalkSource(v, s) == Ok(s)
    decreases WeightSource(s)
  {
    match s {
      case Nothing =>
      case Table(_, _, args, _) => StaysAll(v, f, args);
      case Derived(derived, _) => StaysQuery(v, f, derived);
      case Joined(near, far, on) =>
        StaysSource(v, f, near);
        StaysSource(v, f, far);
        StaysAll(v, f, on);
    }
  }
}
