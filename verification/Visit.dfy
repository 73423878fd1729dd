/**
 The walk both visitors take over a statement: a hook before a node, the node's children, a hook
 after it. What a hook put in a node's place is what the walk goes on into.
 */
module Visit {
  import opened Wrappers
  import opened Syntax
  import opened Rewrite

  function Walk(v: Visitor, e: Expr): Result<Expr, Reason>
    decreases Weight(e)
  {
    BeforeExprShrinks(v, e);
    var before :- BeforeExpr(v, e);
    var kids :- WalkAll(v, Kids(before));
    var between := Rebuild(before, kids);
    if before.Related? then
      var query :- WalkQuery(v, before.query);
      AfterExpr(v, between.(query := query))
    else AfterExpr(v, between)
  }

  function WalkAll(v: Visitor, es: seq<Expr>): (r: Result<seq<Expr>, Reason>)
    ensures r.Ok? ==> |r.value| == |es|
    decreases WeightAll(es)
  {
    if es == [] then Ok([])
    else
      var head :- Walk(v, es[0]);
      var tail :- WalkAll(v, es[1..]);
      Ok([head] + tail)
  }

  function WalkQuery(v: Visitor, q: Query): Result<Query, Reason>
    decreases WeightQuery(q)
  {
    BeforeQueryShrinks(v, q);
    var before :- BeforeQuery(v, q);
    var with :- WalkWith(v, before.with);
    var body :- WalkBody(v, before.body);
    var order :- WalkAll(v, before.order);
    var limit :- WalkAll(v, before.limit);
    var offset :- WalkAll(v, before.offset);
    Ok(Query(with, body, order, before.limits, limit, offset))
  }

  function WalkWith(v: Visitor, w: With): Result<With, Reason>
    decreases WeightWith(w)
  {
    match w
    case NoWith => Ok(NoWith)
    case Cte(earlier, alias, named) =>
      var earlier' :- WalkWith(v, earlier);
      var named' :- WalkQuery(v, named);
      Ok(Cte(earlier', alias, named'))
  }

  function WalkBody(v: Visitor, b: Body): (r: Result<Body, Reason>)
    decreases WeightBody(b)
  {
    match b
    case Select(top, columns, from, filter) =>
      var columns' :- WalkAll(v, columns);
      var from' :- WalkSource(v, from);
      var filter' :- WalkAll(v, filter);
      Ok(Select(top, columns', from', filter'))
    case SetOperation(operator, one, other) =>
      var one' :- WalkBody(v, one);
      var other' :- WalkBody(v, other);
      Ok(SetOperation(operator, one', other'))
    case Inner(inside) =>
      var inside' :- WalkQuery(v, inside);
      Ok(Inner(inside'))
  }

  function WalkSource(v: Visitor, s: Source): Result<Source, Reason>
    decreases WeightSource(s)
  {
    match s
    case Nothing => Ok(Nothing)
    case Table(table, called, args, tableAlias) =>
      var _ :- BeforeTable(v, table, called);
      var args' :- WalkAll(v, args);
      Ok(Table(table, called, args', tableAlias))
    case Derived(derived, derivedAlias) =>
      var derived' :- WalkQuery(v, derived);
      Ok(Derived(derived', derivedAlias))
    case Joined(near, far, on) =>
      var near' :- WalkSource(v, near);
      var far' :- WalkSource(v, far);
      var on' :- WalkAll(v, on);
      Ok(Joined(near', far', on'))
  }
}
