/**
 A strict bound on a circle, wherever it stands in a statement. The translator makes every bound
 hold its edge; here is a statement's evaluation followed node by node, asking at each strict bound
 that is evaluated whether a row lies on that edge. Where none does, the two readings are one.
 */
module Edge {
  import opened Wrappers
  import opened Syntax
  import opened Functions
  import opened Rewrite
  import opened Meaning
  import opened Preservation

  predicate IsStrict(e: Expr) {
    IsCone(e) && (e.op == Lt || e.op == Gt)
  }

  predicate OffNode(w: World, e: Expr, env: Env) {
    IsStrict(e) ==> !OnEdge(w, e, env)
  }

  predicate Off(w: World, e: Expr, env: Env)
    decreases Weight(e)
  {
    KidsWeigh(e);
    OffNode(w, e, env) && OffAll(w, Kids(e), env) && (e.Related? ==> OffQuery(w, e.query, env))
  }

  predicate OffAll(w: World, es: seq<Expr>, env: Env)
    decreases WeightAll(es), 0
  {
    es != [] ==> Off(w, es[0], env) && OffAll(w, es[1..], env)
  }

  predicate OffEach(w: World, es: seq<Expr>, scopes: seq<Scope>, env: Env)
    decreases WeightAll(es), 1
  {
    forall i :: 0 <= i < |scopes| ==> OffAll(w, es, env.(scope := scopes[i] + env.scope))
  }

  /** No strict bound the query evaluates, on any row of it or of a query in it, is met on its edge. */
  predicate OffQuery(w: World, q: Query, env: Env)
    decreases WeightQuery(q)
  {
    var inner := env.(ctes := EvalWith(Bare, w, q.with, env));
    && OffWith(w, q.with, env)
    && OffAnswered(w, q.body, inner)
    && OffEach(w, q.order, OrderScopes(EvalAnswered(Bare, w, q.body, inner)), inner)
    && OffAll(w, q.limit, inner)
    && OffAll(w, q.offset, inner)
  }

  predicate OffWith(w: World, with: With, env: Env)
    decreases WeightWith(with)
  {
    match with
    case NoWith => true
    case Cte(earlier, _, named) =>
      OffWith(w, earlier, env) && OffQuery(w, named, env.(ctes := EvalWith(Bare, w, earlier, env)))
  }

  predicate OffAnswered(w: World, b: Body, env: Env)
    decreases WeightBody(b), 3
  {
    if b.Select? then OffSelect(w, b.columns, b.from, b.filter, env) else OffBody(w, b, env)
  }

  predicate OffSelect(w: World, columns: seq<Expr>, from: Source, filter: seq<Expr>, env: Env)
    decreases WeightAll(columns) + WeightSource(from) + WeightAll(filter), 2
  {
    var scopes := EvalSource(Bare, w, from, env);
    && OffSource(w, from, env)
    && OffEach(w, filter, scopes, env)
    && OffEach(w, columns, Holding(scopes, EvalEach(Bare, w, filter, scopes, env)), env)
  }

  predicate OffBody(w: World, b: Body, env: Env)
    decreases WeightBody(b), 2
  {
    match b
    case Select(_, columns, from, filter) => OffSelect(w, columns, from, filter, env)
    case SetOperation(_, one, other) => OffBody(w, one, env) && OffBody(w, other, env)
    case Inner(inside) => OffQuery(w, inside, env)
  }

  predicate OffSource(w: World, s: Source, env: Env)
    decreases WeightSource(s), 0
  {
    match s
    case Nothing => true
    case Table(_, _, _, _) => true
    case Derived(derived, _) => OffQuery(w, derived, env)
    case Joined(near, far, on) =>
      && OffSource(w, near, env) && OffSource(w, far, env)
      && OffEach(w, on, Paired(EvalSource(Bare, w, near, env), EvalSource(Bare, w, far, env)), env)
  }

  // ---- Off the edge, the closed reading is the bare one ----

  /** One strict bound, over sides that mean the same. */
  lemma {:induction false} StrictOffEdge(w: World, e: Expr, env: Env)
    requires Symmetric(w) && IsStrict(e) && OffNode(w, e, env)
    requires EvalAll(Closed, w, [e.left, e.right], env) == EvalAll(Bare, w, [e.left, e.right], env)
    ensures Eval(Closed, w, e, env) == Eval(Bare, w, e, env)
  {
    var (call, radius) := BoundedDistance(e.left, e.op, e.right).value;
    EvalFew(Bare, w, [e.left, e.right], env);
    EvalNested(Bare, w, e.left, env);
    EvalNested(Bare, w, e.right, env);
    ConeSeparation(w, e, env);
    EdgeOfComparison(w, Eval(Bare, w, call, env), Eval(Bare, w, radius, env));
  }

  lemma {:induction false} Same(w: World, e: Expr, env: Env)
    requires Symmetric(w) && Off(w, e, env)
    ensures Eval(Closed, w, e, env) == Eval(Bare, w, e, env)
    decreases Weight(e), 0
  {
    KidsWeigh(e);
    SameAll(w, Kids(e), env);
    if e.Related? {
      SameQuery(w, e.query, env);
    }
    if IsStrict(e) {
      StrictOffEdge(w, e, env);
    }
  }

  lemma {:induction false} SameAll(w: World, es: seq<Expr>, env: Env)
    requires Symmetric(w) && OffAll(w, es, env)
    ensures EvalAll(Closed, w, es, env) == EvalAll(Bare, w, es, env)
    decreases WeightAll(es), 0
  {
    if es != [] {
      Same(w, es[0], env);
      SameAll(w, es[1..], env);
    }
  }

  lemma {:induction false} SameEach(w: World, es: seq<Expr>, scopes: seq<Scope>, env: Env)
    requires Symmetric(w) && OffEach(w, es, scopes, env)
    ensures EvalEach(Closed, w, es, scopes, env) == EvalEach(Bare, w, es, scopes, env)
    decreases WeightAll(es), 1
  {
    forall i | 0 <= i < |scopes|
      ensures EvalAll(Closed, w, es, env.(scope := scopes[i] + env.scope))
           == EvalAll(Bare, w, es, env.(scope := scopes[i] + env.scope))
    {
      SameAll(w, es, env.(scope := scopes[i] + env.scope));
    }
  }

  /** A query none of whose strict bounds is met on its edge answers the same rows in both readings. */
  lemma {:induction false} SameQuery(w: World, q: Query, env: Env)
    requires Symmetric(w) && OffQuery(w, q, env)
    ensures EvalQuery(Closed, w, q, env) == EvalQuery(Bare, w, q, env)
    decreases WeightQuery(q), 1
  {
    SameWith(w, q.with, env);
    var inner := env.(ctes := EvalWith(Bare, w, q.with, env));
    SameAnswered(w, q.body, inner);
    SameEach(w, q.order, OrderScopes(EvalAnswered(Bare, w, q.body, inner)), inner);
    SameAll(w, q.limit, inner);
    SameAll(w, q.offset, inner);
  }

  lemma {:induction false} SameWith(w: World, with: With, env: Env)
    requires Symmetric(w) && OffWith(w, with, env)
    ensures EvalWith(Closed, w, with, env) == EvalWith(Bare, w, with, env)
    decreases WeightWith(with), 0
  {
    if with.Cte? {
      SameWith(w, with.earlier, env);
      SameQuery(w, with.named, env.(ctes := EvalWith(Bare, w, with.earlier, env)));
    }
  }

  lemma {:induction false} SameAnswered(w: World, b: Body, env: Env)
    requires Symmetric(w) && OffAnswered(w, b, env)
    ensures EvalAnswered(Closed, w, b, env) == EvalAnswered(Bare, w, b, env)
    decreases WeightBody(b), 3
  {
    if b.Select? {
      SameSelect(w, b.columns, b.from, b.filter, env);
    } else {
      SameBody(w, b, env);
    }
  }

  lemma {:induction false} SameSelect(w: World, columns: seq<Expr>, from: Source, filter: seq<Expr>, env: Env)
    requires Symmetric(w) && OffSelect(w, columns, from, filter, env)
    ensures EvalSelect(Closed, w, columns, from, filter, env) == EvalSelect(Bare, w, columns, from, filter, env)
    decreases WeightAll(columns) + WeightSource(from) + WeightAll(filter), 2
  {
    SameSource(w, from, env);
    var scopes := EvalSource(Bare, w, from, env);
    SameEach(w, filter, scopes, env);
    SameEach(w, columns, Holding(scopes, EvalEach(Bare, w, filter, scopes, env)), env);
  }

  lemma {:induction false} SameBody(w: World, b: Body, env: Env)
    requires Symmetric(w) && OffBody(w, b, env)
    ensures EvalBody(Closed, w, b, env) == EvalBody(Bare, w, b, env)
    decreases WeightBody(b), 2
  {
    match b {
      case Select(_, columns, from, filter) => SameSelect(w, columns, from, filter, env);
      case SetOperation(_, one, other) =>
        SameBody(w, one, env);
        SameBody(w, other, env);
      case Inner(inside) => SameQuery(w, inside, env);
    }
  }

  lemma {:induction false} SameSource(w: World, s: Source, env: Env)
    requires Symmetric(w) && OffSource(w, s, env)
    ensures EvalSource(Closed, w, s, env) == EvalSource(Bare, w, s, env)
    decreases WeightSource(s), 0
  {
    match s {
      case Nothing =>
      case Table(_, _, _, _) =>
      case Derived(derived, _) => SameQuery(w, derived, env);
      case Joined(near, far, on) =>
        SameSource(w, near, env);
        SameSource(w, far, env);
        SameEach(w, on, Paired(EvalSource(Bare, w, near, env), EvalSource(Bare, w, far, env)), env);
    }
  }
}
