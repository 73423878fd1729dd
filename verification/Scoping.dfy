/**
 Which tables a statement reads that are not its own, under `WITH` as SQL scopes it: a name a
 `WITH` defines is seen by the queries after it and by its query's body, at any depth, and only
 where it is written as one word.
 */
module Scoping {
  import opened Wrappers
  import opened Syntax
  import opened Rewrite
  import opened Facts
  import opened Meaning

  predicate Defines(w: With, x: string) {
    w.Cte? && (w.alias.value == x || Defines(w.earlier, x))
  }

  /** Whether `x` is read free, where `captured` says that an enclosing `WITH` defines it. */
  predicate Free(x: string, e: Expr, captured: bool)
    decreases Weight(e)
  {
    KidsWeigh(e);
    FreeAll(x, Kids(e), captured) || (e.Related? && FreeQuery(x, e.query, captured))
  }

  predicate FreeAll(x: string, es: seq<Expr>, captured: bool)
    decreases WeightAll(es)
  {
    es != [] && (Free(x, es[0], captured) || FreeAll(x, es[1..], captured))
  }

  predicate FreeQuery(x: string, q: Query, captured: bool)
    decreases WeightQuery(q), 1
  {
    FreeWith(x, q.with, captured) || FreeClauses(x, q, captured || Defines(q.with, x))
  }

  /** Read free past the `WITH`, whose names `captured` already counts. */
  predicate FreeClauses(x: string, q: Query, captured: bool)
    decreases WeightQuery(q), 0
  {
    || FreeBody(x, q.body, captured)
    || FreeAll(x, q.order, captured)
    || FreeAll(x, q.limit, captured)
    || FreeAll(x, q.offset, captured)
  }

  predicate FreeWith(x: string, w: With, captured: bool)
    decreases WeightWith(w)
  {
    match w
    case NoWith => false
    case Cte(earlier, _, named) =>
      FreeWith(x, earlier, captured) || FreeQuery(x, named, captured || Defines(earlier, x))
  }

  predicate FreeBody(x: string, b: Body, captured: bool)
    decreases WeightBody(b)
  {
    match b
    case Select(_, columns, from, filter) =>
      FreeAll(x, columns, captured) || FreeSource(x, from, captured) || FreeAll(x, filter, captured)
    case SetOperation(_, one, other) => FreeBody(x, one, captured) || FreeBody(x, other, captured)
    case Inner(inside) => FreeQuery(x, inside, captured)
  }

  predicate FreeSource(x: string, s: Source, captured: bool)
    decreases WeightSource(s)
  {
    match s
    case Nothing => false
    case Table(table, _, args, _) =>
      (WrittenName(table) == Some(x) && !(captured && |table| == 1)) || FreeAll(x, args, captured)
    case Derived(derived, _) => FreeQuery(x, derived, captured)
    case Joined(near, far, on) =>
      FreeSource(x, near, captured) || FreeSource(x, far, captured) || FreeAll(x, on, captured)
  }

  // ---- One flat set of definitions against nested ones ----

  /** A free name is a written one, and where no `WITH` defines it the two are the same. */
  predicate Approximated(free: bool, unread: bool, undefined: bool, captured: bool) {
    (free ==> !unread) && (undefined && !captured ==> free == !unread)
  }

  lemma {:induction false} Scoped(x: string, e: Expr, c: bool)
    ensures Approximated(Free(x, e, c), Everywhere(Unread(x), e), Everywhere(Undefined(x), e), c)
    decreases Weight(e)
  {
    KidsWeigh(e);
    ScopedAll(x, Kids(e), c);
    if e.Related? {
      ScopedQuery(x, e.query, c);
    }
  }

  lemma {:induction false} ScopedAll(x: string, es: seq<Expr>, c: bool)
    ensures Approximated(FreeAll(x, es, c), EverywhereAll(Unread(x), es), EverywhereAll(Undefined(x), es), c)
    decreases WeightAll(es)
  {
    if es != [] {
      Scoped(x, es[0], c);
      ScopedAll(x, es[1..], c);
    }
  }

  lemma {:induction false} DefinesIsDefined(x: string, w: With)
    ensures EverywhereWith(Undefined(x), w) ==> !Defines(w, x)
    decreases w
  {
    if w.Cte? {
      DefinesIsDefined(x, w.earlier);
    }
  }

  lemma {:induction false} ScopedQuery(x: string, q: Query, c: bool)
    ensures Approximated(FreeQuery(x, q, c), EverywhereQuery(Unread(x), q), EverywhereQuery(Undefined(x), q), c)
    decreases WeightQuery(q)
  {
    var inner := c || Defines(q.with, x);
    assert FreeQuery(x, q, c) == (FreeWith(x, q.with, c) || FreeClauses(x, q, inner));
    DefinesIsDefined(x, q.with);
    ScopedWith(x, q.with, c);
    ScopedBody(x, q.body, inner);
    ScopedAll(x, q.order, inner);
    ScopedAll(x, q.limit, inner);
    ScopedAll(x, q.offset, inner);
  }

  lemma {:induction false} ScopedWith(x: string, w: With, c: bool)
    ensures Approximated(FreeWith(x, w, c), EverywhereWith(Unread(x), w), EverywhereWith(Undefined(x), w), c)
    decreases WeightWith(w)
  {
    if w.Cte? {
      DefinesIsDefined(x, w.earlier);
      ScopedWith(x, w.earlier, c);
      ScopedQuery(x, w.named, c || Defines(w.earlier, x));
    }
  }

  lemma {:induction false} ScopedBody(x: string, b: Body, c: bool)
    ensures Approximated(FreeBody(x, b, c), EverywhereBody(Unread(x), b), EverywhereBody(Undefined(x), b), c)
    decreases WeightBody(b)
  {
    match b {
      case Select(_, columns, from, filter) =>
        ScopedAll(x, columns, c);
        ScopedSource(x, from, c);
        ScopedAll(x, filter, c);
      case SetOperation(_, one, other) =>
        ScopedBody(x, one, c);
        ScopedBody(x, other, c);
      case Inner(inside) => ScopedQuery(x, inside, c);
    }
  }

  lemma {:induction false} ScopedSource(x: string, s: Source, c: bool)
    ensures Approximated(FreeSource(x, s, c), EverywhereSource(Unread(x), s), EverywhereSource(Undefined(x), s), c)
    decreases WeightSource(s)
  {
    match s {
      case Nothing =>
      case Table(_, _, args, _) => ScopedAll(x, args, c);
      case Derived(derived, _) => ScopedQuery(x, derived, c);
      case Joined(near, far, on) =>
        ScopedSource(x, near, c);
        ScopedSource(x, far, c);
        ScopedAll(x, on, c);
    }
  }

  // ---- What a statement answers rests on its free tables alone ----

  predicate SameTable(x: string, one: Env, other: Env) {
    && (x in one.tables <==> x in other.tables)
    && (x in one.tables ==> one.tables[x] == other.tables[x])
  }

  /** Two environments that differ at most in tables that are not read free. */
  ghost predicate Agree(one: Env, other: Env, free: (string, bool) -> bool) {
    && one.ctes == other.ctes && one.scope == other.scope
    && forall x :: free(x, x in one.ctes) ==> SameTable(x, one, other)
  }

  lemma {:induction false} EvalWithDomain(rd: Reading, w: World, with: With, env: Env)
    ensures forall x :: x in EvalWith(rd, w, with, env) <==> x in env.ctes || Defines(with, x)
    decreases with
  {
    if with.Cte? {
      EvalWithDomain(rd, w, with.earlier, env);
    }
  }

  lemma {:induction false} Rests(rd: Reading, w: World, e: Expr, one: Env, other: Env)
    requires Agree(one, other, (x, c) => Free(x, e, c))
    ensures Eval(rd, w, e, one) == Eval(rd, w, e, other)
    decreases Weight(e), 0
  {
    KidsWeigh(e);
    RestsAll(rd, w, Kids(e), one, other);
    if e.Related? {
      RestsQuery(rd, w, e.query, one, other);
    }
  }

  lemma {:induction false} RestsAll(rd: Reading, w: World, es: seq<Expr>, one: Env, other: Env)
    requires Agree(one, other, (x, c) => FreeAll(x, es, c))
    ensures EvalAll(rd, w, es, one) == EvalAll(rd, w, es, other)
    decreases WeightAll(es), 0
  {
    if es != [] {
      Rests(rd, w, es[0], one, other);
      RestsAll(rd, w, es[1..], one, other);
    }
  }

  lemma {:induction false} RestsEach(rd: Reading, w: World, es: seq<Expr>, scopes: seq<Scope>, one: Env, other: Env)
    requires Agree(one, other, (x, c) => FreeAll(x, es, c))
    ensures EvalEach(rd, w, es, scopes, one) == EvalEach(rd, w, es, scopes, other)
    decreases WeightAll(es), 1
  {
    forall i | 0 <= i < |scopes|
      ensures EvalAll(rd, w, es, one.(scope := scopes[i] + one.scope))
           == EvalAll(rd, w, es, other.(scope := scopes[i] + other.scope))
    {
      RestsAll(rd, w, es, one.(scope := scopes[i] + one.scope), other.(scope := scopes[i] + other.scope));
    }
  }

  lemma {:induction false} RestsQuery(rd: Reading, w: World, q: Query, one: Env, other: Env)
    requires Agree(one, other, (x, c) => FreeQuery(x, q, c))
    ensures EvalQuery(rd, w, q, one) == EvalQuery(rd, w, q, other)
    decreases WeightQuery(q), 1
  {
    RestsWith(rd, w, q.with, one, other);
    EvalWithDomain(rd, w, q.with, one);
    var ctes := EvalWith(rd, w, q.with, one);
    forall x | FreeClauses(x, q, x in ctes)
      ensures SameTable(x, one, other)
    {
      assert FreeQuery(x, q, x in one.ctes);
    }
    RestsClauses(rd, w, q, one.(ctes := ctes), other.(ctes := ctes));
  }

  lemma {:induction false} RestsClauses(rd: Reading, w: World, q: Query, one: Env, other: Env)
    requires Agree(one, other, (x, c) => FreeClauses(x, q, c))
    ensures EvalAnswered(rd, w, q.body, one) == EvalAnswered(rd, w, q.body, other)
    ensures forall scopes :: EvalEach(rd, w, q.order, scopes, one) == EvalEach(rd, w, q.order, scopes, other)
    ensures EvalAll(rd, w, q.limit, one) == EvalAll(rd, w, q.limit, other)
    ensures EvalAll(rd, w, q.offset, one) == EvalAll(rd, w, q.offset, other)
    decreases WeightQuery(q), 0
  {
    if q.body.Select? {
      RestsSelect(rd, w, q.body, one, other);
    } else {
      RestsBody(rd, w, q.body, one, other);
    }
    forall scopes
      ensures EvalEach(rd, w, q.order, scopes, one) == EvalEach(rd, w, q.order, scopes, other)
    {
      RestsEach(rd, w, q.order, scopes, one, other);
    }
    RestsAll(rd, w, q.limit, one, other);
    RestsAll(rd, w, q.offset, one, other);
  }

  lemma {:induction false} RestsWith(rd: Reading, w: World, with: With, one: Env, other: Env)
    requires Agree(one, other, (x, c) => FreeWith(x, with, c))
    ensures EvalWith(rd, w, with, one) == EvalWith(rd, w, with, other)
    decreases WeightWith(with), 0
  {
    if with.Cte? {
      forall x | FreeWith(x, with.earlier, x in one.ctes)
        ensures SameTable(x, one, other)
      {
        assert FreeWith(x, with, x in one.ctes);
      }
      RestsWith(rd, w, with.earlier, one, other);
      EvalWithDomain(rd, w, with.earlier, one);
      var ctes := EvalWith(rd, w, with.earlier, one);
      forall x | FreeQuery(x, with.named, x in ctes)
        ensures SameTable(x, one, other)
      {
        assert FreeWith(x, with, x in one.ctes);
      }
      RestsQuery(rd, w, with.named, one.(ctes := ctes), other.(ctes := ctes));
    }
  }

  lemma {:induction false} RestsSelect(rd: Reading, w: World, b: Body, one: Env, other: Env)
    requires b.Select? && Agree(one, other, (x, c) => FreeBody(x, b, c))
    ensures EvalSelect(rd, w, b.columns, b.from, b.filter, one) == EvalSelect(rd, w, b.columns, b.from, b.filter, other)
    decreases WeightBody(b), 0
  {
    RestsSource(rd, w, b.from, one, other);
    var scopes := EvalSource(rd, w, b.from, one);
    RestsEach(rd, w, b.filter, scopes, one, other);
    RestsEach(rd, w, b.columns, Holding(scopes, EvalEach(rd, w, b.filter, scopes, one)), one, other);
  }

  lemma {:induction false} RestsBody(rd: Reading, w: World, b: Body, one: Env, other: Env)
    requires Agree(one, other, (x, c) => FreeBody(x, b, c))
    ensures EvalBody(rd, w, b, one) == EvalBody(rd, w, b, other)
    decreases WeightBody(b), 1
  {
    match b {
      case Select(_, _, _, _) => RestsSelect(rd, w, b, one, other);
      case SetOperation(_, b1, b2) =>
        RestsBody(rd, w, b1, one, other);
        RestsBody(rd, w, b2, one, other);
      case Inner(inside) => RestsQuery(rd, w, inside, one, other);
    }
  }

  lemma {:induction false} RestsSource(rd: Reading, w: World, s: Source, one: Env, other: Env)
    requires Agree(one, other, (x, c) => FreeSource(x, s, c))
    ensures EvalSource(rd, w, s, one) == EvalSource(rd, w, s, other)
    decreases WeightSource(s), 0
  {
    match s {
      case Nothing =>
      case Table(table, _, _, _) =>
        if WrittenName(table).Some? {
          var x := WrittenName(table).value;
          assert !(x in one.ctes && |table| == 1) ==> FreeSource(x, s, x in one.ctes);
        }
      case Derived(derived, _) => RestsQuery(rd, w, derived, one, other);
      case Joined(near, far, on) =>
        RestsSource(rd, w, near, one, other);
        RestsSource(rd, w, far, one, other);
        RestsEach(rd, w, on, Paired(EvalSource(rd, w, near, one), EvalSource(rd, w, far, one)), one, other);
    }
  }
}
