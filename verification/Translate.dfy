/** One ADQL statement, translated: the two passes, the tables collected on the way, the theorems. */
module Translate {
  import opened Wrappers
  import opened Ascii
  import opened Functions
  import opened Syntax
  import opened Rewrite
  import opened Visit
  import opened Facts
  import opened Shapes
  import opened Meaning
  import opened Preservation
  import opened Scoping
  import Edge
  import FreeTables
  import Idempotence
  import Literals
  import NormalForm
  import opened Grammar

  /** The statement for the target, and the tables the request has to have declared. */
  datatype Translated = Translated(query: Query, tables: set<string>)

  /** The statement as both passes leave it. */
  function Rewritten(s: Statement): Result<Query, Reason> {
    match s
    case OtherStatement(_) => Refused(NotASelect)
    case QueryStatement(query) =>
      var dropped :- WalkQuery(CoordinateSystems, query);
      WalkQuery(Translator, dropped)
  }

  /** A name some `FROM` or `JOIN` writes and no `WITH` anywhere defines. */
  predicate Reported(x: string, q: Query) {
    !EverywhereQuery(Unread(x), q) && EverywhereQuery(Undefined(x), q)
  }

  ghost predicate Collected(was: set<string>, now: set<string>, added: string -> bool) {
    forall x :: x in now <==> x in was || added(x)
  }

  /** The visitor that rewrites, with the two sets of names it grows as it goes. */
  class Rewriter {
    var relations: set<string>
    var defined: set<string>

    constructor ()
      ensures relations == {} && defined == {}
    {
      relations, defined := {}, {};
    }

    method VisitExpr(e: Expr) returns (r: Result<Expr, Reason>)
      modifies this
      ensures r == Walk(Translator, e)
      ensures r.Ok? ==> Collected(old(relations), relations, x => !Everywhere(Unread(x), e))
      ensures r.Ok? ==> Collected(old(defined), defined, x => !Everywhere(Undefined(x), e))
      decreases Weight(e)
    {
      BeforeExprShrinks(Translator, e);
      var before :- BeforeExpr(Translator, e);
      TablesUnder(e);
      var kids :- VisitAll(Kids(before));
      var between := Rebuild(before, kids);
      if before.Related? {
        var query :- VisitQuery(before.query);
        between := between.(query := query);
      }
      return AfterExpr(Translator, between);
    }

    method VisitAll(es: seq<Expr>) returns (r: Result<seq<Expr>, Reason>)
      modifies this
      ensures r == WalkAll(Translator, es)
      ensures r.Ok? ==> Collected(old(relations), relations, x => !EverywhereAll(Unread(x), es))
      ensures r.Ok? ==> Collected(old(defined), defined, x => !EverywhereAll(Undefined(x), es))
      decreases WeightAll(es)
    {
      if es == [] {
        return Ok([]);
      }
      var head :- VisitExpr(es[0]);
      var tail :- VisitAll(es[1..]);
      return Ok([head] + tail);
    }

    method VisitQuery(q: Query) returns (r: Result<Query, Reason>)
      modifies this
      ensures r == WalkQuery(Translator, q)
      ensures r.Ok? ==> Collected(old(relations), relations, x => !EverywhereQuery(Unread(x), q))
      ensures r.Ok? ==> Collected(old(defined), defined, x => !EverywhereQuery(Undefined(x), q))
      decreases WeightQuery(q)
    {
      var before :- PreVisitQuery(q);
      BeforeQueryShrinks(Translator, q);
      QueryKeepsTables(q);
      var with :- VisitWith(before.with);
      var body :- VisitBody(before.body);
      var order :- VisitAll(before.order);
      var limit :- VisitAll(before.limit);
      var offset :- VisitAll(before.offset);
      return Ok(Query(with, body, order, before.limits, limit, offset));
    }

    /** The names a query's own `WITH` defines are the statement's, wherever they are read. */
    method PreVisitQuery(q: Query) returns (r: Result<Query, Reason>)
      modifies this
      ensures r == BeforeQuery(Translator, q)
      ensures relations == old(relations)
      ensures defined == old(defined) + Aliases(q.with)
    {
      defined := defined + Aliases(q.with);
      return TopAsLimit(q);
    }

    method VisitWith(w: With) returns (r: Result<With, Reason>)
      requires Aliases(w) <= defined
      modifies this
      ensures r == WalkWith(Translator, w)
      ensures r.Ok? ==> Collected(old(relations), relations, x => !EverywhereWith(Unread(x), w))
      ensures r.Ok? ==> Collected(old(defined), defined, x => !EverywhereWith(Undefined(x), w))
      decreases WeightWith(w)
    {
      match w
      case NoWith => return Ok(NoWith);
      case Cte(earlier, alias, named) =>
        var earlier' :- VisitWith(earlier);
        var named' :- VisitQuery(named);
        return Ok(Cte(earlier', alias, named'));
    }

    method VisitBody(b: Body) returns (r: Result<Body, Reason>)
      modifies this
      ensures r == WalkBody(Translator, b)
      ensures r.Ok? ==> Collected(old(relations), relations, x => !EverywhereBody(Unread(x), b))
      ensures r.Ok? ==> Collected(old(defined), defined, x => !EverywhereBody(Undefined(x), b))
      decreases WeightBody(b)
    {
      match b
      case Select(top, columns, from, filter) =>
        var columns' :- VisitAll(columns);
        var from' :- VisitSource(from);
        var filter' :- VisitAll(filter);
        return Ok(Select(top, columns', from', filter'));
      case SetOperation(operator, one, other) =>
        var one' :- VisitBody(one);
        var other' :- VisitBody(other);
        return Ok(SetOperation(operator, one', other'));
      case Inner(inside) =>
        var inside' :- VisitQuery(inside);
        return Ok(Inner(inside'));
    }

    method VisitSource(s: Source) returns (r: Result<Source, Reason>)
      modifies this
      ensures r == WalkSource(Translator, s)
      ensures r.Ok? ==> Collected(old(relations), relations, x => !EverywhereSource(Unread(x), s))
      ensures r.Ok? ==> Collected(old(defined), defined, x => !EverywhereSource(Undefined(x), s))
      decreases WeightSource(s)
    {
      match s
      case Nothing => return Ok(Source.Nothing);
      case Table(table, called, args, tableAlias) =>
        var _ :- PreVisitTable(table, called);
        var args' :- VisitAll(args);
        return Ok(Table(table, called, args', tableAlias));
      case Derived(derived, derivedAlias) =>
        var derived' :- VisitQuery(derived);
        return Ok(Derived(derived', derivedAlias));
      case Joined(near, far, on) =>
        var near' :- VisitSource(near);
        var far' :- VisitSource(far);
        var on' :- VisitAll(on);
        return Ok(Joined(near', far', on'));
    }

    /** A table of a `FROM` or a `JOIN` is read, under the name it was written by. */
    method PreVisitTable(table: ObjectName, called: bool) returns (r: Result<(), Reason>)
      modifies this
      ensures r == BeforeTable(Translator, table, called)
      ensures r.Ok? ==> WrittenName(table).Some? && relations == old(relations) + {WrittenName(table).value}
      ensures defined == old(defined)
    {
      if called {
        return Refused(TableFunction(table));
      }
      match WrittenName(table)
      case None => return Refused(NotATableName(table));
      case Some(written) =>
        relations := relations + {written};
        return Ok(());
    }
  }

  function Aliases(w: With): set<string> {
    match w case NoWith => {} case Cte(earlier, alias, _) => Aliases(earlier) + {alias.value}
  }

  lemma {:induction false} AliasesAreDefined(w: With, x: string)
    ensures x in Aliases(w) ==> !EverywhereWith(Undefined(x), w)
    decreases w
  {
    if w.Cte? {
      AliasesAreDefined(w.earlier, x);
    }
  }

  lemma {:induction false} BeforeKeepsTables(e: Expr)
    requires BeforeExpr(Translator, e).Ok?
    ensures forall f :: NormalForm.AboutTables(f) ==> Everywhere(f, BeforeExpr(Translator, e).value) == Everywhere(f, e)
  {
    if BeforeExpr(Translator, e).value != e {
      forall f | NormalForm.AboutTables(f)
        ensures Everywhere(f, BeforeExpr(Translator, e).value) == Everywhere(f, e)
      {
        NormalForm.TestKeeps(f, e);
      }
    }
  }

  /** The tables of a node are those of what its rewriting is walked into. */
  lemma {:induction false} TablesUnder(e: Expr)
    requires BeforeExpr(Translator, e).Ok?
    ensures var before := BeforeExpr(Translator, e).value;
            forall f :: NormalForm.AboutTables(f) ==>
              Everywhere(f, e) ==
              (EverywhereAll(f, Kids(before)) && (before.Related? ==> EverywhereQuery(f, before.query)))
  {
    BeforeKeepsTables(e);
  }

  lemma {:induction false} QueryKeepsTables(q: Query)
    requires TopAsLimit(q).Ok?
    ensures forall f :: NormalForm.AboutTables(f) ==> EverywhereQuery(f, TopAsLimit(q).value) == EverywhereQuery(f, q)
    ensures TopAsLimit(q).value.with == q.with
    ensures forall x :: x in Aliases(q.with) ==> !EverywhereWith(Undefined(x), q.with)
  {
    forall f | NormalForm.AboutTables(f)
      ensures EverywhereQuery(f, TopAsLimit(q).value) == EverywhereQuery(f, q)
    {
      NormalForm.TopKeeps(Translator, f, q);
    }
    forall x | x in Aliases(q.with)
      ensures !EverywhereWith(Undefined(x), q.with)
    {
      AliasesAreDefined(q.with, x);
    }
  }

  /** Read, refused or translated; the tables are what was read and not defined. */
  method Translate(s: Statement) returns (r: Result<Translated, Reason>)
    ensures Rewritten(s).Refused? ==> r == Refused(Rewritten(s).why)
    ensures Rewritten(s).Ok? ==> r.Ok? && r.value.query == Rewritten(s).value
    ensures r.Ok? ==> forall x :: x in r.value.tables <==> Reported(x, s.query)
  {
    if s.OtherStatement? {
      return Refused(NotASelect);
    }
    var dropped :- WalkQuery(CoordinateSystems, s.query);
    var rewriter := new Rewriter();
    var query :- rewriter.VisitQuery(dropped);
    DroppingKeepsTables(s.query);
    return Ok(Translated(query, rewriter.relations - rewriter.defined));
  }

  lemma {:induction false} DroppingKeepsTables(q: Query)
    requires WalkQuery(CoordinateSystems, q).Ok?
    ensures forall f :: NormalForm.AboutTables(f) ==>
              EverywhereQuery(f, WalkQuery(CoordinateSystems, q).value) == EverywhereQuery(f, q)
  {
    forall f | NormalForm.AboutTables(f)
      ensures EverywhereQuery(f, WalkQuery(CoordinateSystems, q).value) == EverywhereQuery(f, q)
    {
      NormalForm.KeepsQuery(CoordinateSystems, f, q);
    }
  }

  // ---- The theorems ----

  /** The statement once its coordinate systems are off. */
  function Dropped(s: Statement): Query
    requires Rewritten(s).Ok?
  {
    WalkQuery(CoordinateSystems, s.query).value
  }

  /**
   A translated statement answers the rows the ADQL one does, with the edge of a circle inside it;
   and exactly those rows where no strict bound it evaluates is met on the edge itself, which a
   statement without strict bounds never does.
   */
  lemma {:induction false} TranslationPreservesMeaning(s: Statement, w: World, env: Env)
    requires Rewritten(s).Ok? && Symmetric(w)
    ensures EvalQuery(Adql, w, s.query, env) == EvalQuery(Bare, w, Dropped(s), env)
    ensures EvalQuery(Target, w, Rewritten(s).value, env) == EvalQuery(Closed, w, Dropped(s), env)
    ensures Edge.OffQuery(w, Dropped(s), env) ==>
              EvalQuery(Target, w, Rewritten(s).value, env) == EvalQuery(Adql, w, s.query, env)
    ensures EverywhereQuery(Inclusive, Dropped(s)) ==>
              EvalQuery(Target, w, Rewritten(s).value, env) == EvalQuery(Adql, w, s.query, env)
  {
    PreservedQuery(CoordinateSystems, Adql, w, s.query, env);
    PreservedQuery(Translator, Closed, w, Dropped(s), env);
    if Edge.OffQuery(w, Dropped(s), env) {
      Edge.SameQuery(w, Dropped(s), env);
    }
    if EverywhereQuery(Inclusive, Dropped(s)) {
      PreservedQuery(Translator, Bare, w, Dropped(s), env);
    }
  }

  /**
   Exactly these statements are translated: queries that name no foreign coordinate system at any
   depth, and that the translator takes at every depth once the systems are off.
   */
  lemma {:induction false} ExactlyTheseTranslate(s: Statement)
    ensures Rewritten(s).Ok? <==>
              && s.QueryStatement? && TakenQuery(CoordinateSystems, s.query)
              && var dropped := WalkQuery(CoordinateSystems, s.query);
                 dropped.Ok? && TakenQuery(Translator, dropped.value)
  {
    if s.QueryStatement? {
      TakesQuery(CoordinateSystems, s.query);
      if WalkQuery(CoordinateSystems, s.query).Ok? {
        TakesQuery(Translator, WalkQuery(CoordinateSystems, s.query).value);
      }
    }
  }

  /**
   A position in a coordinate system the service does not work in is refused, anywhere in a
   statement; and that is all the first pass refuses.
   */
  lemma {:induction false} UnknownSystemIsRefused(s: Statement)
    requires s.QueryStatement?
    ensures WalkQuery(CoordinateSystems, s.query).Refused? <==> !TakenQuery(CoordinateSystems, s.query)
    ensures !TakenQuery(CoordinateSystems, s.query) ==> Rewritten(s).Refused?
  {
    TakesQuery(CoordinateSystems, s.query);
  }

  /** Nothing ADQL spells its own way is left at any depth, nor a `TOP` on a query's own select. */
  lemma {:induction false} TranslationIsNormal(s: Statement)
    requires Rewritten(s).Ok?
    ensures EverywhereQuery(Normal, Rewritten(s).value)
  {
    NormalForm.KeepsQuery(Translator, Normal, Dropped(s));
  }

  /** A query anywhere in a statement saying both `TOP` and `LIMIT` refuses the statement. */
  lemma {:induction false} TopBesideLimitIsRefused(s: Statement)
    requires s.QueryStatement? && !EverywhereQuery(OneLimit, s.query)
    ensures Rewritten(s).Refused?
  {
    if Rewritten(s).Ok? {
      NormalForm.KeepsQuery(CoordinateSystems, OneLimit, s.query);
      NormalForm.KeepsQuery(Translator, OneLimit, Dropped(s));
    }
  }

  /** A translated statement is translated into itself if and only if no geometry in it begins with a string. */
  lemma {:induction false} TranslatingAgain(s: Statement)
    requires Rewritten(s).Ok?
    ensures var t := Rewritten(s).value;
            && (Rewritten(QueryStatement(t)) == Ok(t) <==> EverywhereQuery(NoSystem, t))
            && (WalkQuery(CoordinateSystems, t) == Ok(t) <==> EverywhereQuery(NoSystem, t))
            && (EverywhereQuery(NumericCoordinates, Dropped(s)) ==> EverywhereQuery(NoSystem, t))
  {
    var t := Rewritten(s).value;
    TranslationIsNormal(s);
    Idempotence.StaysQuery(Translator, Normal, t);
    if EverywhereQuery(NoSystem, t) {
      Idempotence.StaysQuery(CoordinateSystems, NoSystem, t);
    } else {
      LostForGood(t);
      if WalkQuery(CoordinateSystems, t).Ok? {
        Literals.HoldsQuery(CoordinateSystems, t);
      }
    }
    if EverywhereQuery(NumericCoordinates, Dropped(s)) {
      NormalForm.KeepsQuery(Translator, NumericCoordinates, Dropped(s));
      Idempotence.StaysQuery(CoordinateSystems, NumericCoordinates, t);
    }
  }

  /** A literal taken off never comes back, so a query with a geometry that begins with one never does. */
  lemma {:induction false} LostForGood(q: Query)
    requires !EverywhereQuery(NoSystem, q)
    ensures Rewritten(QueryStatement(q)) != Ok(q)
  {
    if Rewritten(QueryStatement(q)).Ok? {
      Literals.HoldsQuery(CoordinateSystems, q);
      Literals.HoldsQuery(Translator, WalkQuery(CoordinateSystems, q).value);
    }
  }

  /**
   What is reported is free under nested scoping, and a free name goes unreported only where some
   `WITH` elsewhere defines the same name.
   */
  lemma {:induction false} ReportedTables(s: Statement, x: string)
    requires s.QueryStatement?
    ensures Reported(x, s.query) <==> FreeQuery(x, s.query, false) && EverywhereQuery(Undefined(x), s.query)
  {
    ScopedQuery(x, s.query, false);
  }

  /** Every free name is reported. */
  ghost predicate NoNameIsBoth(q: Query) {
    forall x :: FreeQuery(x, q, false) ==> EverywhereQuery(Undefined(x), q)
  }

  /** The translated statement reads nothing of a database but the tables reported. */
  lemma {:induction false} AnswerRestsOnTables(s: Statement, rd: Reading, w: World, one: Env, other: Env)
    requires Rewritten(s).Ok? && NoNameIsBoth(s.query)
    requires one.ctes == other.ctes == map[] && one.scope == other.scope
    requires forall x :: Reported(x, s.query) ==> SameTable(x, one, other)
    ensures EvalQuery(rd, w, Rewritten(s).value, one) == EvalQuery(rd, w, Rewritten(s).value, other)
  {
    var t := Rewritten(s).value;
    forall x | FreeQuery(x, t, false)
      ensures SameTable(x, one, other)
    {
      FreeTablesStay(s, x);
      ReportedTables(s, x);
      assert Reported(x, s.query);
    }
    RestsQuery(rd, w, t, one, other);
  }

  /** A name is read free by the translated statement exactly when the statement as written reads it free. */
  lemma {:induction false} FreeTablesStay(s: Statement, x: string)
    requires Rewritten(s).Ok?
    ensures FreeQuery(x, Rewritten(s).value, false) == FreeQuery(x, s.query, false)
  {
    FreeTables.ReadsQuery(CoordinateSystems, x, s.query, false);
    FreeTables.ReadsQuery(Translator, x, Dropped(s), false);
  }

  // ---- A statement that translating again does change ----

  function Selecting(e: Expr): Query {
    Query(NoWith, Select(NoTop, [e], Source.Nothing, []), [], LimitOffset(false), [], [])
  }

  /** One pass takes one system off, so a second string is met by the next translation. */
  lemma {:induction false} SecondSystemIsMetAgain(ra: Expr, dec: Expr)
    requires ra.Number? && dec.Number?
    ensures var system := Quoted("", false);
            var named := Selecting(CallTo("POINT", [system, ra, dec]));
            && Rewritten(QueryStatement(Selecting(CallTo("POINT", [system, system, ra, dec])))) == Ok(named)
            && Rewritten(QueryStatement(named)) == Ok(Selecting(CallTo("POINT", [ra, dec])))
  {
    var system := Quoted("", false);
    var two, one, none := [system, system, ra, dec], [system, ra, dec], [ra, dec];
    forall f: Fact | f.Normal? || f.NumericCoordinates?
      ensures EverywhereAll(f, two) && EverywhereAll(f, one) && EverywhereAll(f, none)
    {
      EverywhereFew(f, [system, system, ra, dec]);
      EverywhereFew(f, [system, ra, dec]);
      EverywhereFew(f, [ra, dec]);
    }
    assert two[1..] == one && one[1..] == none;
    PointDropped(two);
    PointDropped(one);
    PointTranslated(one);
    PointTranslated(none);
  }

  lemma {:induction false} SelectingWalked(v: Visitor, e: Expr)
    requires Walk(v, e).Ok?
    ensures WalkQuery(v, Selecting(e)) == Ok(Selecting(Walk(v, e).value))
  {
    WalkFew(v, [e]);
    assert WalkAll(v, []) == Ok([]);
    assert WalkSource(v, Source.Nothing) == Ok(Source.Nothing) && WalkWith(v, NoWith) == Ok(NoWith);
    assert WalkBody(v, Selecting(e).body) == Ok(Selecting(Walk(v, e).value).body);
    assert BeforeQuery(v, Selecting(e)) == Ok(Selecting(e));
  }

  lemma {:induction false} PointDropped(items: seq<Expr>)
    requires |items| > 1 && items[0] == Quoted("", false) && EverywhereAll(NumericCoordinates, items)
    ensures WalkQuery(CoordinateSystems, Selecting(CallTo("POINT", items)))
            == Ok(Selecting(CallTo("POINT", items[1..])))
  {
    var call := CallTo("POINT", items);
    Idempotence.StaysAll(CoordinateSystems, NumericCoordinates, items);
    assert Rebuild(call, items) == call;
    SelectingWalked(CoordinateSystems, call);
  }

  lemma {:induction false} PointTranslated(items: seq<Expr>)
    requires EverywhereAll(Normal, items)
    ensures WalkQuery(Translator, Selecting(CallTo("POINT", items))) == Ok(Selecting(CallTo("POINT", items)))
  {
    var call := CallTo("POINT", items);
    Idempotence.Stays(Translator, Normal, call);
    SelectingWalked(Translator, call);
  }
}
