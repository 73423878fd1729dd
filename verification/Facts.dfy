/** What can be said of a statement one node at a time, at every depth of it. */
module Facts {
  import opened Wrappers
  import opened Syntax
  import opened Functions
  import opened Rewrite

  datatype Fact =
    | Normal                 // nothing is left for the translator to rewrite or refuse
    | Inclusive              // no strict bound becomes a circle
    | NumericCoordinates     // no coordinate of a geometry or of a DISTANCE is a string literal
    | NoSystem               // no geometry begins with a string literal
    | Unread(table: string)  // no FROM or JOIN writes this name
    | Undefined(cte: string) // no WITH defines this name
    | OneLimit               // TOP is a plain number of rows, and stands beside no other limit

  /** A function the target knows by that name too, and in that form. */
  predicate IsShared(f: AdqlFunction) {
    IsImplemented(f) && !f.CONTAINS? && !f.INTERSECTS? && !f.MOD? && Renamed(f).None?
  }

  predicate OfExpr(f: Fact, e: Expr) {
    match f
    case Normal =>
      && (e.Call? && AdqlName(e.name).Some? ==> IsShared(AdqlName(e.name).value))
      && RegionTest(e) == Ok(None)
    case Inclusive => e.Binary? && (e.op == Lt || e.op == Gt) ==> !IsCone(e)
    case NumericCoordinates =>
      && !NamesSystem(e)
      && (IsNamed(e, DISTANCE) ==> forall item <- e.items :: !Unnest(item).Quoted?)
    case NoSystem => !NamesSystem(e)
    case _ => true
  }

  predicate OfQuery(f: Fact, q: Query) {
    match f
    case Normal => q.body.Select? ==> q.body.top.NoTop?
    case OneLimit =>
      q.body.Select? && q.body.top.Top? ==>
        !q.body.top.ties && !q.body.top.percent && q.body.top.quantity.Rows?
        && q.limits == LimitOffset(false) && q.limit == []
    case _ => true
  }

  predicate OfTable(f: Fact, name: ObjectName, called: bool) {
    match f
    case Normal => !called && WrittenName(name).Some?
    case Unread(table) => WrittenName(name) != Some(table)
    case _ => true
  }

  predicate OfCte(f: Fact, alias: Ident) {
    f.Undefined? ==> alias.value != f.cte
  }

  predicate Everywhere(f: Fact, e: Expr)
    decreases Weight(e)
  {
    KidsWeigh(e);
    OfExpr(f, e) && EverywhereAll(f, Kids(e)) && (e.Related? ==> EverywhereQuery(f, e.query))
  }

  predicate EverywhereAll(f: Fact, es: seq<Expr>)
    decreases WeightAll(es)
  {
    es != [] ==> Everywhere(f, es[0]) && EverywhereAll(f, es[1..])
  }

  predicate EverywhereQuery(f: Fact, q: Query)
    decreases WeightQuery(q)
  {
    && OfQuery(f, q)
    && EverywhereWith(f, q.with)
    && EverywhereBody(f, q.body)
    && EverywhereAll(f, q.order)
    && EverywhereAll(f, q.limit)
    && EverywhereAll(f, q.offset)
  }

  predicate EverywhereWith(f: Fact, w: With)
    decreases WeightWith(w)
  {
    match w
    case NoWith => true
    case Cte(earlier, alias, named) => OfCte(f, alias) && EverywhereWith(f, earlier) && EverywhereQuery(f, named)
  }

  predicate EverywhereBody(f: Fact, b: Body)
    decreases WeightBody(b)
  {
    match b
    case Select(_, columns, from, filter) =>
      EverywhereAll(f, columns) && EverywhereSource(f, from) && EverywhereAll(f, filter)
    case SetOperation(_, one, other) => EverywhereBody(f, one) && EverywhereBody(f, other)
    case Inner(inside) => EverywhereQuery(f, inside)
  }

  predicate EverywhereSource(f: Fact, s: Source)
    decreases WeightSource(s)
  {
    match s
    case Nothing => true
    case Table(table, called, args, _) => OfTable(f, table, called) && EverywhereAll(f, args)
    case Derived(derived, _) => EverywhereQuery(f, derived)
    case Joined(near, far, on) => EverywhereSource(f, near) && EverywhereSource(f, far) && EverywhereAll(f, on)
  }

  // ---- Facts of lists and of parentheses ----

  lemma {:induction false} EverywhereFew(f: Fact, es: seq<Expr>)
    requires 1 <= |es| <= 4
    ensures EverywhereAll(f, es) <==>
              && Everywhere(f, es[0]) && (|es| > 1 ==> Everywhere(f, es[1]))
              && (|es| > 2 ==> Everywhere(f, es[2])) && (|es| > 3 ==> Everywhere(f, es[3]))
  {
    if |es| > 1 {
      EverywhereFew(f, es[1..]);
    } else {
      assert es[1..] == [] && EverywhereAll(f, []);
    }
  }

  lemma {:induction false} EverywhereNested(f: Fact, e: Expr)
    ensures Everywhere(f, Unnest(e)) == Everywhere(f, e)
    decreases e
  {
    if e.Nested? {
      EverywhereFew(f, [e.inner]);
      EverywhereNested(f, e.inner);
    }
  }

  /** Every fact holds of a number written out. */
  lemma {:induction false} EverywhereNumber(f: Fact, e: Expr)
    requires NumberOf(e).Some?
    ensures Everywhere(f, e)
    decreases Weight(e)
  {
    EverywhereNested(f, e);
    UnnestWeighs(e);
    var u := Unnest(e);
    if u.Unary? {
      EverywhereFew(f, [u.operand]);
      EverywhereNumber(f, u.operand);
    }
  }
}
