/**
 The statement a request carries, as the tree the translator rewrites.

 One tree serves both languages: what ADQL and the target disagree about is what a tree means
 (module `Meaning`), never how it is put together. Only what the translator looks at is spelled
 out. `Compound` stands for every other expression over expressions (`CASE`, `BETWEEN`, `CAST`,
 `IS NULL` and the rest), `Related` for every expression over a query (`EXISTS`, `IN`, a scalar
 subquery), and a clause that may be missing is a list of at most one.
 */
module Syntax {
  datatype Ident = Ident(value: string, quoted: bool)

  datatype NamePart = Word(ident: Ident) | Generated

  type ObjectName = seq<NamePart>

  datatype UnaryOp = Minus | Plus | Not

  datatype BinaryOp = Eq | NotEq | Lt | LtEq | Gt | GtEq | And | Or | Modulo | Spelled(symbol: string)

  /** What stands in a call's parentheses: nothing, a query, or a list and what qualifies it. */
  datatype CallForm = Absent | Queried | Listed(distinct: bool, clauses: bool)

  datatype Expr =
    | Column(parts: seq<Ident>)
    | Number(value: real)
    | Quoted(text: string, double: bool)
    | Constant(word: string)
    | Nested(inner: Expr)
    | Unary(uop: UnaryOp, operand: Expr)
    | Binary(left: Expr, op: BinaryOp, right: Expr)
    | Call(name: ObjectName, form: CallForm, items: seq<Expr>)
    | Compound(kind: string, terms: seq<Expr>)
    | Related(relation: string, probes: seq<Expr>, query: Query)
    | Star
    | Labelled(tag: string, unlabelled: Expr)

  datatype Quantity = Unsaid | Rows(count: nat) | Computed(text: string)

  datatype Top = NoTop | Top(ties: bool, percent: bool, quantity: Quantity)

  /**
   Which limit clause a query has: `LIMIT` and `OFFSET`, perhaps with `BY`, or `LIMIT a, b`.
   A query without one has the first, saying neither.
   */
  datatype LimitForm = LimitOffset(grouped: bool) | OffsetCommaLimit

  datatype Query = Query(with: With, body: Body, order: seq<Expr>,
                         limits: LimitForm, limit: seq<Expr>, offset: seq<Expr>)

  /** The queries `WITH` names, each seeing the ones written before it. */
  datatype With = NoWith | Cte(earlier: With, alias: Ident, named: Query)

  datatype Body =
    | Select(top: Top, columns: seq<Expr>, from: Source, filter: seq<Expr>)
    | SetOperation(operator: string, one: Body, other: Body)
    | Inner(inside: Query)

  datatype Source =
    | Nothing
    | Table(table: ObjectName, called: bool, args: seq<Expr>, tableAlias: string)
    | Derived(derived: Query, derivedAlias: string)
    | Joined(near: Source, far: Source, on: seq<Expr>)

  datatype Statement = QueryStatement(query: Query) | OtherStatement(verb: string)

  // ---- The size of a tree, by which every walk over one ends. ----

  function Weight(e: Expr): nat {
    match e
    case Nested(inner) => 2 + Weight(inner)
    case Unary(_, operand) => 2 + Weight(operand)
    case Binary(left, _, right) => 6 + Weight(left) + Weight(right)
    case Call(_, _, items) => 1 + WeightAll(items)
    case Compound(_, terms) => 1 + WeightAll(terms)
    case Related(_, probes, query) => 1 + WeightAll(probes) + WeightQuery(query)
    case Labelled(_, unlabelled) => 2 + Weight(unlabelled)
    case _ => 1
  }

  function WeightAll(es: seq<Expr>): nat {
    if es == [] then 0 else 1 + Weight(es[0]) + WeightAll(es[1..])
  }

  function WeightQuery(q: Query): nat {
    1 + WeightWith(q.with) + WeightBody(q.body) + WeightAll(q.order) + WeightAll(q.limit) + WeightAll(q.offset)
  }

  function WeightWith(w: With): nat {
    match w
    case NoWith => 0
    case Cte(earlier, _, named) => 1 + WeightWith(earlier) + WeightQuery(named)
  }

  function WeightBody(b: Body): nat {
    match b
    case Select(top, columns, from, filter) =>
      1 + (if top.NoTop? then 0 else 3) + WeightAll(columns) + WeightSource(from) + WeightAll(filter)
    case SetOperation(_, one, other) => 1 + WeightBody(one) + WeightBody(other)
    case Inner(inside) => 1 + WeightQuery(inside)
  }

  function WeightSource(s: Source): nat {
    match s
    case Nothing => 0
    case Table(_, _, args, _) => 1 + WeightAll(args)
    case Derived(derived, _) => 1 + WeightQuery(derived)
    case Joined(near, far, on) => 1 + WeightSource(near) + WeightSource(far) + WeightAll(on)
  }

  // ---- A node and the expressions directly under it. ----

  function Kids(e: Expr): seq<Expr> {
    match e
    case Nested(inner) => [inner]
    case Unary(_, operand) => [operand]
    case Binary(left, _, right) => [left, right]
    case Call(_, _, items) => items
    case Compound(_, terms) => terms
    case Related(_, probes, _) => probes
    case Labelled(_, unlabelled) => [unlabelled]
    case _ => []
  }

  lemma {:induction false} KidsWeigh(e: Expr)
    ensures WeightAll(Kids(e)) < Weight(e)
  {
    if e.Binary? {
      WeightOfFew([e.left, e.right]);
    }
  }

  lemma {:induction false} WeightOfFew(es: seq<Expr>)
    requires 1 <= |es| <= 4
    ensures WeightAll(es) == |es| + Weight(es[0]) + (if |es| > 1 then Weight(es[1]) else 0)
                             + (if |es| > 2 then Weight(es[2]) else 0) + (if |es| > 3 then Weight(es[3]) else 0)
  {
    if |es| > 1 {
      WeightOfFew(es[1..]);
    } else {
      assert WeightAll(es[1..]) == 0;
    }
  }

  /** The same node over other expressions, and over another query where it has one. */
  function Rebuild(e: Expr, ks: seq<Expr>): (r: Expr)
    requires |ks| == |Kids(e)|
    ensures Kids(r) == ks
    ensures r.Related? == e.Related? && (e.Related? ==> r.query == e.query)
    ensures e.Call? == r.Call? && (e.Call? ==> r.name == e.name && r.form == e.form)
  {
    match e
    case Nested(_) => Nested(ks[0])
    case Unary(uop, _) => Unary(uop, ks[0])
    case Binary(_, op, _) => Binary(ks[0], op, ks[1])
    case Call(name, form, _) => Call(name, form, ks)
    case Compound(kind, _) => Compound(kind, ks)
    case Related(relation, _, query) => Related(relation, ks, query)
    case Labelled(tag, _) => Labelled(tag, ks[0])
    case _ => e
  }
}
