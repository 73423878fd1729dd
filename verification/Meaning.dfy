/**
 What a statement answers, in ADQL's reading of it and in the target's.

 Both readings share one evaluator with SQL's three truth values; a reading decides only what a
 function name means, whether a string before a geometry's coordinates is a coordinate system (and
 one not the service's own a conversion), and whether a strict bound on a circle is strict. The four
 readings go from ADQL to the target one difference at a time, which is the order the translator
 removes them in.

 Geometry stays abstract: a separation is any function of two positions, a region other than a
 circle is known by its text. `Null` is SQL's unknown and `Bad` a value of the wrong kind.
 */
module Meaning {
  import opened Wrappers
  import opened Ascii
  import opened Functions
  import opened Syntax
  import opened Rewrite

  datatype Place = Place(ra: real, dec: real)

  datatype Val =
    | Null
    | Bad
    | Everything
    | Bool(holds: bool)
    | Num(number: real)
    | Text(text: string)
    | Position(at: Place)
    | Disc(centre: Place, radius: real)
    | Region(described: string)

  datatype Cell = Cell(column: string, value: Val)

  type Row = seq<Cell>

  /** A value in reach of an expression, under the path it is read by. */
  datatype Bound = Bound(path: seq<string>, value: Val)

  type Scope = seq<Bound>

  datatype Env = Env(tables: map<string, seq<Row>>, ctes: map<string, seq<Row>>, scope: Scope)

  /** What the two languages agree on and this model leaves open. */
  datatype World = World(
    separation: (Place, Place) -> real,
    inRegion: (string, Place) -> bool,
    overlap: (Val, Val) -> bool,
    encloses: (Val, Val) -> bool,
    ceil: (CallForm, seq<Val>) -> Val,
    ln: (CallForm, seq<Val>) -> Val,
    trunc: (CallForm, seq<Val>) -> Val,
    remainder: (Val, Val) -> Val,
    function_: (seq<string>, CallForm, seq<Val>) -> Val,
    converted: (string, seq<string>, CallForm, seq<Val>) -> Val,
    operator: (string, Val, Val) -> Val,
    compare: (BinaryOp, Val, Val) -> Val,
    constant: string -> Val,
    compound: (string, seq<Val>) -> Val,
    related: (string, seq<Val>, seq<Row>) -> Val,
    sort: (seq<seq<Val>>, seq<Row>) -> seq<Row>,
    combine: (string, seq<Row>, seq<Row>) -> seq<Row>,
    grouped: (seq<Val>, seq<Row>) -> seq<Row>,
    topped: (Top, seq<Row>) -> seq<Row>
  )

  /** The one thing asked of the geometry: a separation is the same from either end. */
  ghost predicate Symmetric(w: World) {
    forall p, q :: w.separation(p, q) == w.separation(q, p)
  }

  /**
   `Adql`: the language as written. `Bare`: the same once no geometry names its system. `Closed`:
   the same where a circle's edge counts as inside. `Target`: what the planner is handed.
   */
  datatype Reading = Adql | Bare | Closed | Target

  // ---- Values ----

  function Comparison(w: World, op: BinaryOp, a: Val, b: Val): Val {
    if a.Null? || b.Null? then Null
    else if a.Num? && b.Num? then
      match op
      case Eq => Bool(a.number == b.number)
      case NotEq => Bool(a.number != b.number)
      case Lt => Bool(a.number < b.number)
      case LtEq => Bool(a.number <= b.number)
      case Gt => Bool(a.number > b.number)
      case _ => Bool(a.number >= b.number)
    else if a.Num? || b.Num? || a.Bad? || b.Bad? then Bad
    else w.compare(op, a, b)
  }

  /** Kleene's AND, which is false as soon as one side is. */
  function Both(a: Val, b: Val): Val {
    if a == Bool(false) || b == Bool(false) then Bool(false)
    else if a == Bool(true) then b
    else if b == Bool(true) then a
    else if a.Null? && b.Null? then Null
    else Bad
  }

  function Negation(a: Val): Val {
    match a case Bool(x) => Bool(!x) case Null => Null case _ => Bad
  }

  function Signed(op: UnaryOp, a: Val): Val {
    match (op, a)
    case (Not, _) => Negation(a)
    case (_, Null) => Null
    case (Minus, Num(x)) => Num(-x)
    case (Plus, Num(x)) => Num(x)
    case _ => Bad
  }

  function BinaryValue(w: World, op: BinaryOp, a: Val, b: Val): Val {
    match op
    case And => Both(a, b)
    case Or => Negation(Both(Negation(a), Negation(b)))
    case Modulo => w.remainder(a, b)
    case Spelled(symbol) => w.operator(symbol, a, b)
    case _ => Comparison(w, op, a, b)
  }

  // ---- Geometry ----

  function MakePoint(x: Val, y: Val): Val {
    if x.Null? || y.Null? then Null
    else if x.Num? && y.Num? then Position(Place(x.number, y.number))
    else Bad
  }

  function MakeCircle(x: Val, y: Val, r: Val): Val {
    if x.Null? || y.Null? || r.Null? then Null
    else if x.Num? && y.Num? && r.Num? then Disc(Place(x.number, y.number), r.number)
    else Bad
  }

  function Separation(w: World, a: Val, b: Val): Val {
    if a.Null? || b.Null? then Null
    else if a.Position? && b.Position? then Num(w.separation(a.at, b.at))
    else Bad
  }

  predicate IsShape(v: Val) {
    v.Disc? || v.Region?
  }

  /** Whether a position is in a region, a circle holding its own edge. */
  function Inside(w: World, p: Val, r: Val): Val {
    if p.Null? || r.Null? then Null
    else if p.Position? && r.Disc? then Bool(w.separation(p.at, r.centre) <= r.radius)
    else if p.Position? && r.Region? then Bool(w.inRegion(r.described, p.at))
    else Bad
  }

  /** ADQL's `CONTAINS`: a position in a region, or one region in another. */
  function AdqlContains(w: World, a: Val, b: Val): Val {
    if !a.Null? && !b.Null? && IsShape(a) then Bool(w.encloses(a, b)) else Inside(w, a, b)
  }

  /** ADQL's `INTERSECTS`, which takes its arguments in either order. */
  function AdqlIntersects(w: World, a: Val, b: Val): Val {
    if a.Null? || b.Null? then Null
    else if IsShape(a) && IsShape(b) then Bool(w.overlap(a, b))
    else if a.Position? then Inside(w, a, b)
    else Inside(w, b, a)
  }

  /** ADQL has no boolean: a test answers 1 or 0. */
  function Indicator(v: Val): Val {
    match v case Bool(x) => Num(if x then 1.0 else 0.0) case Null => Null case _ => Bad
  }

  // ---- Calls ----

  /** A name as the target looks it up: exactly where quoted, lowered where not. */
  function Key(name: ObjectName): seq<string> {
    seq(|name|, i requires 0 <= i < |name| =>
      match name[i]
      case Word(ident) => if ident.quoted then ident.value else Lower(ident.value)
      case Generated => "")
  }

  function TargetCall(w: World, name: ObjectName, form: CallForm, vals: seq<Val>): Val {
    if |name| != 1 then w.function_(Key(name), form, vals)
    else match Registered(Key(name)[0])
      case Ceil => w.ceil(form, vals)
      case Ln => w.ln(form, vals)
      case Trunc => w.trunc(form, vals)
      case BooleanContains => if |vals| == 2 then Inside(w, vals[0], vals[1]) else Bad
      case Point => if |vals| == 2 then MakePoint(vals[0], vals[1]) else Bad
      case Circle => if |vals| == 3 then MakeCircle(vals[0], vals[1], vals[2]) else Bad
      case Distance =>
        if |vals| == 2 then Separation(w, vals[0], vals[1])
        else if |vals| == 4 then Separation(w, MakePoint(vals[0], vals[1]), MakePoint(vals[2], vals[3]))
        else Bad
      case Unlisted(_) => w.function_(Key(name), form, vals)
  }

  function AdqlCall(w: World, f: AdqlFunction, name: ObjectName, form: CallForm, vals: seq<Val>): Val {
    match f
    case CONTAINS => if |vals| == 2 then Indicator(AdqlContains(w, vals[0], vals[1])) else Bad
    case INTERSECTS => if |vals| == 2 then Indicator(AdqlIntersects(w, vals[0], vals[1])) else Bad
    case MOD => if |vals| == 2 then w.remainder(vals[0], vals[1]) else Bad
    case CEILING => w.ceil(form, vals)
    case LOG => w.ln(form, vals)
    case TRUNCATE => w.trunc(form, vals)
    case _ => TargetCall(w, name, form, vals)
  }

  function CallValue(rd: Reading, w: World, name: ObjectName, form: CallForm, vals: seq<Val>): Val {
    if rd.Target? || AdqlName(name).None? then TargetCall(w, name, form, vals)
    else AdqlCall(w, AdqlName(name).value, name, form, vals)
  }

  /** A geometry in a system it names: what it would be without, or whatever converting from another makes of it. */
  function InSystem(w: World, call: Expr, vals: seq<Val>): Val
    requires NamesSystem(call) && |vals| == |call.items|
  {
    var system := Unnest(call.items[0]).text;
    if KnownSystem(system) then CallValue(Adql, w, call.name, call.form, vals[1..])
    else w.converted(system, Key(call.name), call.form, vals[1..])
  }

  // ---- Expressions ----

  predicate EndsWith(path: seq<string>, end: seq<string>) {
    |end| <= |path| && path[|path| - |end|..] == end
  }

  /** The nearest value a dotted name reaches. */
  function Lookup(scope: Scope, parts: seq<Ident>): Val {
    if scope == [] then Null
    else if EndsWith(scope[0].path, Values(parts)) then scope[0].value
    else Lookup(scope[1..], parts)
  }

  function Values(parts: seq<Ident>): seq<string> {
    seq(|parts|, i requires 0 <= i < |parts| => parts[i].value)
  }

  /** A comparison's operator in a reading: a circle's strict bound, made to hold its edge. */
  function Operator(rd: Reading, e: Expr): BinaryOp
    requires e.Binary?
  {
    if !rd.Closed? || !IsCone(e) then e.op
    else match e.op case Lt => LtEq case Gt => GtEq case op => op
  }

  /** A node's value, from the values of what is directly under it. */
  function NodeValue(rd: Reading, w: World, e: Expr, scope: Scope, vals: seq<Val>, rows: seq<Row>): Val
    requires |vals| == |Kids(e)|
  {
    match e
    case Column(parts) => Lookup(scope, parts)
    case Number(value) => Num(value)
    case Quoted(text, _) => Text(text)
    case Constant(word) => w.constant(word)
    case Nested(_) => vals[0]
    case Labelled(_, _) => vals[0]
    case Star => Everything
    case Unary(op, _) => Signed(op, vals[0])
    case Binary(_, _, _) => BinaryValue(w, Operator(rd, e), vals[0], vals[1])
    case Call(name, form, _) =>
      if rd.Adql? && NamesSystem(e) then InSystem(w, e, vals) else CallValue(rd, w, name, form, vals)
    case Compound(kind, _) => w.compound(kind, vals)
    case Related(relation, _, _) => w.related(relation, vals, rows)
  }

  function Eval(rd: Reading, w: World, e: Expr, env: Env): Val
    decreases Weight(e)
  {
    KidsWeigh(e);
    NodeValue(rd, w, e, env.scope, EvalAll(rd, w, Kids(e), env),
              if e.Related? then EvalQuery(rd, w, e.query, env) else [])
  }

  function EvalAll(rd: Reading, w: World, es: seq<Expr>, env: Env): (vals: seq<Val>)
    ensures |vals| == |es|
    decreases WeightAll(es), 0
  {
    if es == [] then [] else [Eval(rd, w, es[0], env)] + EvalAll(rd, w, es[1..], env)
  }

  /** The same expressions over each of some scopes, what was in reach before staying so. */
  function EvalEach(rd: Reading, w: World, es: seq<Expr>, scopes: seq<Scope>, env: Env): (each: seq<seq<Val>>)
    ensures |each| == |scopes|
    ensures forall i :: 0 <= i < |each| ==> |each[i]| == |es|
    decreases WeightAll(es), 1
  {
    seq(|scopes|, i requires 0 <= i < |scopes| => EvalAll(rd, w, es, env.(scope := scopes[i] + env.scope)))
  }

  // ---- Rows ----

  /** A row, and the row of the `FROM` it came from, which `ORDER BY` may still read. */
  datatype Answered = Answered(row: Row, from: Scope)

  /** The scopes whose conditions are all true, which unknown is not. */
  function Holding(scopes: seq<Scope>, each: seq<seq<Val>>): seq<Scope>
    requires |each| == |scopes|
  {
    if scopes == [] then []
    else (if forall v <- each[0] :: v == Bool(true) then [scopes[0]] else []) + Holding(scopes[1..], each[1..])
  }

  /** A selected column's name: the one given, or the last part of a column's own. */
  function OutputName(e: Expr): string {
    match e
    case Labelled(tag, _) => tag
    case Column(parts) => if parts == [] then "" else parts[|parts| - 1].value
    case _ => ""
  }

  function Cells(columns: seq<Expr>, vals: seq<Val>, scope: Scope): Row
    requires |vals| == |columns|
  {
    if columns == [] then []
    else
      (if columns[0].Star? then seq(|scope|, i requires 0 <= i < |scope| => Cell(LastOf(scope[i].path), scope[i].value))
       else [Cell(OutputName(columns[0]), vals[0])])
      + Cells(columns[1..], vals[1..], scope)
  }

  function LastOf(path: seq<string>): string {
    if path == [] then "" else path[|path| - 1]
  }

  function Projected(columns: seq<Expr>, scopes: seq<Scope>, each: seq<seq<Val>>): seq<Answered>
    requires |each| == |scopes| && forall i :: 0 <= i < |each| ==> |each[i]| == |columns|
  {
    seq(|scopes|, i requires 0 <= i < |scopes| => Answered(Cells(columns, each[i], scopes[i]), scopes[i]))
  }

  function ScopeOf(alias: string, row: Row): Scope {
    seq(|row|, i requires 0 <= i < |row| => Bound([alias, row[i].column], row[i].value))
  }

  function Scopes(alias: string, rows: seq<Row>): seq<Scope> {
    seq(|rows|, i requires 0 <= i < |rows| => ScopeOf(alias, rows[i]))
  }

  function Paired(one: seq<Scope>, other: seq<Scope>): seq<Scope> {
    if one == [] then []
    else seq(|other|, i requires 0 <= i < |other| => one[0] + other[i]) + Paired(one[1..], other)
  }

  function RowsOf(answered: seq<Answered>): seq<Row> {
    seq(|answered|, i requires 0 <= i < |answered| => answered[i].row)
  }

  function OrderScopes(answered: seq<Answered>): seq<Scope> {
    seq(|answered|, i requires 0 <= i < |answered| => ScopeOf("", answered[i].row) + answered[i].from)
  }

  function Alone(rows: seq<Row>): seq<Answered> {
    seq(|rows|, i requires 0 <= i < |rows| => Answered(rows[i], []))
  }

  /** How many rows a bound says, where it says a number. */
  function CountOf(vals: seq<Val>): Option<nat> {
    if |vals| > 0 && vals[0].Num? && vals[0].number >= 0.0 then Some(vals[0].number.Floor) else None
  }

  function Taken(n: Option<nat>, rows: seq<Row>): seq<Row> {
    if n.Some? && n.value < |rows| then rows[..n.value] else rows
  }

  function Skipped(n: Option<nat>, rows: seq<Row>): seq<Row> {
    if n.None? then rows else if n.value < |rows| then rows[n.value..] else []
  }

  function TopTaken(w: World, top: Top, rows: seq<Row>): seq<Row> {
    if top.NoTop? then rows
    else if !top.ties && !top.percent && top.quantity.Rows? then Taken(Some(top.quantity.count), rows)
    else w.topped(top, rows)
  }

  /** What is left of a query's rows: past the offset, then as many as `TOP` and the limit say. */
  function Bounded(w: World, form: LimitForm, top: Top, limit: seq<Val>, offset: seq<Val>, rows: seq<Row>): seq<Row> {
    var topped := TopTaken(w, top, Skipped(CountOf(offset), rows));
    if form == LimitOffset(true) then w.grouped(limit, topped) else Taken(CountOf(limit), topped)
  }

  // ---- Queries ----

  function EvalQuery(rd: Reading, w: World, q: Query, env: Env): seq<Row>
    decreases WeightQuery(q)
  {
    var inner := env.(ctes := EvalWith(rd, w, q.with, env));
    var answered := EvalAnswered(rd, w, q.body, inner);
    var keys := EvalEach(rd, w, q.order, OrderScopes(answered), inner);
    Bounded(w, q.limits, TopOf(q.body), EvalAll(rd, w, q.limit, inner), EvalAll(rd, w, q.offset, inner),
            w.sort(keys, RowsOf(answered)))
  }

  function TopOf(b: Body): Top {
    if b.Select? then b.top else NoTop
  }

  /** A whole body's rows before any limit, a plain select's each with where it came from. */
  function EvalAnswered(rd: Reading, w: World, b: Body, env: Env): seq<Answered>
    decreases WeightBody(b), 3
  {
    if b.Select? then EvalSelect(rd, w, b.columns, b.from, b.filter, env) else Alone(EvalBody(rd, w, b, env))
  }

  function EvalWith(rd: Reading, w: World, with: With, env: Env): map<string, seq<Row>>
    decreases WeightWith(with)
  {
    match with
    case NoWith => env.ctes
    case Cte(earlier, alias, named) =>
      var ctes := EvalWith(rd, w, earlier, env);
      ctes[alias.value := EvalQuery(rd, w, named, env.(ctes := ctes))]
  }

  function EvalSelect(rd: Reading, w: World, columns: seq<Expr>, from: Source, filter: seq<Expr>,
                      env: Env): seq<Answered>
    decreases WeightAll(columns) + WeightSource(from) + WeightAll(filter), 2
  {
    var scopes := EvalSource(rd, w, from, env);
    var kept := Holding(scopes, EvalEach(rd, w, filter, scopes, env));
    Projected(columns, kept, EvalEach(rd, w, columns, kept, env))
  }

  function EvalBody(rd: Reading, w: World, b: Body, env: Env): seq<Row>
    decreases WeightBody(b), 2
  {
    match b
    case Select(top, columns, from, filter) => TopTaken(w, top, RowsOf(EvalSelect(rd, w, columns, from, filter, env)))
    case SetOperation(operator, one, other) =>
      w.combine(operator, EvalBody(rd, w, one, env), EvalBody(rd, w, other, env))
    case Inner(inside) => EvalQuery(rd, w, inside, env)
  }

  /** The rows a table name reads: a name of one word may be the statement's own. */
  function RowsNamed(name: ObjectName, env: Env): seq<Row> {
    match WrittenName(name)
    case None => []
    case Some(written) =>
      if |name| == 1 && written in env.ctes then env.ctes[written]
      else if written in env.tables then env.tables[written]
      else []
  }

  function EvalSource(rd: Reading, w: World, s: Source, env: Env): seq<Scope>
    decreases WeightSource(s), 0
  {
    match s
    case Nothing => [[]]
    case Table(table, _, _, alias) => Scopes(alias, RowsNamed(table, env))
    case Derived(derived, alias) => Scopes(alias, EvalQuery(rd, w, derived, env))
    case Joined(near, far, on) =>
      var pairs := Paired(EvalSource(rd, w, near, env), EvalSource(rd, w, far, env));
      Holding(pairs, EvalEach(rd, w, on, pairs, env))
  }
}
