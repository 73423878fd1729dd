/**
 Whether a query would hand back the file it was asked about, judged from the footer alone.

 A file's values are kept leaf by leaf, as parquet keeps them: a struct or a list of a struct is
 several leaf columns, so the index of a field in the schema and the index of its first leaf are
 two different numbers. The null check below reads leaf columns by the first of them, as the
 service does; everything else finds a column's leaf by the second.
 */
module Footer {
  import opened Wrappers
  import opened Arrow
  import Projection

  datatype Cell = Null | Value(v: int)

  /** One row: for every leaf column, the values it holds there. */
  type Record = seq<seq<Cell>>

  /** What the footer says of one leaf column in one row group, each part where it was written. */
  datatype Chunk = Chunk(low: Option<int>, high: Option<int>, nulls: Option<nat>)

  datatype Group = Group(rows: seq<Record>, chunks: seq<Chunk>)

  datatype File = File(schema: seq<Field>, groups: seq<Group>)

  datatype Op = Eq | NotEq | Lt | LtEq | Gt | GtEq

  datatype Filter =
    | Compare(name: string, op: Op, bound: Cell)
    | IsNull(name: string)
    | IsNotNull(name: string)
    | Truth(known: Option<bool>)
    | And(one: Filter, other: Filter)
    | Or(one: Filter, other: Filter)
    | Not(inner: Filter)

  datatype Predicate = Everything | Unplanned | Planned(filter: Filter)

  datatype Selection =
    Selection(limit: Option<nat>, spatial: bool, narrowing: bool, projection: Projection.Projection,
              matching: Predicate)

  // ---- Leaves and fields ----

  function Leaves(t: DataType): nat {
    match t
    case Plain(_) => 1
    case Struct(fields) => LeavesOf(fields)
    case List(item) => Leaves(item.type_)
    case LargeList(item) => Leaves(item.type_)
    case FixedSizeList(item, _) => Leaves(item.type_)
    case Map(entries, _) => Leaves(entries.type_)
    case Union(fields) => LeavesOf(fields)
  }

  function LeavesOf(fields: seq<Field>): nat {
    if fields == [] then 0 else LeavesOf(fields[..|fields| - 1]) + Leaves(fields[|fields| - 1].type_)
  }

  /** The first leaf of a field. */
  function LeafStart(schema: seq<Field>, i: nat): nat
    requires i <= |schema|
  {
    LeavesOf(schema[..i])
  }

  /** A schema's field of a name: the first. */
  function IndexOf(schema: seq<Field>, name: string): Option<nat> {
    if schema == [] then None
    else if schema[0].name == name then Some(0)
    else match IndexOf(schema[1..], name) case Some(i) => Some(i + 1) case None => None
  }

  lemma {:induction false} IndexFound(schema: seq<Field>, name: string)
    ensures match IndexOf(schema, name)
            case Some(i) => i < |schema| && schema[i].name == name
            case None => forall i :: 0 <= i < |schema| ==> schema[i].name != name
  {
    if schema != [] && schema[0].name != name {
      IndexFound(schema[1..], name);
    }
  }

  /** Where the value of a column that is one leaf is kept. */
  function LeafOf(schema: seq<Field>, name: string): Option<nat> {
    IndexFound(schema, name);
    match IndexOf(schema, name)
    case Some(i) => if schema[i].type_.Plain? then Some(LeafStart(schema, i)) else None
    case None => None
  }

  /** Every field has a leaf, and every row and every chunk list is as wide as the schema. */
  ghost predicate WellFormed(file: File) {
    && (forall i :: 0 <= i < |file.schema| ==> Leaves(file.schema[i].type_) > 0)
    && (forall g <- file.groups ::
          && |g.chunks| == LeavesOf(file.schema)
          && forall r <- g.rows :: |r| == LeavesOf(file.schema) && RowFits(file.schema, r))
  }

  /** A column that is one leaf has one value in a row. */
  ghost predicate RowFits(schema: seq<Field>, r: Record) {
    forall name :: LeafOf(schema, name).Some? ==>
      LeafOf(schema, name).value < |r| && |r[LeafOf(schema, name).value]| == 1
  }

  // ---- What the rows say ----

  datatype Tri = True | False | Unknown

  function TriNot(t: Tri): Tri {
    match t case True => False case False => True case Unknown => Unknown
  }

  function TriAnd(a: Tri, b: Tri): Tri {
    if a.False? || b.False? then False else if a.True? && b.True? then True else Unknown
  }

  function TriOr(a: Tri, b: Tri): Tri {
    TriNot(TriAnd(TriNot(a), TriNot(b)))
  }

  function Decided(b: bool): Tri {
    if b then True else False
  }

  predicate Holds(op: Op, a: int, b: int) {
    match op
    case Eq => a == b
    case NotEq => a != b
    case Lt => a < b
    case LtEq => a <= b
    case Gt => a > b
    case GtEq => a >= b
  }

  /** A column's value in a row; what a nested column compares as is left open. */
  function CellOf(nested: (string, Record) -> Cell, schema: seq<Field>, name: string, r: Record): Cell {
    match LeafOf(schema, name)
    case Some(leaf) => if leaf < |r| && |r[leaf]| == 1 then r[leaf][0] else Null
    case None => nested(name, r)
  }

  function Eval(nested: (string, Record) -> Cell, schema: seq<Field>, f: Filter, r: Record): Tri {
    match f
    case Compare(name, op, bound) =>
      var cell := CellOf(nested, schema, name, r);
      if cell.Null? || bound.Null? then Unknown else Decided(Holds(op, cell.v, bound.v))
    case IsNull(name) => Decided(CellOf(nested, schema, name, r).Null?)
    case IsNotNull(name) => Decided(CellOf(nested, schema, name, r).Value?)
    case Truth(known) => (match known case Some(b) => Decided(b) case None => Unknown)
    case And(one, other) => TriAnd(Eval(nested, schema, one, r), Eval(nested, schema, other, r))
    case Or(one, other) => TriOr(Eval(nested, schema, one, r), Eval(nested, schema, other, r))
    case Not(inner) => TriNot(Eval(nested, schema, inner, r))
  }

  // ---- What the footer says ----

  /** The footer is true of the rows: bounds bound every value, counts count the nulls. */
  ghost predicate Truthful(file: File) {
    forall g <- file.groups :: forall leaf :: 0 <= leaf < |g.chunks| ==> TruthfulChunk(g, leaf)
  }

  ghost predicate TruthfulChunk(g: Group, leaf: nat)
    requires leaf < |g.chunks|
  {
    var chunk := g.chunks[leaf];
    && (forall r <- g.rows :: leaf < |r| && forall c: Cell <- r[leaf] :: c.Value? ==>
          && (chunk.low.Some? ==> chunk.low.value <= c.v)
          && (chunk.high.Some? ==> c.v <= chunk.high.value))
    && (chunk.nulls.Some? ==> chunk.nulls.value == NullCount(g.rows, leaf))
  }

  function NullCount(rows: seq<Record>, leaf: nat): nat {
    if rows == [] then 0
    else (if leaf < |rows[0]| then Nulls(rows[0][leaf]) else 0) + NullCount(rows[1..], leaf)
  }

  function Nulls(cells: seq<Cell>): nat {
    if cells == [] then 0 else (if cells[0].Null? then 1 else 0) + Nulls(cells[1..])
  }

  function ChunkOf(schema: seq<Field>, g: Group, name: string): Option<Chunk> {
    match LeafOf(schema, name)
    case Some(leaf) => if leaf < |g.chunks| then Some(g.chunks[leaf]) else None
    case None => None
  }

  // ---- The decision ----

  function Opposite(op: Op): Op {
    match op
    case Eq => NotEq
    case NotEq => Eq
    case Lt => GtEq
    case LtEq => Gt
    case Gt => LtEq
    case GtEq => Lt
  }

  /** A filter, or its negation, as comparisons that statistics can answer. */
  function Simplified(f: Filter, negated: bool): Filter {
    match f
    case Compare(name, op, bound) => if negated then Compare(name, Opposite(op), bound) else f
    case IsNull(name) => if negated then IsNotNull(name) else f
    case IsNotNull(name) => if negated then IsNull(name) else f
    case Truth(known) =>
      if negated then Truth(match known case Some(b) => Some(!b) case None => None) else f
    case And(one, other) =>
      if negated then Or(Simplified(one, true), Simplified(other, true))
      else And(Simplified(one, false), Simplified(other, false))
    case Or(one, other) =>
      if negated then And(Simplified(one, true), Simplified(other, true))
      else Or(Simplified(one, false), Simplified(other, false))
    case Not(inner) => Simplified(inner, !negated)
  }

  /** Whether a row group's statistics leave room for a row the filter is true of. */
  predicate CouldHold(schema: seq<Field>, g: Group, f: Filter) {
    match f
    case Compare(name, op, bound) =>
      (match ChunkOf(schema, g, name)
       case None => true
       case Some(chunk) => bound.Null? || (chunk.nulls != Some(|g.rows|) && InRange(chunk, op, bound.v)))
    case IsNull(name) => (match ChunkOf(schema, g, name) case None => true case Some(chunk) => chunk.nulls != Some(0))
    case IsNotNull(name) =>
      (match ChunkOf(schema, g, name) case None => true case Some(chunk) => chunk.nulls != Some(|g.rows|))
    case Truth(known) => known != Some(false)
    case And(one, other) => CouldHold(schema, g, one) && CouldHold(schema, g, other)
    case Or(one, other) => CouldHold(schema, g, one) || CouldHold(schema, g, other)
    case Not(_) => true
  }

  predicate InRange(chunk: Chunk, op: Op, b: int) {
    match op
    case Eq => (chunk.low.None? || chunk.low.value <= b) && (chunk.high.None? || b <= chunk.high.value)
    case NotEq => !(chunk.low == Some(b) && chunk.high == Some(b))
    case Lt => chunk.low.None? || chunk.low.value < b
    case LtEq => chunk.low.None? || chunk.low.value <= b
    case Gt => chunk.high.None? || chunk.high.value > b
    case GtEq => chunk.high.None? || chunk.high.value >= b
  }

  function Names(f: Filter): set<string> {
    match f
    case Compare(name, _, _) => {name}
    case IsNull(name) => {name}
    case IsNotNull(name) => {name}
    case Truth(_) => {}
    case And(one, other) => Names(one) + Names(other)
    case Or(one, other) => Names(one) + Names(other)
    case Not(inner) => Names(inner)
  }

  /** The null check: leaf columns, by the index the schema gives the field. */
  predicate CountsNoNulls(file: File, name: string) {
    match IndexOf(file.schema, name)
    case None => false
    case Some(i) => forall g <- file.groups :: i < |g.chunks| && g.chunks[i].nulls == Some(0)
  }

  predicate KeepsEveryRow(file: File, f: Filter) {
    && (forall name <- Names(f) :: CountsNoNulls(file, name))
    && (forall g <- file.groups :: !CouldHold(file.schema, g, Simplified(f, true)))
  }

  predicate NamesEveryColumn(s: Selection, file: File) {
    || s.projection.All?
    || (Projection.Planned(s.projection) && Projection.Accepts(Projection.Fields(s.projection), file.schema))
  }

  predicate MatchesEveryRow(s: Selection, file: File) {
    match s.matching case Everything => true case Unplanned => false case Planned(f) => KeepsEveryRow(file, f)
  }

  /** A footer that is true of a file whose columns are told apart by name. */
  ghost predicate Sound(file: File) {
    WellFormed(file) && Truthful(file) && Projection.DistinctNames(Projection.Shaped(file.schema))
  }

  ghost predicate ColumnsAligned(s: Selection, schema: seq<Field>) {
    s.matching.Planned? ==> forall name <- Names(s.matching.filter) :: Aligned(schema, name)
  }

  /** The columns answered are the file's, perhaps rearranged, and alike but for nullability. */
  predicate ReturnsTheColumns(s: Selection, file: File) {
    s.projection.Columns? ==>
      && Projection.Planned(s.projection)
      && |s.projection.fields| == |file.schema|
      && Projection.Covers(Projection.Fields(s.projection), file.schema)
      && Projection.Covers(file.schema, Projection.Fields(s.projection))
  }

  /** The rows that something holds of, in order. */
  function Held(keeps: Record -> bool, rows: seq<Record>): seq<Record> {
    if rows == [] then [] else (if keeps(rows[0]) then [rows[0]] else []) + Held(keeps, rows[1..])
  }

  /** The rows a filter is true of. */
  function Kept(nested: (string, Record) -> Cell, schema: seq<Field>, f: Filter, rows: seq<Record>): seq<Record> {
    Held(r => Eval(nested, schema, f, r) == True, rows)
  }

  /**
   The rows the query answers: those the filter keeps, of them those in the region and those the
   index keeps, and so many from the first on. A region and an index keep what they keep.
   */
  function Answered(nested: (string, Record) -> Cell, region: Record -> bool, index: Record -> bool,
                    s: Selection, file: File): seq<Record>
  {
    var rows := Rows(file.groups);
    var kept := if s.matching.Planned? then Kept(nested, file.schema, s.matching.filter, rows) else rows;
    var inside := if s.spatial then Held(region, kept) else kept;
    var narrowed := if s.narrowing then Held(index, inside) else inside;
    match s.limit case Some(n) => if n < |narrowed| then narrowed[..n] else narrowed case None => narrowed
  }

  /**
   Whether answering the selection would return the file itself. It is never so answered where the
   query's answer would differ from the file, of a sound footer and columns the null check reads
   rightly, whatever a nested column compares as and a region or an index would keep.
   */
  method AnswersWithTheFile(s: Selection, file: File, ghost nested: (string, Record) -> Cell,
                            ghost region: Record -> bool, ghost index: Record -> bool) returns (whole: bool)
    ensures whole <==> s.limit.None? && !s.spatial && !s.narrowing
                       && NamesEveryColumn(s, file) && MatchesEveryRow(s, file)
    ensures whole && Sound(file) && ColumnsAligned(s, file.schema) ==>
              && !s.projection.Unplanned? && !s.matching.Unplanned?
              && ReturnsTheColumns(s, file) && Answered(nested, region, index, s, file) == Rows(file.groups)
  {
    if Sound(file) && ColumnsAligned(s, file.schema) && NamesEveryColumn(s, file) && MatchesEveryRow(s, file) {
      FileIsReturned(nested, s, file);
    }
    if s.limit.Some? || s.spatial || s.narrowing {
      return false;
    }
    var columns := Projection.EveryColumn(s.projection, file.schema);
    if !columns {
      return false;
    }
    match s.matching
    case Everything => return true;
    case Unplanned => return false;
    case Planned(filter) => return KeepsEveryRow(file, filter);
  }

  lemma {:induction false} FileIsReturned(nested: (string, Record) -> Cell, s: Selection, file: File)
    requires Sound(file) && ColumnsAligned(s, file.schema)
    requires NamesEveryColumn(s, file) && MatchesEveryRow(s, file)
    ensures !s.projection.Unplanned? && ReturnsTheColumns(s, file)
    ensures !s.matching.Unplanned?
    ensures s.matching.Planned? ==>
              Kept(nested, file.schema, s.matching.filter, Rows(file.groups)) == Rows(file.groups)
  {
    if s.projection.Columns? {
      Projection.AcceptedIsRearranged(Projection.Fields(s.projection), file.schema);
    }
    if s.matching.Planned? {
      AnswerIsTheFile(nested, file, s.matching.filter);
    }
  }

  // ---- The proof that the footer is enough ----

  /** Simplifying a negation says the negation, unknowns included, of the same columns. */
  lemma {:induction false} SimplifiedMeans(nested: (string, Record) -> Cell, schema: seq<Field>, f: Filter,
                                           negated: bool, r: Record)
    ensures Eval(nested, schema, Simplified(f, negated), r)
         == if negated then TriNot(Eval(nested, schema, f, r)) else Eval(nested, schema, f, r)
    ensures Names(Simplified(f, negated)) == Names(f)
  {
    match f {
      case And(one, other) =>
        SimplifiedMeans(nested, schema, one, negated, r);
        SimplifiedMeans(nested, schema, other, negated, r);
      case Or(one, other) =>
        SimplifiedMeans(nested, schema, one, negated, r);
        SimplifiedMeans(nested, schema, other, negated, r);
      case Not(inner) => SimplifiedMeans(nested, schema, inner, !negated, r);
      case _ =>
    }
  }

  /** A column the filter names is the leaf its own index points at. */
  predicate Aligned(schema: seq<Field>, name: string) {
    IndexFound(schema, name);
    match IndexOf(schema, name) case Some(i) => LeafStart(schema, i) == i case None => false
  }

  lemma {:induction false} NoNullsCounted(rows: seq<Record>, leaf: nat, k: nat)
    requires NullCount(rows, leaf) == 0 && k < |rows| && leaf < |rows[k]| && |rows[k][leaf]| == 1
    ensures rows[k][leaf][0].Value?
  {
    if k == 0 {
      assert Nulls(rows[0][leaf]) == 0;
    } else {
      NoNullsCounted(rows[1..], leaf, k - 1);
    }
  }

  /** With true counts of no nulls, a group the pruner refuses has only rows the filter is false of. */
  lemma {:induction false} RefusedIsFalse(nested: (string, Record) -> Cell, file: File, g: Group, f: Filter, k: nat)
    requires WellFormed(file) && Truthful(file) && g in file.groups && k < |g.rows|
    requires forall name <- Names(f) :: CountsNoNulls(file, name) && Aligned(file.schema, name)
    requires !CouldHold(file.schema, g, f)
    ensures Eval(nested, file.schema, f, g.rows[k]) == False
  {
    match f {
      case And(one, other) =>
        if !CouldHold(file.schema, g, one) {
          RefusedIsFalse(nested, file, g, one, k);
        } else {
          RefusedIsFalse(nested, file, g, other, k);
        }
      case Or(one, other) =>
        RefusedIsFalse(nested, file, g, one, k);
        RefusedIsFalse(nested, file, g, other, k);
      case Compare(name, _, _) => CellIsKnown(nested, file, g, name, k);
      case IsNull(name) => CellIsKnown(nested, file, g, name, k);
      case IsNotNull(name) => CellIsKnown(nested, file, g, name, k);
      case _ =>
    }
  }

  /** A checked column that has statistics has a value in every row, within its chunk's bounds. */
  lemma {:induction false} CellIsKnown(nested: (string, Record) -> Cell, file: File, g: Group, name: string, k: nat)
    requires WellFormed(file) && Truthful(file) && g in file.groups && k < |g.rows|
    requires CountsNoNulls(file, name) && Aligned(file.schema, name)
    ensures var cell := CellOf(nested, file.schema, name, g.rows[k]);
            match ChunkOf(file.schema, g, name)
            case None => true
            case Some(chunk) =>
              && cell.Value?
              && (chunk.low.Some? ==> chunk.low.value <= cell.v) && (chunk.high.Some? ==> cell.v <= chunk.high.value)
              && chunk.nulls == Some(0)
  {
    if ChunkOf(file.schema, g, name).Some? {
      var leaf := LeafOf(file.schema, name).value;
      var r := g.rows[k];
      assert r in g.rows && RowFits(file.schema, r);
      assert TruthfulChunk(g, leaf);
      NoNullsCounted(g.rows, leaf, k);
      assert r[leaf][0] in r[leaf];
    }
  }

  /**
   The footer check is enough: where every column named is the leaf its index points at, a file it
   accepts has no row the filter is not true of.
   */
  lemma {:induction false} KeptRowsAreTrue(nested: (string, Record) -> Cell, file: File, f: Filter, g: Group, k: nat)
    requires WellFormed(file) && Truthful(file) && KeepsEveryRow(file, f)
    requires forall name <- Names(f) :: Aligned(file.schema, name)
    requires g in file.groups && k < |g.rows|
    ensures Eval(nested, file.schema, f, g.rows[k]) == True
  {
    SimplifiedMeans(nested, file.schema, f, true, g.rows[k]);
    RefusedIsFalse(nested, file, g, Simplified(f, true), k);
  }

  lemma {:induction false} AllHeld(keeps: Record -> bool, rows: seq<Record>)
    requires forall k :: 0 <= k < |rows| ==> keeps(rows[k])
    ensures Held(keeps, rows) == rows
  {
    if rows != [] {
      AllHeld(keeps, rows[1..]);
      assert rows == [rows[0]] + rows[1..];
    }
  }

  function Rows(groups: seq<Group>): seq<Record> {
    if groups == [] then [] else groups[0].rows + Rows(groups[1..])
  }

  lemma {:induction false} RowIsInAGroup(groups: seq<Group>, k: nat)
    requires k < |Rows(groups)|
    ensures exists g, j :: g in groups && 0 <= j < |g.rows| && g.rows[j] == Rows(groups)[k]
  {
    if k < |groups[0].rows| {
      assert groups[0] in groups && groups[0].rows[k] == Rows(groups)[k];
    } else {
      RowIsInAGroup(groups[1..], k - |groups[0].rows|);
      var g, j :| g in groups[1..] && 0 <= j < |g.rows| && g.rows[j] == Rows(groups[1..])[k - |groups[0].rows|];
      assert g in groups;
    }
  }

  /** So the query's rows are the file's, all of them and in order. */
  lemma {:induction false} AnswerIsTheFile(nested: (string, Record) -> Cell, file: File, f: Filter)
    requires WellFormed(file) && Truthful(file) && KeepsEveryRow(file, f)
    requires forall name <- Names(f) :: Aligned(file.schema, name)
    ensures Kept(nested, file.schema, f, Rows(file.groups)) == Rows(file.groups)
  {
    var rows := Rows(file.groups);
    forall k | 0 <= k < |rows|
      ensures Eval(nested, file.schema, f, rows[k]) == True
    {
      RowIsInAGroup(file.groups, k);
      var g, j :| g in file.groups && 0 <= j < |g.rows| && g.rows[j] == rows[k];
      KeptRowsAreTrue(nested, file, f, g, j);
    }
    AllHeld(r => Eval(nested, file.schema, f, r) == True, rows);
  }

  // ---- What it does prove ----

  /** A chunk that says everything, and whose bounds are values of its rows. */
  ghost predicate Attained(g: Group, leaf: nat) {
    && leaf < |g.chunks|
    && g.chunks[leaf].nulls == Some(0) && g.chunks[leaf].low.Some? && g.chunks[leaf].high.Some?
    && (exists k :: 0 <= k < |g.rows| && leaf < |g.rows[k]| && g.rows[k][leaf] == [Value(g.chunks[leaf].low.value)])
    && (exists k :: 0 <= k < |g.rows| && leaf < |g.rows[k]| && g.rows[k][leaf] == [Value(g.chunks[leaf].high.value)])
  }

  ghost predicate TrueOfEveryRow(nested: (string, Record) -> Cell, file: File, f: Filter) {
    forall g: Group, k: nat :: g in file.groups && k < |g.rows| ==> Eval(nested, file.schema, f, g.rows[k]) == True
  }

  /** From a full footer a range or a single value is decided both ways; only `<>` may be missed. */
  lemma {:induction false} RangeIsDecided(nested: (string, Record) -> Cell, file: File, i: nat, op: Op, c: int)
    requires WellFormed(file) && Truthful(file) && op != NotEq
    requires i < |file.schema| && LeafOf(file.schema, file.schema[i].name) == Some(i)
    requires IndexOf(file.schema, file.schema[i].name) == Some(i)
    requires forall g <- file.groups :: Attained(g, i)
    ensures var f := Compare(file.schema[i].name, op, Value(c));
            KeepsEveryRow(file, f) <==> TrueOfEveryRow(nested, file, f)
  {
    var name := file.schema[i].name;
    var f := Compare(name, op, Value(c));
    if KeepsEveryRow(file, f) {
      forall g: Group, k: nat | g in file.groups && k < |g.rows|
        ensures Eval(nested, file.schema, f, g.rows[k]) == True
      {
        KeptRowsAreTrue(nested, file, f, g, k);
      }
    }
    if TrueOfEveryRow(nested, file, f) {
      forall g <- file.groups
        ensures !CouldHold(file.schema, g, Simplified(f, true))
      {
        TrueRangeIsRefused(nested, file.schema, g, i, op, c);
      }
    }
  }

  /** Ranges and equalities, joined by `AND`, over columns of one leaf whose footer says everything. */
  ghost predicate AreRanges(file: File, f: Filter) {
    match f
    case Compare(name, op, bound) =>
      && op != NotEq && bound.Value?
      && IndexOf(file.schema, name).Some? && LeafOf(file.schema, name) == IndexOf(file.schema, name)
      && forall g <- file.groups :: Attained(g, IndexOf(file.schema, name).value)
    case And(one, other) => AreRanges(file, one) && AreRanges(file, other)
    case _ => false
  }

  /** And so are any number of them at once: said to keep every row exactly where they do. */
  lemma {:induction false} RangesAreDecided(nested: (string, Record) -> Cell, file: File, f: Filter)
    requires WellFormed(file) && Truthful(file) && AreRanges(file, f)
    ensures KeepsEveryRow(file, f) <==> TrueOfEveryRow(nested, file, f)
  {
    match f {
      case Compare(name, op, bound) =>
        IndexFound(file.schema, name);
        RangeIsDecided(nested, file, IndexOf(file.schema, name).value, op, bound.v);
      case And(one, other) =>
        RangesAreDecided(nested, file, one);
        RangesAreDecided(nested, file, other);
    }
  }

  lemma {:induction false} TrueRangeIsRefused(nested: (string, Record) -> Cell, schema: seq<Field>, g: Group, i: nat,
                                              op: Op, c: int)
    requires i < |schema| && LeafOf(schema, schema[i].name) == Some(i) && op != NotEq && Attained(g, i)
    requires forall k :: 0 <= k < |g.rows| ==>
               Eval(nested, schema, Compare(schema[i].name, op, Value(c)), g.rows[k]) == True
    ensures !CouldHold(schema, g, Compare(schema[i].name, Opposite(op), Value(c)))
  {
    var low :| 0 <= low < |g.rows| && i < |g.rows[low]| && g.rows[low][i] == [Value(g.chunks[i].low.value)];
    var high :| 0 <= high < |g.rows| && i < |g.rows[high]| && g.rows[high][i] == [Value(g.chunks[i].high.value)];
    assert Eval(nested, schema, Compare(schema[i].name, op, Value(c)), g.rows[low]) == True;
    assert Eval(nested, schema, Compare(schema[i].name, op, Value(c)), g.rows[high]) == True;
  }

  // ---- And exactly when it is enough ----

  lemma {:induction false} LeafStartGrows(schema: seq<Field>, i: nat, j: nat)
    requires i <= j <= |schema| && forall k :: 0 <= k < |schema| ==> Leaves(schema[k].type_) > 0
    ensures LeafStart(schema, j) - LeafStart(schema, i) >= j - i
    decreases j
  {
    if i < j {
      assert schema[..j][..j - 1] == schema[..j - 1];
      LeafStartGrows(schema, i, j - 1);
    }
  }

  /** Aligned means that every field before is one leaf. */
  lemma {:induction false} AlignedMeansSingleLeaves(schema: seq<Field>, i: nat)
    requires i <= |schema| && forall k :: 0 <= k < |schema| ==> Leaves(schema[k].type_) > 0
    ensures LeafStart(schema, i) == i <==> forall k :: 0 <= k < i ==> Leaves(schema[k].type_) == 1
  {
    if i > 0 {
      assert schema[..i][..i - 1] == schema[..i - 1];
      AlignedMeansSingleLeaves(schema, i - 1);
      LeafStartGrows(schema, 0, i - 1);
    }
  }

  lemma {:induction false} LeafIsInFile(schema: seq<Field>, name: string)
    requires forall k :: 0 <= k < |schema| ==> Leaves(schema[k].type_) > 0
    ensures LeafOf(schema, name).Some? ==> LeafOf(schema, name).value < LeavesOf(schema)
  {
    IndexFound(schema, name);
    if LeafOf(schema, name).Some? {
      LeafStartGrows(schema, IndexOf(schema, name).value, |schema|);
      assert schema[..|schema|] == schema;
    }
  }

  /** The decision is right of a filter over a schema, whatever the file holds. */
  ghost predicate AlwaysRight(nested: (string, Record) -> Cell, schema: seq<Field>, f: Filter) {
    forall file: File, g: Group, k: nat ::
      && file.schema == schema && WellFormed(file) && Truthful(file) && KeepsEveryRow(file, f)
      && g in file.groups && k < |g.rows|
      ==> Eval(nested, schema, f, g.rows[k]) == True
  }

  /** Two rows alike in every leaf but one, where the second has no value. */
  function Witness(schema: seq<Field>, leaf: nat, c: int): File {
    var n := LeavesOf(schema);
    File(schema, [Group([seq(n, j => [Value(c)]), seq(n, j => if j == leaf then [Null] else [Value(c)])],
                        seq(n, j => Chunk(Some(c), Some(c), Some(if j == leaf then 1 else 0))))])
  }

  lemma {:induction false} WitnessIsAFile(schema: seq<Field>, leaf: nat, c: int)
    requires forall k :: 0 <= k < |schema| ==> Leaves(schema[k].type_) > 0
    requires leaf < LeavesOf(schema)
    ensures WellFormed(Witness(schema, leaf, c)) && Truthful(Witness(schema, leaf, c))
  {
    var file := Witness(schema, leaf, c);
    var g := file.groups[0];
    forall r <- g.rows
      ensures |r| == LeavesOf(schema) && RowFits(schema, r)
    {
      forall name | LeafOf(schema, name).Some?
        ensures LeafOf(schema, name).value < |r| && |r[LeafOf(schema, name).value]| == 1
      {
        LeafIsInFile(schema, name);
      }
    }
    forall j | 0 <= j < |g.chunks|
      ensures TruthfulChunk(g, j)
    {
      NullsInTwoRows(g.rows[0], g.rows[1], j);
    }
  }

  lemma {:induction false} NullsInTwoRows(one: Record, other: Record, leaf: nat)
    requires leaf < |one| && leaf < |other| && |one[leaf]| == |other[leaf]| == 1
    ensures NullCount([one, other], leaf)
            == (if one[leaf][0].Null? then 1 else 0) + (if other[leaf][0].Null? then 1 else 0)
  {
    assert [one, other][1..] == [other] && [other][1..] == [];
    assert NullCount([other], leaf) == Nulls(other[leaf]) + NullCount([], leaf);
    assert Nulls(one[leaf][1..]) == 0 && Nulls(other[leaf][1..]) == 0;
  }

  /** A value a comparison with `b` is true of. */
  function Meeting(op: Op, b: int): int {
    match op
    case Eq => b
    case LtEq => b
    case GtEq => b
    case Lt => b - 1
    case Gt => b + 1
    case NotEq => b + 1
  }

  /** Where the two indices part, a file with a null in the column named is said to keep every row. */
  lemma {:induction false} MisalignedIsWrong(nested: (string, Record) -> Cell, schema: seq<Field>, i: nat, op: Op,
                                             b: int)
    requires forall k :: 0 <= k < |schema| ==> Leaves(schema[k].type_) > 0
    requires i < |schema| && schema[i].type_.Plain? && IndexOf(schema, schema[i].name) == Some(i)
    requires LeafStart(schema, i) != i
    ensures var file := Witness(schema, LeafStart(schema, i), Meeting(op, b));
            var f := Compare(schema[i].name, op, Value(b));
            && WellFormed(file) && Truthful(file) && KeepsEveryRow(file, f)
            && Eval(nested, schema, f, file.groups[0].rows[1]) == Unknown
  {
    LeafIsInFile(schema, schema[i].name);
    LeafStartGrows(schema, 0, i);
    LeafStartGrows(schema, i, |schema|);
    assert schema[..|schema|] == schema;
    WitnessIsAFile(schema, LeafStart(schema, i), Meeting(op, b));
  }

  /**
   A comparison with a column of one leaf is decided rightly for every file of a schema if and only
   if every field before that column is one leaf too, whatever the operator and the bound.
   */
  lemma {:induction false} RightExactlyWhenAligned(nested: (string, Record) -> Cell, schema: seq<Field>, i: nat,
                                                   op: Op, b: int)
    requires forall k :: 0 <= k < |schema| ==> Leaves(schema[k].type_) > 0
    requires i < |schema| && schema[i].type_.Plain? && IndexOf(schema, schema[i].name) == Some(i)
    ensures AlwaysRight(nested, schema, Compare(schema[i].name, op, Value(b)))
       <==> (forall k :: 0 <= k < i ==> Leaves(schema[k].type_) == 1)
  {
    var f := Compare(schema[i].name, op, Value(b));
    AlignedMeansSingleLeaves(schema, i);
    if LeafStart(schema, i) == i {
      forall file: File, g: Group, k: nat | file.schema == schema && WellFormed(file) && Truthful(file)
                                            && KeepsEveryRow(file, f) && g in file.groups && k < |g.rows|
        ensures Eval(nested, schema, f, g.rows[k]) == True
      {
        KeptRowsAreTrue(nested, file, f, g, k);
      }
    } else {
      var file := Witness(schema, LeafStart(schema, i), Meeting(op, b));
      MisalignedIsWrong(nested, schema, i, op, b);
      assert file.groups[0] in file.groups;
    }
  }
}
