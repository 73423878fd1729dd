/** Column types and fields, as the file's schema says them. */
module Arrow {
  datatype DataType =
    | Plain(kind: string)
    | Struct(fields: seq<Field>)
    | List(item: Field)
    | LargeList(item: Field)
    | FixedSizeList(item: Field, size: nat)
    | Map(entries: Field, sorted: bool)
    | Union(fields: seq<Field>)

  datatype Field = Field(name: string, type_: DataType, nullable: bool, metadata: map<string, string>)

  // ---- A type with every nullability claim dropped ----

  function Shape(t: DataType): DataType {
    match t
    case Struct(fields) => Struct(LooseAll(fields))
    case List(item) => List(Loose(item))
    case LargeList(item) => LargeList(Loose(item))
    case FixedSizeList(item, size) => FixedSizeList(Loose(item), size)
    case Map(entries, sorted) => Map(Loose(entries), sorted)
    case _ => t
  }

  function Loose(f: Field): Field {
    Field(f.name, Shape(f.type_), true, map[])
  }

  function LooseAll(fields: seq<Field>): (loose: seq<Field>)
    ensures |loose| == |fields|
  {
    if fields == [] then [] else [Loose(fields[0])] + LooseAll(fields[1..])
  }

  /**
   The same type but for what a field says of nullability and metadata, at any depth of struct,
   list and map. Inside a union nothing may differ.
   */
  predicate Alike(a: DataType, b: DataType) {
    match (a, b)
    case (Struct(x), Struct(y)) => |x| == |y| && forall i :: 0 <= i < |x| ==> AlikeFields(x[i], y[i])
    case (List(x), List(y)) => AlikeFields(x, y)
    case (LargeList(x), LargeList(y)) => AlikeFields(x, y)
    case (FixedSizeList(x, m), FixedSizeList(y, n)) => AlikeFields(x, y) && m == n
    case (Map(x, m), Map(y, n)) => AlikeFields(x, y) && m == n
    case _ => a == b
  }

  predicate AlikeFields(x: Field, y: Field) {
    x.name == y.name && Alike(x.type_, y.type_)
  }

  lemma {:induction false} LooseAt(fields: seq<Field>, i: nat)
    requires i < |fields|
    ensures LooseAll(fields)[i] == Loose(fields[i])
  {
    if i > 0 {
      LooseAt(fields[1..], i - 1);
    }
  }

  /** Dropping the claims twice is dropping them once. */
  lemma {:induction false} ShapeIdempotent(t: DataType)
    ensures Shape(Shape(t)) == Shape(t)
  {
    match t {
      case Struct(fields) =>
        forall i | 0 <= i < |fields|
          ensures LooseAll(LooseAll(fields))[i] == LooseAll(fields)[i]
        {
          LooseAt(fields, i);
          LooseAt(LooseAll(fields), i);
          ShapeIdempotent(fields[i].type_);
        }
      case List(item) => ShapeIdempotent(item.type_);
      case LargeList(item) => ShapeIdempotent(item.type_);
      case FixedSizeList(item, _) => ShapeIdempotent(item.type_);
      case Map(entries, _) => ShapeIdempotent(entries.type_);
      case _ =>
    }
  }

  /** Two types have one shape exactly when they are alike. */
  lemma {:induction false} ShapeDecides(a: DataType, b: DataType)
    ensures Shape(a) == Shape(b) <==> Alike(a, b)
    decreases a
  {
    match (a, b) {
      case (Struct(x), Struct(y)) =>
        if |x| == |y| {
          forall i | 0 <= i < |x|
            ensures LooseAll(x)[i] == LooseAll(y)[i] <==> AlikeFields(x[i], y[i])
          {
            LooseAt(x, i);
            LooseAt(y, i);
            ShapeDecides(x[i].type_, y[i].type_);
          }
          assert LooseAll(x) == LooseAll(y) <==> forall i :: 0 <= i < |x| ==> LooseAll(x)[i] == LooseAll(y)[i];
        }
      case (List(x), List(y)) => ShapeDecides(x.type_, y.type_);
      case (LargeList(x), LargeList(y)) => ShapeDecides(x.type_, y.type_);
      case (FixedSizeList(x, _), FixedSizeList(y, _)) => ShapeDecides(x.type_, y.type_);
      case (Map(x, _), Map(y, _)) => ShapeDecides(x.type_, y.type_);
      case _ =>
    }
  }
}
