/** The function names ADQL gives a meaning of its own, and the ones the target registers. */
module Functions {
  import opened Ascii

  datatype AdqlFunction =
    | POINT | CIRCLE | DISTANCE | CONTAINS | INTERSECTS
    | MOD | CEILING | LOG | TRUNCATE
    | AREA | BOX | CENTROID | COORD1 | COORD2 | COORDSYS | IN_UNIT | IVO_GEOM_TRANSFORM | POLYGON | REGION
    | Other(spelling: string)

  datatype TargetFunction =
    | Point | Circle | Distance | BooleanContains
    | Ceil | Ln | Trunc
    | Unlisted(key: string)

  function Spelled(upper: string): AdqlFunction {
    if upper == "POINT" then POINT
    else if upper == "CIRCLE" then CIRCLE
    else if upper == "DISTANCE" then DISTANCE
    else if upper == "CONTAINS" then CONTAINS
    else if upper == "INTERSECTS" then INTERSECTS
    else if upper == "MOD" then MOD
    else if upper == "CEILING" then CEILING
    else if upper == "LOG" then LOG
    else if upper == "TRUNCATE" then TRUNCATE
    else if upper == "AREA" then AREA
    else if upper == "BOX" then BOX
    else if upper == "CENTROID" then CENTROID
    else if upper == "COORD1" then COORD1
    else if upper == "COORD2" then COORD2
    else if upper == "COORDSYS" then COORDSYS
    else if upper == "IN_UNIT" then IN_UNIT
    else if upper == "IVO_GEOM_TRANSFORM" then IVO_GEOM_TRANSFORM
    else if upper == "POLYGON" then POLYGON
    else if upper == "REGION" then REGION
    else Other(upper)
  }

  /** The language's own word for each function that has a meaning of its own. */
  function WordOf(f: AdqlFunction): string {
    match f
    case POINT => "POINT" case CIRCLE => "CIRCLE" case DISTANCE => "DISTANCE"
    case CONTAINS => "CONTAINS" case INTERSECTS => "INTERSECTS"
    case MOD => "MOD" case CEILING => "CEILING" case LOG => "LOG" case TRUNCATE => "TRUNCATE"
    case AREA => "AREA" case BOX => "BOX" case CENTROID => "CENTROID"
    case COORD1 => "COORD1" case COORD2 => "COORD2" case COORDSYS => "COORDSYS"
    case IN_UNIT => "IN_UNIT" case IVO_GEOM_TRANSFORM => "IVO_GEOM_TRANSFORM"
    case POLYGON => "POLYGON" case REGION => "REGION"
    case Other(spelling) => spelling
  }

  /** A word is read as the function whose word it is once its letters are capitals, and as no other. */
  lemma {:induction false} RecognisedIs(written: string, f: AdqlFunction)
    ensures Recognised(written) == f ==> Upper(written) == WordOf(f)
    ensures !f.Other? && Upper(written) == WordOf(f) ==> Recognised(written) == f
  {
    SpelledBack(Upper(written));
  }

  lemma {:induction false} SpelledBack(upper: string)
    ensures upper == WordOf(Spelled(upper))
  {
  }

  /** ADQL reads an unquoted function name without regard to case. */
  function Recognised(written: string): AdqlFunction {
    Spelled(Upper(written))
  }

  /** The target resolves a key exactly, and lowers an unquoted name before it does. */
  function Registered(key: string): TargetFunction {
    if key == "point" then Point
    else if key == "circle" then Circle
    else if key == "distance" then Distance
    else if key == "contains" then BooleanContains
    else if key == "ceil" then Ceil
    else if key == "ln" then Ln
    else if key == "trunc" then Trunc
    else Unlisted(key)
  }

  /** The geometry names are the same function to the target, however they are capitalised. */
  lemma {:induction false} GeometryResolves(written: string)
    ensures Recognised(written) == POINT ==> Registered(Lower(written)) == Point
    ensures Recognised(written) == CIRCLE ==> Registered(Lower(written)) == Circle
    ensures Recognised(written) == DISTANCE ==> Registered(Lower(written)) == Distance
  {
    SpelledBack(Upper(written));
    LowerOfUpper(written);
  }

  lemma {:induction false} WrittenRenamings()
    ensures Registered(Lower("ceil")) == Ceil && Registered(Lower("ln")) == Ln && Registered(Lower("trunc")) == Trunc
    ensures Recognised("ceil").Other? && Recognised("ln").Other? && Recognised("trunc").Other?
  {
    LoweredRenamings();
    RaisedRenamings();
  }

  lemma {:induction false} LoweredRenamings()
    ensures Registered(Lower("ceil")) == Ceil && Registered(Lower("ln")) == Ln && Registered(Lower("trunc")) == Trunc
  {
    assert Lower("ceil") == "ceil" && Lower("ln") == "ln" && Lower("trunc") == "trunc";
  }

  lemma {:induction false} RaisedRenamings()
    ensures Recognised("ceil").Other? && Recognised("ln").Other? && Recognised("trunc").Other?
  {
    assert Upper("ceil") == "CEIL" && Upper("ln") == "LN" && Upper("trunc") == "TRUNC";
  }
}
