/**
 The names a caller wrote, rewritten into the names their files use: an unquoted name answers to
 any capitalisation of itself, where that names one thing, and a quoted one to itself alone.
 */
module Resolve {
  import opened Wrappers
  import opened Ascii
  import opened Syntax
  import opened Arrow

  // ---- What a file has ----

  function Inner(f: Field): seq<Field> {
    match f.type_ case Struct(fields) => fields case _ => []
  }

  /** The fields inside every field of a name. */
  function Inside(fields: seq<Field>, name: string): seq<Field> {
    if fields == [] then []
    else (if fields[0].name == name then Inner(fields[0]) else []) + Inside(fields[1..], name)
  }

  /** A field that holds a path: it has the first name, and a field inside it holds the rest. */
  predicate Leads(f: Field, path: seq<string>)
    decreases |path|
  {
    && path != [] && f.name == path[0]
    && (|path| > 1 ==> f.type_.Struct? && exists g <- f.type_.fields :: Leads(g, path[1..]))
  }

  // ---- One name ----

  predicate Has(fields: seq<Field>, name: string) {
    exists f <- fields :: f.name == name
  }

  /** What an identifier may answer to without quotes: itself, but for the case of its letters. */
  predicate FoldsTo(ident: Ident, name: string) {
    SameButCase(name, ident.value)
  }

  /** The names among the fields that a name is a capitalisation of, each once. */
  function Spellings(fields: seq<Field>, ident: Ident): seq<string> {
    if fields == [] then []
    else
      var rest := Spellings(fields[1..], ident);
      if SameFold(fields[0].name, ident.value) && fields[0].name !in rest then [fields[0].name] + rest else rest
  }

  /** One name, among the fields it may be. */
  function Spelled(ident: Ident, fields: seq<Field>): Option<string> {
    if Has(fields, ident.value) then Some(ident.value)
    else if ident.quoted then None
    else
      var spellings := Spellings(fields, ident);
      if |spellings| == 1 then Some(spellings[0]) else None
  }

  lemma {:induction false} SpellingsAre(fields: seq<Field>, ident: Ident)
    ensures forall name :: name in Spellings(fields, ident) <==> Has(fields, name) && FoldsTo(ident, name)
    ensures |Spellings(fields, ident)| > 1 ==> Spellings(fields, ident)[0] != Spellings(fields, ident)[1]
  {
    if fields != [] {
      SpellingsAre(fields[1..], ident);
      SameFoldIs(fields[0].name, ident.value);
      assert fields == [fields[0]] + fields[1..];
      forall name
        ensures name in Spellings(fields, ident) <==> Has(fields, name) && FoldsTo(ident, name)
      {
        assert Has(fields, name) <==> fields[0].name == name || Has(fields[1..], name);
      }
    }
  }

  ghost predicate OnlyFolding(ident: Ident, fields: seq<Field>, name: string) {
    forall other :: Has(fields, other) && FoldsTo(ident, other) ==> other == name
  }

  /** A name is spelled as it is written where something has that name; or else as the one thing it folds to. */
  lemma {:induction false} SpelledIs(ident: Ident, fields: seq<Field>, name: string)
    ensures Spelled(ident, fields) == Some(name) <==>
              && Has(fields, name) && FoldsTo(ident, name)
              && (name == ident.value
                  || (!ident.quoted && !Has(fields, ident.value) && OnlyFolding(ident, fields, name)))
  {
    SpellingsAre(fields, ident);
    var spellings := Spellings(fields, ident);
    if |spellings| == 1 {
      forall other | other in spellings
        ensures other == spellings[0]
      {
      }
    }
    if Has(fields, name) && FoldsTo(ident, name) && OnlyFolding(ident, fields, name) {
      assert name in spellings;
      forall i | 0 <= i < |spellings|
        ensures spellings[i] == name
      {
        assert spellings[i] in spellings;
        assert Has(fields, spellings[i]);
      }
    }
  }

  // ---- A path ----

  /** The file's spelling of each part of a path, starting among some fields. */
  function Walked(parts: seq<Ident>, fields: seq<Field>): Option<seq<string>>
    decreases |parts|
  {
    if parts == [] then Some([])
    else match Spelled(parts[0], fields)
      case None => None
      case Some(name) =>
        match Walked(parts[1..], Inside(fields, name))
        case None => None
        case Some(names) => Some([name] + names)
  }

  method Walk(parts: seq<Ident>, fields: seq<Field>) returns (r: Option<seq<string>>)
    ensures r == Walked(parts, fields)
  {
    var spellings: seq<string> := [];
    var among := fields;
    assert parts[0..] == parts && forall names: seq<string> :: [] + names == names;
    for i := 0 to |parts|
      invariant Walked(parts, fields) == match Walked(parts[i..], among)
                                         case None => None
                                         case Some(names) => Some(spellings + names)
    {
      assert parts[i..][1..] == parts[i + 1..] && parts[i..][0] == parts[i];
      var spelling := Spelled(parts[i], among);
      if spelling.None? {
        return None;
      }
      assert forall names: seq<string> ::
          spellings + ([spelling.value] + names) == (spellings + [spelling.value]) + names;
      among := Inside(among, spelling.value);
      spellings := spellings + [spelling.value];
    }
    assert parts[|parts|..] == [] && spellings + [] == spellings;
    return Some(spellings);
  }

  /** The part the column is: the last one a walk can start from, if there is one. */
  function Start(parts: seq<Ident>, columns: seq<Field>, upTo: nat): Option<nat>
    requires upTo <= |parts|
  {
    if upTo == 0 then None
    else if Walked(parts[upTo - 1..], columns).Some? then Some(upTo - 1)
    else Start(parts, columns, upTo - 1)
  }

  function Columns(schemas: seq<seq<Field>>): seq<Field> {
    if schemas == [] then [] else schemas[0] + Columns(schemas[1..])
  }

  function Respelled(part: Ident, spelling: string): Ident {
    if part.value == spelling then part else Ident(spelling, true)
  }

  /** The parts from `start` on respelled, and the qualifiers before them as they were. */
  function Rewritten(parts: seq<Ident>, start: nat, spellings: seq<string>): seq<Ident>
    requires start + |spellings| == |parts|
  {
    seq(|parts|, i requires 0 <= i < |parts| =>
      if i < start then parts[i] else Respelled(parts[i], spellings[i - start]))
  }

  /** A dotted name, its column and what is inside it respelled; as written where nothing is found. */
  function Resolved(parts: seq<Ident>, schemas: seq<seq<Field>>): (r: seq<Ident>)
    ensures |r| == |parts|
  {
    StartIsLast(parts, Columns(schemas), |parts|);
    match Start(parts, Columns(schemas), |parts|)
    case None => parts
    case Some(start) =>
      WalkedLength(parts[start..], Columns(schemas));
      Rewritten(parts, start, Walked(parts[start..], Columns(schemas)).value)
  }

  /** Trying each part as the column, the last first. */
  method FindColumn(parts: seq<Ident>, columns: seq<Field>) returns (start: nat, spellings: Option<seq<string>>)
    ensures match Start(parts, columns, |parts|)
            case None => spellings.None?
            case Some(at) => start == at < |parts| && spellings == Walked(parts[at..], columns) && spellings.Some?
  {
    start := |parts|;
    spellings := None;
    while start > 0 && spellings.None?
      invariant start <= |parts|
      invariant spellings.None? ==> Start(parts, columns, |parts|) == Start(parts, columns, start)
      invariant spellings.Some? ==>
                  && start < |parts| && Start(parts, columns, |parts|) == Some(start)
                  && spellings == Walked(parts[start..], columns)
      decreases start
    {
      start := start - 1;
      spellings := Walk(parts[start..], columns);
    }
  }

  method ResolvePath(parts: array<Ident>, schemas: seq<seq<Field>>)
    modifies parts
    ensures parts[..] == Resolved(old(parts[..]), schemas)
  {
    ghost var was := parts[..];
    var start, found := FindColumn(parts[..], Columns(schemas));
    if found.None? {
      return;
    }
    WalkedLength(was[start..], Columns(schemas));
    Respell(parts, start, found.value);
  }

  method Respell(parts: array<Ident>, start: nat, spellings: seq<string>)
    requires start + |spellings| == parts.Length
    modifies parts
    ensures parts[..] == Rewritten(old(parts[..]), start, spellings)
  {
    for i := 0 to |spellings|
      invariant forall j :: 0 <= j < start ==> parts[j] == old(parts[j])
      invariant forall j :: start <= j < start + i ==> parts[j] == Respelled(old(parts[j]), spellings[j - start])
      invariant forall j :: start + i <= j < parts.Length ==> parts[j] == old(parts[j])
    {
      if parts[start + i].value != spellings[i] {
        parts[start + i] := Ident(spellings[i], true);
      }
    }
  }

  lemma {:induction false} WalkedLength(parts: seq<Ident>, fields: seq<Field>)
    ensures Walked(parts, fields).Some? ==> |Walked(parts, fields).value| == |parts|
    decreases |parts|
  {
    if parts != [] && Spelled(parts[0], fields).Some? {
      WalkedLength(parts[1..], Inside(fields, Spelled(parts[0], fields).value));
    }
  }

  lemma {:induction false} StartIsLast(parts: seq<Ident>, columns: seq<Field>, upTo: nat)
    requires upTo <= |parts|
    ensures match Start(parts, columns, upTo)
            case None => forall i :: 0 <= i < upTo ==> Walked(parts[i..], columns).None?
            case Some(start) =>
              && start < upTo && Walked(parts[start..], columns).Some?
              && forall i :: start < i < upTo ==> Walked(parts[i..], columns).None?
  {
    if upTo > 0 && Walked(parts[upTo - 1..], columns).None? {
      StartIsLast(parts, columns, upTo - 1);
    }
  }

  // ---- What is resolved to really exists ----

  lemma {:induction false} InsideIs(fields: seq<Field>, name: string, g: Field)
    requires g in Inside(fields, name)
    ensures exists f <- fields :: f.name == name && g in Inner(f)
  {
    if fields[0].name != name || g !in Inner(fields[0]) {
      InsideIs(fields[1..], name, g);
    }
  }

  lemma {:induction false} InsideHas(fields: seq<Field>, f: Field, g: Field)
    requires f in fields && g in Inner(f)
    ensures g in Inside(fields, f.name)
  {
    if fields[0] != f {
      InsideHas(fields[1..], f, g);
    }
  }

  /** A walk that ends is a path inside one field, and folds to what was written part by part. */
  lemma {:induction false} WalkedLeads(parts: seq<Ident>, fields: seq<Field>)
    requires parts != [] && Walked(parts, fields).Some?
    ensures var names := Walked(parts, fields).value;
            && |names| == |parts|
            && (exists f <- fields :: Leads(f, names))
            && forall i :: 0 <= i < |parts| ==>
                             FoldsTo(parts[i], names[i]) && (parts[i].quoted ==> names[i] == parts[i].value)
    decreases |parts|
  {
    var name := Spelled(parts[0], fields).value;
    SpelledIs(parts[0], fields, name);
    var names := Walked(parts, fields).value;
    if |parts| == 1 {
      assert names == [name];
      var f :| f in fields && f.name == name;
      assert Leads(f, names);
    } else {
      WalkedLeads(parts[1..], Inside(fields, name));
      var rest := Walked(parts[1..], Inside(fields, name)).value;
      assert names == [name] + rest && names[1..] == rest;
      var g :| g in Inside(fields, name) && Leads(g, rest);
      InsideIs(fields, name, g);
      var f :| f in fields && f.name == name && g in Inner(f);
      assert Leads(f, names);
      forall i | 0 <= i < |parts|
        ensures FoldsTo(parts[i], names[i]) && (parts[i].quoted ==> names[i] == parts[i].value)
      {
        if i > 0 { assert parts[1..][i - 1] == parts[i] && rest[i - 1] == names[i]; }
      }
    }
  }

  /** A path written as the file spells it is walked, and stays as it is. */
  lemma {:induction false} ExactPathStays(parts: seq<Ident>, fields: seq<Field>, f: Field)
    requires parts != [] && f in fields && Leads(f, Values(parts))
    ensures Walked(parts, fields) == Some(Values(parts))
    decreases |parts|
  {
    assert f.name == parts[0].value && Has(fields, parts[0].value);
    assert Spelled(parts[0], fields) == Some(f.name);
    if |parts| > 1 {
      assert Values(parts)[1..] == Values(parts[1..]);
      assert [f.name] + Values(parts[1..]) == Values(parts);
      var g :| g in Inner(f) && Leads(g, Values(parts)[1..]);
      InsideHas(fields, f, g);
      ExactPathStays(parts[1..], Inside(fields, f.name), g);
    } else {
      assert parts[1..] == [] && [parts[0].value] + [] == Values(parts);
    }
  }

  function Values(parts: seq<Ident>): seq<string> {
    seq(|parts|, i requires 0 <= i < |parts| => parts[i].value)
  }

  /** The columns of a request are the fields of its tables, all of them and no others. */
  lemma {:induction false} ColumnsAre(schemas: seq<seq<Field>>, f: Field)
    ensures f in Columns(schemas) <==> exists schema <- schemas :: f in schema
  {
    if schemas != [] {
      ColumnsAre(schemas[1..], f);
      assert schemas == [schemas[0]] + schemas[1..];
    }
  }

  /** A name no walk can start in is left as it is written. */
  lemma {:induction false} UnknownIsUntouched(parts: seq<Ident>, schemas: seq<seq<Field>>)
    requires forall i :: 0 <= i < |parts| ==> Walked(parts[i..], Columns(schemas)).None?
    ensures Resolved(parts, schemas) == parts
  {
    StartIsLast(parts, Columns(schemas), |parts|);
    assert Start(parts, Columns(schemas), |parts|) == None;
  }

  /** The column is a part a walk starts from, and no later part is one. */
  ghost predicate IsColumn(parts: seq<Ident>, columns: seq<Field>, start: nat) {
    && start < |parts| && Walked(parts[start..], columns).Some?
    && forall i :: start < i < |parts| ==> Walked(parts[i..], columns).None?
  }

  lemma {:induction false} ResolvedAtColumn(parts: seq<Ident>, schemas: seq<seq<Field>>, start: nat)
    requires IsColumn(parts, Columns(schemas), start)
    ensures var names := Walked(parts[start..], Columns(schemas)).value;
            && start + |names| == |parts|
            && Resolved(parts, schemas) == Rewritten(parts, start, names)
  {
    StartIsLast(parts, Columns(schemas), |parts|);
    WalkedLength(parts[start..], Columns(schemas));
  }

  lemma {:induction false} RewrittenPath(parts: seq<Ident>, start: nat, names: seq<string>)
    requires start + |names| == |parts|
    ensures Values(Rewritten(parts, start, names)[start..]) == names
  {
  }

  /** From the column on, a resolved name is a path that one table really has. */
  lemma {:induction false} ResolvedPathExists(parts: seq<Ident>, schemas: seq<seq<Field>>, start: nat)
    requires IsColumn(parts, Columns(schemas), start)
    ensures exists schema <- schemas :: exists f <- schema :: Leads(f, Values(Resolved(parts, schemas)[start..]))
  {
    var names := Walked(parts[start..], Columns(schemas)).value;
    ResolvedAtColumn(parts, schemas, start);
    RewrittenPath(parts, start, names);
    WalkedLeads(parts[start..], Columns(schemas));
    var f :| f in Columns(schemas) && Leads(f, names);
    ColumnsAre(schemas, f);
  }

  /** One part is another but for the case of its letters; if it is not the same, it is quoted and the other was not. */
  predicate Refolded(resolved: Ident, part: Ident) {
    && SameButCase(resolved.value, part.value)
    && (resolved != part ==> resolved.quoted && !part.quoted && resolved.value != part.value)
  }

  /** What resolving changes: nothing before the column and nothing quoted, and else only the case of letters. */
  lemma {:induction false} ResolvedFolds(parts: seq<Ident>, schemas: seq<seq<Field>>, start: nat, i: nat)
    requires IsColumn(parts, Columns(schemas), start) && i < |parts|
    ensures Refolded(Resolved(parts, schemas)[i], parts[i])
    ensures i < start ==> Resolved(parts, schemas)[i] == parts[i]
  {
    ResolvedAtColumn(parts, schemas, start);
    if i >= start {
      WalkedFolds(parts[start..], Columns(schemas), i - start);
    }
    RewrittenFolds(parts, start, Walked(parts[start..], Columns(schemas)).value, i);
  }

  lemma {:induction false} RewrittenFolds(parts: seq<Ident>, start: nat, names: seq<string>, i: nat)
    requires start + |names| == |parts| && i < |parts|
    requires i >= start ==>
               SameButCase(names[i - start], parts[i].value) && (parts[i].quoted ==> names[i - start] == parts[i].value)
    ensures Refolded(Rewritten(parts, start, names)[i], parts[i])
    ensures i < start ==> Rewritten(parts, start, names)[i] == parts[i]
  {
  }

  lemma {:induction false} WalkedFolds(parts: seq<Ident>, fields: seq<Field>, i: nat)
    requires Walked(parts, fields).Some? && i < |parts|
    ensures var names := Walked(parts, fields).value;
            && |names| == |parts|
            && SameButCase(names[i], parts[i].value) && (parts[i].quoted ==> names[i] == parts[i].value)
  {
    WalkedLeads(parts, fields);
  }

  /** Read exactly, as it is from then on, a resolved path is the one that was found. */
  lemma {:induction false} ResolvedReadsExactly(parts: seq<Ident>, schemas: seq<seq<Field>>, start: nat)
    requires IsColumn(parts, Columns(schemas), start)
    ensures var path := Resolved(parts, schemas)[start..];
            Walked(path, Columns(schemas)) == Some(Values(path))
  {
    var names := Walked(parts[start..], Columns(schemas)).value;
    ResolvedAtColumn(parts, schemas, start);
    RewrittenPath(parts, start, names);
    WalkedLeads(parts[start..], Columns(schemas));
    var f :| f in Columns(schemas) && Leads(f, names);
    ExactPathStays(Resolved(parts, schemas)[start..], Columns(schemas), f);
  }

  // ---- The request's tables ----

  /** The request's table for a name the statement used: the first so named, or the only one so folded. */
  function Declared(spelling: string, tables: seq<string>): Option<nat> {
    match FirstNamed(spelling, tables, 0)
    case Some(i) => Some(i)
    case None =>
      match FirstFolded(spelling, tables, 0)
      case None => None
      case Some(i) => if FirstFolded(spelling, tables, i + 1).Some? then None else Some(i)
  }

  function FirstNamed(spelling: string, tables: seq<string>, from: nat): (r: Option<nat>)
    ensures r.Some? ==> from <= r.value < |tables|
    decreases |tables| - from
  {
    if from >= |tables| then None
    else if tables[from] == spelling then Some(from)
    else FirstNamed(spelling, tables, from + 1)
  }

  function FirstFolded(spelling: string, tables: seq<string>, from: nat): (r: Option<nat>)
    ensures r.Some? ==> from <= r.value < |tables|
    decreases |tables| - from
  {
    if from >= |tables| then None
    else if SameFold(tables[from], spelling) then Some(from)
    else FirstFolded(spelling, tables, from + 1)
  }

  lemma {:induction false} FirstNamedIs(spelling: string, tables: seq<string>, from: nat)
    ensures match FirstNamed(spelling, tables, from)
            case None => forall i :: from <= i < |tables| ==> tables[i] != spelling
            case Some(i) => tables[i] == spelling
    decreases |tables| - from
  {
    if from < |tables| && tables[from] != spelling {
      FirstNamedIs(spelling, tables, from + 1);
    }
  }

  lemma {:induction false} FirstFoldedIs(spelling: string, tables: seq<string>, from: nat)
    ensures match FirstFolded(spelling, tables, from)
            case None => forall i :: from <= i < |tables| ==> !SameButCase(tables[i], spelling)
            case Some(i) =>
              SameButCase(tables[i], spelling) && forall j :: from <= j < i ==> !SameButCase(tables[j], spelling)
    decreases |tables| - from
  {
    if from < |tables| {
      SameFoldIs(tables[from], spelling);
    }
    if from < |tables| && !SameFold(tables[from], spelling) {
      FirstFoldedIs(spelling, tables, from + 1);
    }
  }

  predicate DeclaredAs(spelling: string, tables: seq<string>, name: string) {
    var i := Declared(spelling, tables);
    i.Some? && tables[i.value] == name
  }

  predicate LoneFolding(spelling: string, tables: seq<string>, i: int) {
    && 0 <= i < |tables| && SameButCase(tables[i], spelling)
    && forall j :: 0 <= j < |tables| && j != i ==> !SameButCase(tables[j], spelling)
  }

  /** Whatever the order of the declarations, a name reads the same table: itself, or its only folding. */
  lemma {:induction false} DeclaredIs(spelling: string, tables: seq<string>, name: string)
    ensures DeclaredAs(spelling, tables, name) <==>
              || (name == spelling && name in tables)
              || (spelling !in tables && exists i :: LoneFolding(spelling, tables, i) && tables[i] == name)
  {
    FirstNamedIs(spelling, tables, 0);
    FirstFoldedIs(spelling, tables, 0);
    match FirstFolded(spelling, tables, 0) {
      case None =>
      case Some(i) => FirstFoldedIs(spelling, tables, i + 1);
    }
  }
}
