/**
 A column's name written the way a query has to write it, and the language's own rule for reading
 it: ADQL 2.1, section 2.1.3, where a regular identifier is a letter and then letters, digits and
 underscores, and a delimited one stands between double quotes, each quote inside it doubled.
 */
module Names {
  import opened Wrappers
  import opened Ascii
  import opened Splitting
  import opened Syntax
  import opened Arrow
  import opened Rewrite
  import Resolve

  predicate Continues(c: char) {
    IsLetter(c) || '0' <= c <= '9' || c == '_'
  }

  // ---- Writing ----

  /** Whether a name can be written without quotes. */
  predicate IsPlain(name: string) {
    name != [] && IsLetter(name[0]) && forall c <- name[1..] :: Continues(c)
  }

  function Doubled(text: string): (doubled: string)
    ensures |doubled| >= |text|
  {
    if text == [] then []
    else (if text[0] == '"' then "\"\"" else [text[0]]) + Doubled(text[1..])
  }

  function WrittenPart(part: string): string {
    if IsPlain(part) then part else "\"" + Doubled(part) + "\""
  }

  function WrittenParts(parts: seq<string>): (written: seq<string>)
    ensures |written| == |parts|
  {
    if parts == [] then [] else [WrittenPart(parts[0])] + WrittenParts(parts[1..])
  }

  /** The name as it is published: bare where the language admits it, delimited otherwise, part by part. */
  function AsWritten(name: string): string {
    Join(WrittenParts(Split(name, '.')), '.')
  }

  // ---- Reading ----

  /** What follows an opening quote, up to the quote that closes it, and what is left. */
  function ReadBody(text: string): (r: Option<(string, string)>)
    ensures r.Some? ==> |r.value.1| < |text|
    decreases |text|
  {
    if text == [] then None
    else if text[0] != '"' then
      match ReadBody(text[1..])
      case None => None
      case Some((body, rest)) => Some(([text[0]] + body, rest))
    else if |text| > 1 && text[1] == '"' then
      match ReadBody(text[2..])
      case None => None
      case Some((body, rest)) => Some((['"'] + body, rest))
    else Some(([], text[1..]))
  }

  function RegularLength(text: string): (n: nat)
    ensures n <= |text|
  {
    if text == [] || !Continues(text[0]) then 0 else 1 + RegularLength(text[1..])
  }

  function ReadIdent(text: string): (r: Option<(Ident, string)>)
    ensures r.Some? ==> |r.value.1| < |text|
  {
    if text == [] then None
    else if text[0] == '"' then
      match ReadBody(text[1..])
      case None => None
      case Some((body, rest)) => Some((Ident(body, true), rest))
    else if IsLetter(text[0]) then
      var n := RegularLength(text);
      Some((Ident(text[..n], false), text[n..]))
    else None
  }

  /** Identifiers with dots between them, to the end of the text. */
  function ReadPath(text: string): Option<seq<Ident>>
    decreases |text|
  {
    match ReadIdent(text)
    case None => None
    case Some((ident, rest)) =>
      if rest == [] then Some([ident])
      else if rest[0] != '.' then None
      else
        match ReadPath(rest[1..])
        case None => None
        case Some(idents) => Some([ident] + idents)
  }

  // ---- What is written reads back ----

  function IdentsOf(parts: seq<string>): (idents: seq<Ident>)
    ensures |idents| == |parts|
  {
    seq(|parts|, i requires 0 <= i < |parts| => Ident(parts[i], !IsPlain(parts[i])))
  }

  lemma {:induction false} BodyReadsBack(text: string, rest: string)
    requires rest == [] || rest[0] == '.'
    ensures ReadBody(Doubled(text) + "\"" + rest) == Some((text, rest))
  {
    var written := Doubled(text) + "\"" + rest;
    if text == [] {
      assert written == "\"" + rest && written[1..] == rest;
    } else {
      BodyReadsBack(text[1..], rest);
      var after := Doubled(text[1..]) + "\"" + rest;
      if text[0] == '"' {
        assert written == "\"\"" + after && written[2..] == after;
      } else {
        assert written == [text[0]] + after && written[1..] == after;
      }
      assert text == [text[0]] + text[1..];
    }
  }

  lemma {:induction false} RegularReadsBack(text: string, rest: string)
    requires (forall c <- text :: Continues(c)) && (rest == [] || rest[0] == '.')
    ensures RegularLength(text + rest) == |text|
  {
    if text == [] {
      assert text + rest == rest;
    } else {
      RegularReadsBack(text[1..], rest);
      assert (text + rest)[1..] == text[1..] + rest;
    }
  }

  lemma {:induction false} PlainReadsBack(part: string, rest: string)
    requires IsPlain(part) && (rest == [] || rest[0] == '.')
    ensures ReadIdent(part + rest) == Some((Ident(part, false), rest))
  {
    assert part == [part[0]] + part[1..];
    RegularReadsBack(part, rest);
    assert (part + rest)[..|part|] == part && (part + rest)[|part|..] == rest;
  }

  lemma {:induction false} DelimitedReadsBack(part: string, rest: string)
    requires rest == [] || rest[0] == '.'
    ensures ReadIdent("\"" + Doubled(part) + "\"" + rest) == Some((Ident(part, true), rest))
  {
    BodyReadsBack(part, rest);
    assert ("\"" + Doubled(part) + "\"" + rest)[1..] == Doubled(part) + "\"" + rest;
  }

  lemma {:induction false} PartReadsBack(part: string, rest: string)
    requires rest == [] || rest[0] == '.'
    ensures ReadIdent(WrittenPart(part) + rest) == Some((Ident(part, !IsPlain(part)), rest))
  {
    if IsPlain(part) {
      PlainReadsBack(part, rest);
    } else {
      DelimitedReadsBack(part, rest);
    }
  }

  lemma {:induction false} PartsReadBack(parts: seq<string>)
    requires parts != []
    ensures ReadPath(Join(WrittenParts(parts), '.')) == Some(IdentsOf(parts))
  {
    var written := Join(WrittenParts(parts), '.');
    if |parts| == 1 {
      PartReadsBack(parts[0], []);
      assert written == WrittenPart(parts[0]) + [];
      assert [IdentsOf(parts)[0]] == IdentsOf(parts);
    } else {
      var after := Join(WrittenParts(parts[1..]), '.');
      PartsReadBack(parts[1..]);
      PartReadsBack(parts[0], ['.'] + after);
      assert WrittenParts(parts)[1..] == WrittenParts(parts[1..]);
      assert written == WrittenPart(parts[0]) + (['.'] + after);
      assert [Ident(parts[0], !IsPlain(parts[0]))] + IdentsOf(parts[1..]) == IdentsOf(parts);
    }
  }

  /** A part is published bare exactly when the language reads it so: quotes are never put where none are needed. */
  lemma {:induction false} PlainExactlyWhenRead(part: string)
    ensures WrittenPart(part) == part <==> ReadIdent(part) == Some((Ident(part, false), []))
  {
    if IsPlain(part) {
      PlainReadsBack(part, []);
      assert part + [] == part;
    } else {
      assert |WrittenPart(part)| > |part|;
      if part != [] && IsLetter(part[0]) {
        RegularIsPlain(part);
        assert part == [part[0]] + part[1..];
        assert |part[..RegularLength(part)]| == RegularLength(part);
      }
    }
  }

  lemma {:induction false} RegularIsPlain(text: string)
    ensures RegularLength(text) == |text| <==> forall c <- text :: Continues(c)
  {
    if text != [] {
      RegularIsPlain(text[1..]);
      assert text == [text[0]] + text[1..];
    }
  }

  /** Whatever a name holds, what is published reads back as its dotted parts, quoted only where they must be. */
  lemma {:induction false} WrittenReadsBack(name: string)
    ensures ReadPath(AsWritten(name)) == Some(IdentsOf(Split(name, '.')))
  {
    PartsReadBack(Split(name, '.'));
  }

  /** No two names are published alike. */
  lemma {:induction false} WrittenIsInjective(one: string, other: string)
    requires AsWritten(one) == AsWritten(other)
    ensures one == other
  {
    WrittenReadsBack(one);
    WrittenReadsBack(other);
    var a, b := Split(one, '.'), Split(other, '.');
    assert IdentsOf(a) == IdentsOf(b);
    forall i | 0 <= i < |a|
      ensures a[i] == b[i]
    {
      assert IdentsOf(a)[i].value == a[i] && IdentsOf(b)[i].value == b[i];
    }
    assert a == b;
    JoinOfSplit(one, '.');
    JoinOfSplit(other, '.');
  }

  /**
   A published name reaches the field it was published for: read back and resolved against the
   files that hold the field, it names that path, unless a later part of it names a column itself.
   */
  lemma {:induction false} PublishedNameReaches(name: string, schemas: seq<seq<Field>>, f: Field)
    requires f in Resolve.Columns(schemas) && Resolve.Leads(f, Split(name, '.'))
    requires var idents := IdentsOf(Split(name, '.'));
             forall i :: 0 < i < |idents| ==> Resolve.Walked(idents[i..], Resolve.Columns(schemas)).None?
    ensures var read := ReadPath(AsWritten(name));
            read.Some? && Resolve.Values(Resolve.Resolved(read.value, schemas)) == Split(name, '.')
  {
    WrittenReadsBack(name);
    var parts := Split(name, '.');
    var idents := IdentsOf(parts);
    var columns := Resolve.Columns(schemas);
    assert Resolve.Values(idents) == parts;
    Resolve.ExactPathStays(idents, columns, f);
    assert idents[0..] == idents;
    Resolve.ResolvedAtColumn(idents, schemas, 0);
    assert Resolve.Rewritten(idents, 0, parts) == idents;
  }

  // ---- A table's name, cut again for the planner ----

  /** What the planner is told a table is called: a schema and a table, cut at the first dot. */
  function Reference(spelling: string): seq<string> {
    var n := Before(spelling, '.');
    if n == |spelling| then [spelling] else [spelling[..n], spelling[n + 1..]]
  }

  /** The planner is told the parts the statement wrote exactly when the first of them holds no dot. */
  lemma {:induction false} ReferenceIsWritten(name: ObjectName)
    requires WrittenName(name).Some?
    ensures Reference(WrittenName(name).value) == PartsOf(name) <==> '.' !in name[0].ident.value
  {
    var spelling, first := WrittenName(name).value, name[0].ident.value;
    if '.' !in first {
      var rest := if |name| == 1 then [] else "." + name[1].ident.value;
      BeforeIs(first, '.', rest);
      assert spelling == first + rest;
    } else {
      var n := Before(spelling, '.');
      var i :| 0 <= i < |first| && first[i] == '.';
      assert spelling[i] == '.';
      assert |Reference(spelling)[0]| == n;
    }
  }

  function PartsOf(name: ObjectName): seq<string>
    requires forall part <- name :: part.Word?
  {
    seq(|name|, i requires 0 <= i < |name| => name[i].ident.value)
  }
}
