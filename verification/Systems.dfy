/**
 Which statements the pass over coordinate systems takes: those that name no system but the
 service's own, at any depth. A position in another is refused, never read as if it were not.
 */
module Systems {
  import opened Wrappers
  import opened Ascii
  import opened Functions
  import opened Syntax
  import opened Rewrite
  import opened Visit
  import opened Shapes

  /** The words for a geometry that may begin with its coordinate system. */
  const GEOMETRIES: set<string> := {"POINT", "CIRCLE", "BOX", "POLYGON"}

  predicate NamesGeometry(name: ObjectName) {
    && |name| == 1 && name[0].Word? && !name[0].ident.quoted
    && Upper(name[0].ident.value) in GEOMETRIES
  }

  /** A system the service works in: none said, ICRS or unknown, in any case, between any white space. */
  predicate IsOurs(system: string) {
    var word := Trim(system);
    word == "" || SameButCase(word, "ICRS") || SameButCase(word, "UNKNOWN")
  }

  /** A geometry written in another system. */
  predicate IsForeign(e: Expr) {
    && e.Call? && NamesGeometry(e.name) && e.form.Listed? && e.items != []
    && Unnest(e.items[0]).Quoted? && !IsOurs(Unnest(e.items[0]).text)
  }

  lemma {:induction false} OursAreKnown(system: string)
    ensures KnownSystem(system) <==> IsOurs(system)
  {
    var word := Trim(system);
    SameFoldIs("", word);
    SameFoldIs("ICRS", word);
    SameFoldIs("UNKNOWN", word);
    assert "" in SYSTEMS && "ICRS" in SYSTEMS && "UNKNOWN" in SYSTEMS;
  }

  lemma {:induction false} ForeignIs(e: Expr)
    ensures IsForeign(e) <==> NamesSystem(e) && !KnownSystem(Unnest(e.items[0]).text)
  {
    if e.Call? {
      if e.items != [] && Unnest(e.items[0]).Quoted? {
        OursAreKnown(Unnest(e.items[0]).text);
      }
    }
  }

  /** A call is taken exactly when what is in it is, and the system it names is the service's own. */
  lemma {:induction false} TakesCall(call: Expr)
    requires call.Call?
    ensures Walk(CoordinateSystems, call).Ok? <==>
              WalkAll(CoordinateSystems, call.items).Ok? && !IsForeign(call)
  {
    ForeignIs(call);
    if WalkAll(CoordinateSystems, call.items).Ok? {
      var items := WalkAll(CoordinateSystems, call.items).value;
      assert Rebuild(call, items) == call.(items := items);
      if items != [] {
        WalkAllAt(CoordinateSystems, call.items, 0);
        TextKept(CoordinateSystems, call.items[0]);
      }
    }
  }
}
