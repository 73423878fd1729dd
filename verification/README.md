# Verified model of a catalog query service

A Dafny 4.11 model of the parts of the service that decide what an answer is, and proofs of what
those parts are for. `dafny verify dfyconfig.toml` checks all of it.

## What is modelled

**The ADQL translator** (`src/adql/translate.rs`). One syntax tree serves both languages (`Syntax`).
`Rewrite` is what happens at one node, `Visit` the walk of both passes, `Translate.Rewriter` the
visitor with its two growing sets of names. `Meaning` gives a tree four readings with SQL's three
truth values: ADQL's own (`Adql`); the same without coordinate systems (`Bare`); the same with a
circle's edge inside it (`Closed`); and the target's (`Target`). They evaluate whole queries:
`WITH`, joins, `ORDER BY`, `OFFSET`, `TOP`, subqueries. `Preservation` takes a statement from one
reading to the next, `Edge` from the closed reading back to the bare one where no row is on a
circle's edge. `Grammar` says which statements each pass takes, in terms of what is written alone:
`Systems` has the first pass's condition on a node, and `Acceptance` the second's and what each
spelling becomes. `Facts`, `Shapes`, `NormalForm`, `Idempotence` and `Literals` say what is left in
the tree afterwards; `Scoping` and `FreeTables` compare the tables reported with the
free names under nested `WITH`.

**Serving the file itself** (`src/engine/whole.rs`). `Arrow` and `Projection` decide whether a
projection is the file's own columns; `Footer` whether the footer proves that a filter keeps every
row. Values are kept leaf by leaf, so the index of a field in the schema and the index of its first
leaf are two numbers. The null check uses the first where the second is meant, and
`Footer.RightExactlyWhenAligned` says exactly for which schemas that is right.

**The answer cache** (`src/app/cache.rs`). `Cache.Answers` keeps the map, the order and the byte
count in place; `TimedMap` is what it does as a value, and carries the theorems about whole runs.

**Reading and naming** (`src/adql/query.rs`, `src/adql/names.rs`). `Execution.Reading` is the
row-bounded reader over any source; `Resolve` the case-folding of names against the files' schemas;
`Names` the published spelling of a name and ADQL's rule for reading it back.

**The url space** (`src/access/mount.rs`, `src/app/listing.rs`). Paths are bytes (`Urls`). `Mounts`
normalizes prefixes, checks them against each other, routes a path to its mount and cuts it into
names; `Listing` prints urls, climbs out of a directory and lays out the breadcrumb.

**The cache warmer** (`src/app/warm.rs`). `KeepWarm` has the shared footprint as a class and the tasks
as a state machine, a run being any interleaving of single steps.

## Findings

- A strict bound `DISTANCE(p, c) < r` becomes a circle that holds its edge. The two agree on a row if
  and only if the distance is not the radius itself (`Preservation.StrictEdge`), and a whole statement
  answers alike where no row it evaluates is on an edge (`Translate.TranslationPreservesMeaning`).
- Of the comparisons of a test that tell its two values apart, `= 1`, `> 0`, `= 0`, `<> 1` and their
  mirrors are translated and `<> 0`, `>= 1`, `< 1`, `<= 0` are refused
  (`Acceptance.ComparisonsTranslated`).
- Translating a translation again changes nothing if and only if no geometry in it begins with a
  string: one pass takes off one coordinate system, so `POINT('', '', 1, 2)` is met a second time
  (`Translate.TranslatingAgain`, `Translate.SecondSystemIsMetAgain`).
- The comment at `src/adql/translate.rs:282-285` says that `TOP 10 … OFFSET 20` is the eleventh to the
  twentieth rows. The code leaves the offset and the limit in one clause, which is the twenty-first
  to the thirtieth (`Preservation.TopPastOffset`); the model follows the code.
- The null check reads the wrong leaf behind a field of several leaves, and for every comparison
  there is then a file that keeps fewer rows than it has (`Footer.RightExactlyWhenAligned`).
- A truncated request for no rows says it overflowed over an empty table too (`Execution.Run`).
- A quoted table name with a dot in its first part is registered as other parts than were written
  (`Names.ReferenceIsWritten`).
- The capped sum of the warmed tables decides as the exact sum would, except where the budget is the
  largest count there is (`KeepWarm.CappedDecides`).

## Assumptions

- The parser's expression visitor is post-order and its derived visitors go through a node's fields
  in the order they are declared; the target lowers an unquoted function name and resolves a quoted
  one exactly.
- The geometry's separation is symmetric. What else it is, what converting a position from another
  coordinate system makes of it, and what a region written as anything but a circle holds, is any
  function.
- A footer's statistics are true: bounds bound every value, null counts count the nulls.
- Clocks do not go back, locks are not poisoned, and the warmer's flag is one atomic cell.
- Whether bytes are valid UTF-8 is any predicate, given as a parameter.

## Model

| member | source | states |
|---|---|---|
| Translate.Translate | src/adql/translate.rs:76-96 | a statement is refused for the first thing either pass refuses, or is what the two passes make of it, and the tables reported are exactly the names some `FROM` or `JOIN` writes and no `WITH` anywhere defines |
| Translate.Rewriter.VisitExpr | src/adql/translate.rs:212-250 | the visitor's result at an expression is the walk's, and its two sets grow by exactly the names read and defined under it |
| Translate.Rewriter.VisitQuery | src/adql/translate.rs:176-185 | the same of a query, its `WITH` names joining the statement's one flat set wherever the query stands |
| Translate.Rewriter.PreVisitTable | src/adql/translate.rs:187-210 | a table is read under its written name, or the statement refused for a call or for a name of three parts |
| Translate.TranslationPreservesMeaning | src/adql/translate.rs:76-96 | on every database the translated statement answers the ADQL one's rows with a circle's edge inside it, and exactly its rows wherever no strict bound evaluated, at any depth of the statement, is met on the edge itself |
| Edge.SameQuery | src/adql/translate.rs:364-381 | a query none of whose strict bounds, under whatever connectives and in whatever join or subquery, is met on its edge answers the same rows with the edge inside or outside |
| Edge.StrictOffEdge | src/adql/translate.rs:364-381 | one strict bound over sides that mean the same does, off its edge |
| Translate.ExactlyTheseTranslate | src/adql/translate.rs:76-96 | a statement is translated if and only if it is a query, no geometry in it at any depth names a foreign system, and the query without its systems meets, at every depth, the second pass's conditions on comparisons, calls, tables and `TOP` |
| Translate.UnknownSystemIsRefused | src/adql/translate.rs:107-121 | a statement with a position in a system the service does not work in, anywhere in it, is refused, and the first pass refuses nothing else |
| Grammar.TakesQuery | src/adql/translate.rs:122-308 | each pass ends on a query exactly when every node of it, at every depth, meets the pass's condition, stated without the pass's own functions |
| Grammar.NodeIs | src/adql/translate.rs:215-248 | away from region tests, a node is taken exactly when what is under it is and it is no foreign geometry, or no unanswered call, lone test, ill-formed `MOD` or ill-formed bounded `DISTANCE` |
| Grammar.ComparesTestIs | src/adql/translate.rs:331-417 | a comparison of one region function is taken exactly when its other side is a number that asks for the test or against it, from either side, and the call has a `POINT` where one belongs and arguments that are taken |
| Grammar.QueryIs | src/adql/translate.rs:252-308 | a query is taken exactly when its clauses are and its `TOP`, if any, is a plain number of rows beside no other limit: a `TOP` with or without an offset is refused for nothing else |
| Systems.TakesCall | src/adql/translate.rs:124-159 | the first pass ends on a call exactly when it does on what is in it, and it is no geometry that begins with the name of a system other than none, `ICRS` or `UNKNOWN` |
| Systems.OursAreKnown | src/adql/translate.rs:105-148 | a system is known exactly when, without the white space around it, it is nothing, `ICRS` or `UNKNOWN` in any case |
| Ascii.SameFoldIs | src/adql/query.rs:570-580 | two words fold to one exactly when they have one length and each two characters are equal or one ASCII letter in its two cases |
| Ascii.TrimIs | src/adql/translate.rs:148-148 | trimming takes ASCII white space off both ends, all of it and nothing else |
| Translate.TranslationIsNormal | src/adql/translate.rs:223-250 | at every depth nothing is left to rewrite or refuse: no `CONTAINS`, `INTERSECTS`, `MOD`, renamed or unimplemented function, no region test, and no `TOP` on a query's own select |
| Translate.TopBesideLimitIsRefused | src/adql/translate.rs:252-308 | a query anywhere in a statement that says both `TOP` and a limit, or a `TOP` that is no plain number, refuses the statement |
| Translate.TranslatingAgain | src/adql/translate.rs:122-162 | a translation is translated into itself if and only if no geometry in it begins with a string, which holds whenever no coordinate was a string to begin with |
| Translate.LostForGood | src/adql/translate.rs:76-96 | a query with a geometry that begins with a string is never translated into itself |
| Literals.HoldsQuery | src/adql/translate.rs:122-250 | neither pass adds a string literal to a query, and the first leaves as many as there were only where no geometry begins with one |
| Translate.SecondSystemIsMetAgain | src/adql/translate.rs:122-162 | a point under two systems loses one a translation, so the condition above is needed |
| Translate.ReportedTables | src/adql/translate.rs:89-95 | a name is reported exactly when it is free under nested `WITH` scoping and no `WITH` of the statement defines it |
| Translate.AnswerRestsOnTables | src/adql/translate.rs:71-74 | where no name the statement reads free is also defined somewhere in it, two databases that agree on the reported tables answer the translated statement alike |
| Translate.FreeTablesStay | src/adql/translate.rs:76-96 | the translated statement reads free exactly the names the statement as written does |
| FreeTables.ReadsQuery | src/adql/translate.rs:122-250 | each pass keeps a query's free names, under any enclosing definition |
| Scoping.ScopedQuery | src/adql/translate.rs:176-183 | how the one flat set of defined names approximates scoping, query by query |
| Scoping.RestsQuery | src/adql/translate.rs:71-74 | a query's rows depend on the free table names of it alone, whatever reading |
| Preservation.StrictEdge | src/adql/translate.rs:364-381 | for one comparison: a strictly bounded `DISTANCE` and the circle it becomes agree on a row if and only if the distance is not the radius |
| Preservation.ContainsMeaning | src/adql/translate.rs:383-417 | ADQL's 0-or-1 `CONTAINS` or `INTERSECTS` is the indicator of the boolean test written for it, `INTERSECTS` in either order |
| Preservation.ComparedMeaning | src/adql/translate.rs:331-362 | the boolean test, or its negation, has the value of the comparison it replaces, whichever side the test stood on and whether true, false or unknown |
| Preservation.SeparationMeaning | src/adql/translate.rs:428-458 | both spellings of a `DISTANCE` around a constant centre are the separation of the row's point from that centre, whichever came first |
| Preservation.WithinMeaning | src/adql/translate.rs:419-462 | the circle written for a bounded `DISTANCE` is the inclusive bound, from either side of the comparison |
| Preservation.EvalNumber | src/adql/translate.rs:494-522 | a number written out, signed or in parentheses, is that number in every reading on every row |
| Preservation.RemainderMeaning | src/adql/translate.rs:464-477 | `MOD` written as `%` in parentheses is the remainder of its two arguments |
| Preservation.RenamedMeaning | src/adql/translate.rs:57-63 | a call under the target's name for it has the value of the ADQL function, and a call not renamed keeps its own |
| Preservation.TopMeaning | src/adql/translate.rs:252-308 | a `TOP` is moved exactly where it is a number of rows beside no other limit, and moving it leaves every query's rows as they were, in order: past the offset and then so many |
| Preservation.TopPastOffset | src/adql/translate.rs:252-308 | `TOP n` beside `OFFSET m` is the `n` rows past the first `m`, before it is moved and after |
| Preservation.Preserved | src/adql/translate.rs:212-250 | each pass takes an expression from one reading to the next without changing its value on any row of any database; a position in another system has a value of its own, so the first pass does only because it refuses it |
| Preservation.PreservedQuery | src/adql/translate.rs:164-250 | and a query, with its `WITH`, joins, filters, order, limit and subqueries, without changing its rows |
| Acceptance.ComparisonsTranslated | src/adql/translate.rs:331-362 | a comparison of a region test is translated if and only if its other side is a number that asks for the test or against it in one of the four ways listed, and it has a `POINT` where one belongs and sides that translate |
| Acceptance.ComparedTestTranslated | src/adql/translate.rs:383-417 | it then becomes exactly the boolean test with the point first, negated where it was asked not to hold |
| Acceptance.LoneTestIsRefused | src/adql/translate.rs:233-237 | a region function on its own, in any parentheses, is refused |
| Acceptance.ConeTranslated | src/adql/translate.rs:419-462 | a bounded `DISTANCE` of one constant centre that is accepted becomes the circle: the row's point first and the centre's two numbers in their order, whichever spelling and side it had |
| Acceptance.BoundedDistancesTranslated | src/adql/translate.rs:419-462 | a bounded `DISTANCE` is translated exactly when it has two or four plain arguments, its sides translate, and one constant centre faces a `POINT`; without one constant centre it stays the comparison it is |
| Acceptance.CentredIs | src/adql/translate.rs:428-458 | a row and a centre are found exactly where one position is a constant centre and the other is not, in either order and either spelling |
| Acceptance.ComparisonStays | src/adql/translate.rs:423-427 | any other comparison, a separation between two rows among them, stays itself over what its sides become |
| Acceptance.RemainderTranslated | src/adql/translate.rs:464-477 | `MOD` is accepted exactly for two plain arguments that translate, and becomes their remainder in order |
| Acceptance.CallTaken | src/adql/translate.rs:223-250 | a call is translated exactly when its arguments are and its name, if one unquoted word, is none of those not answered, no region function, and `MOD` only over two plain arguments |
| Functions.RecognisedIs | src/adql/translate.rs:531-540 | an unquoted word is read as the function whose word it is in capitals, and as no other |
| NormalForm.Keeps | src/adql/translate.rs:215-248 | what each pass carries through every rewriting: the normal form, numeric coordinates, names read and defined |
| NormalForm.RenamedIsShared | src/adql/translate.rs:233-247 | a call that is not refused and not a remainder keeps its arguments and ends under a name both languages share |
| NormalForm.TestKeeps | src/adql/translate.rs:310-331 | a region test rewritten holds the same operands: no table name appears or is lost, no coordinate turns into a string |
| Idempotence.StaysQuery | src/adql/translate.rs:164-250 | a pass leaves alone every query that is already as the pass would have it |
| Functions.GeometryResolves | src/adql/translate.rs:527-539 | a geometry's name in any capitalisation is the same function once the target lowers it |
| Rewrite.BeforeExprShrinks | src/adql/translate.rs:212-221 | what is put in a node's place is no larger than it, so descending into it ends |
| Arrow.ShapeIdempotent | src/engine/whole.rs:187-207 | dropping nullability twice is dropping it once, at any depth |
| Arrow.ShapeDecides | src/engine/whole.rs:187-207 | two types have one shape exactly when they differ in nothing but nullability and metadata in structs, lists and maps |
| Projection.EveryColumn | src/engine/whole.rs:134-185 | a projection passes exactly when it is everything, or plans to fields that are the file's in order of name |
| Projection.AcceptedIsRearranged | src/engine/whole.rs:120-185 | for distinct column names, those are exactly the rearrangements of the file's columns up to shape |
| Footer.AnswersWithTheFile | src/engine/whole.rs:56-109 | yes exactly for no limit, region or index, every column named and a filter the footer decides; and then, for a sound footer with aligned columns, the rows the query answers (those its filter, any region and any index keep, and of them as many as any limit allows) are all the file's in order, with its columns rearranged |
| Footer.SimplifiedMeans | src/engine/whole.rs:231-240 | pushing the negation down to the comparisons keeps its three-valued meaning and its columns |
| Footer.RefusedIsFalse | src/engine/whole.rs:249-269 | a row group refused on true statistics with no nulls holds only rows the filter is false of, never unknown |
| Footer.CellIsKnown | src/engine/whole.rs:217-229 | a column the null check passed has, where aligned, a value in every row within its chunk's bounds |
| Footer.KeptRowsAreTrue | src/engine/whole.rs:210-269 | where every field before a named column is one leaf, a filter said to keep every row is true of every row of every group |
| Footer.AnswerIsTheFile | src/engine/whole.rs:56-60 | the query would then have returned the file's rows, all of them in order |
| Footer.RangeIsDecided | src/engine/whole.rs:210-269 | from a full footer whose bounds are values of the rows, a range or an equality on an aligned column is decided exactly: said to keep every row if and only if it does |
| Footer.RangesAreDecided | src/engine/whole.rs:210-269 | and so is any number of such bounds joined by `AND`: said to keep every row if and only if they do |
| Footer.AlignedMeansSingleLeaves | src/engine/whole.rs:220-228 | a field's index is its leaf's exactly when every field before it is one leaf |
| Footer.MisalignedIsWrong | src/engine/whole.rs:220-228 | behind a field of several leaves, for every operator and bound, there is a true file with a null in the column that is said to keep every row of it |
| Footer.RightExactlyWhenAligned | src/engine/whole.rs:220-228 | a comparison with a column, of whatever operator and bound, is decided rightly for every file of a schema if and only if every field before that column is one leaf |
| Cache.Answers.constructor | src/app/cache.rs:85-91 | a new cache holds nothing |
| Cache.Answers.Get | src/app/cache.rs:99-115 | the answer is the timed map's, the answers then held are its too, and the order of keys stays as it was |
| Cache.Answers.ForgetExpired | src/app/cache.rs:151-164 | what is left is exactly what has not expired, and every key in the order then has its answer |
| Cache.Answers.ForgetOldest | src/app/cache.rs:166-175 | the front key goes, with its answer where it has one, and says whether there was a key |
| Cache.Answers.MakeRoom | src/app/cache.rs:130-134 | the oldest go until the new body fits, the early exit is never taken and no subtraction saturates |
| Cache.Answers.Put | src/app/cache.rs:135-146 | the answer stands last, in place of its key's previous one, and the bytes are the sum again |
| Cache.Answers.Insert | src/app/cache.rs:117-147 | an insertion is the timed map's, for some reading of the clock within the call |
| Cache.ConsistentWithout | src/app/cache.rs:106-113 | taking an expired answer out and leaving its key keeps the invariant, and the byte count exact |
| Cache.ConsistentPut | src/app/cache.rs:135-146 | putting an answer in keeps one place a key, keys in order of time and no stale key that is not expired |
| Cache.ConsistentTail | src/app/cache.rs:166-175 | letting the front go keeps the invariant, with exactly its bytes off the count |
| Cache.NothingIsStale | src/app/cache.rs:151-164 | once the front answer is unexpired, no key in the order is without its answer |
| Cache.SumsFitExactlyBelowHalf | src/app/cache.rs:130-130 | the sum of held and new bytes never wraps exactly when the capacity is at most half of the counter |
| TimedMap.InsertionIsMinimal | src/app/cache.rs:117-147 | what survives an insertion is a suffix in order of age but for the replaced key, and each answer let go had expired or was, with all newer and the new body, too much |
| TimedMap.InsertionFits | src/app/cache.rs:20-24 | an insertion leaves one answer a key, oldest first, within the capacity, and nothing that was not there or put in |
| TimedMap.InsertedIsFound | src/app/cache.rs:93-124 | what is put in is found at once for any lifetime and capacity but zero and any body within the capacity, and otherwise nothing is changed |
| TimedMap.SameFreshSameAnswers | src/app/cache.rs:106-107 | two caches with the same unexpired answers give the same answers to every later run of calls |
| TimedMap.LookupIsUnseen | src/app/cache.rs:99-115 | a lookup changes no later lookup of any key, whatever comes between |
| TimedMap.HeldIsLast | src/app/cache.rs:117-147 | every answer held after a run is its key's last accepted insertion |
| TimedMap.FoundIsLast | src/app/cache.rs:99-115 | a lookup answers only with its key's last accepted insertion, made less than the lifetime ago |
| TimedMap.LastIsFound | src/app/cache.rs:20-24 | a key's last accepted insertion is found while it is younger than the lifetime, if its body and all those accepted after it fit the capacity together |
| TimedMap.RunIsSound | src/app/cache.rs:20-24 | over every run of calls what is held stays in order and within the capacity |
| Execution.Reading.constructor | src/adql/query.rs:338-373 | reading starts at the source's beginning, but for a truncated request for no rows, which is overflowed and holds no source |
| Execution.Reading.Next | src/adql/query.rs:169-199 | the next batch, the cut one, the refusal or the end, with every later call nothing and unpolled once the source is let go |
| Execution.Reading.Collect | src/adql/query.rs:216-230 | over any batch sizes: all rows, or exactly the first so many with the overflow set, or the refusal, or the read error if it comes before the bound |
| Execution.Run | src/adql/query.rs:233-249 | set going and read: cut, the first rows as many as the bound allows, with the overflow set exactly when there were more or none were asked for; refused, exactly when there are too many; a read error only where the bound is not reached first |
| Execution.BatchAt | src/adql/query.rs:194-198 | a batch that crosses the bound, cut, ends the rows exactly at the bound |
| Resolve.Walk | src/adql/query.rs:545-563 | the walk by loop is the walk by definition, part by part into the structs |
| Resolve.FindColumn | src/adql/query.rs:529-534 | the start found is the definition's, and nothing is found exactly when no part can start |
| Resolve.ResolvePath | src/adql/query.rs:524-543 | the parts rewritten in place are the resolved name |
| Resolve.Respell | src/adql/query.rs:535-542 | only parts from the start on are touched, and one spelled right already is left with its quoting |
| Resolve.SpelledIs | src/adql/query.rs:565-586 | a part answers to a field of its own spelling, or else, unquoted, to the only name that differs from it by nothing but the case of letters |
| Resolve.StartIsLast | src/adql/query.rs:516-523 | the column is the rightmost part a walk can start from |
| Resolve.WalkedLeads | src/adql/query.rs:545-563 | a walk that ends has found a path inside one real field, each part the one written but for the case of its letters and quoted ones unchanged |
| Resolve.ResolvedPathExists | src/adql/query.rs:516-543 | from the column on, a resolved name is a path that one table's schema really has |
| Resolve.ResolvedFolds | src/adql/query.rs:516-543 | what changes is only the case of unquoted parts from the column on, and such a part is quoted from then on |
| Resolve.UnknownIsUntouched | src/adql/query.rs:532-534 | a name no walk can start in is left exactly as written |
| Resolve.ResolvedReadsExactly | src/adql/query.rs:536-542 | read exactly, as it is from then on, a resolved path is the one that was found |
| Resolve.DeclaredIs | src/adql/query.rs:414-440 | a statement's table is the declaration of that name, or the only one it differs from by nothing but the case of letters, whatever their order |
| Resolve.ColumnsAre | src/adql/query.rs:516-534 | a name may start at a field of any of the files' schemas, and at no other |
| Names.WrittenReadsBack | src/adql/names.rs:28-47 | every published name reads back under ADQL's identifier rules as its dotted parts, quoted exactly where they must be |
| Names.PlainExactlyWhenRead | src/adql/names.rs:19-26 | a part is published bare exactly when ADQL reads it bare: a letter, then letters, digits and underscores |
| Names.WrittenIsInjective | src/adql/names.rs:28-47 | no two names are published alike |
| Names.PublishedNameReaches | src/adql/names.rs:28-36 | read back and resolved, a published name reaches the field it was published for, unless a later part of it is a column itself |
| Names.ReferenceIsWritten | src/adql/query.rs:376-387 | the planner is told the parts the statement wrote if and only if the first of them holds no dot |
| Mounts.NormalizePrefix | src/access/mount.rs:386-409 | the loop's prefix is the one spelling of the segments, and refused exactly for no leading slash or for a dot segment |
| Mounts.NormalizedExactlyWhen | src/access/mount.rs:386-409 | a prefix is accepted exactly when it begins with a slash and following it from the root, `.` staying and `..` going back, leads to its own segments |
| Mounts.NormalizedAgain | src/access/mount.rs:386-409 | normalizing a normalized prefix changes nothing |
| Mounts.NormalizedIsCanonical | src/access/mount.rs:386-409 | two prefixes have one spelling exactly when they have the same segments |
| Mounts.WithinIsWholeSegments | src/access/mount.rs:416-429 | a path in any spelling lies under a prefix exactly when it is cut into nothing, the prefix's segments and perhaps more |
| Mounts.WithinSegments | src/access/mount.rs:416-429 | its segments are then the prefix's and those of the part under it |
| Mounts.OverlapsIsPrefix | src/access/mount.rs:410-414 | two prefixes overlap exactly when the segments of one begin the other's |
| Mounts.New | src/access/mount.rs:228-256 | mounts are accepted exactly when all can be mounted and no two segment lists begin one another, in order; or else the first that fails is named with its first fault |
| Mounts.AtMostOneMount | src/access/mount.rs:299-303 | no path, normalized or not, lies under two accepted mounts |
| Mounts.ResolveFinds | src/access/mount.rs:299-321 | a path resolves to a mount and a rest exactly when the mount is in the list and the rest is what lies under it, and is published exactly when that mount is also served |
| Mounts.OrderDecidesNothing | src/access/mount.rs:299-311 | two accepted lists of the same mounts resolve every path alike |
| Mounts.UnservedIsAHole | src/access/mount.rs:313-321 | a path under an unserved mount resolves and is not published, whatever other mounts there are |
| Mounts.PathSegments | src/access/mount.rs:440-454 | the names by loop are the names by definition, with the first segment that is none refused; and followed from any directory they lead to the one those names below it |
| Mounts.NamesAreNames | src/access/mount.rs:430-454 | every name handed out is one segment decoded, valid, not empty, with no byte 0x2F or 0x00; and, `.` staying and `..` going back, they lead from any directory to the one exactly those names below it |
| Mounts.NamedExactlyWhen | src/access/mount.rs:440-454 | a path is refused exactly when some segment of it is not valid, holds a zero byte, or followed from a directory does not lead one level down under its own name |
| Urls.DecodedIs | src/access/mount.rs:440-446 | a percent sign before two hexadecimal digits of either case is the byte they spell, and before anything else itself |
| Listing.EncodedReadsBack | src/app/listing.rs:25-32 | decoding gives back every name, whatever its bytes, and an encoded name holds no slash |
| Listing.EncodedIsPrinted | src/app/listing.rs:25-49 | an encoded name holds no control byte, no byte past ASCII and none of the delimiters that end a path |
| Listing.EncodedIsItself | src/app/listing.rs:31-49 | a name is left as it is exactly when none of its bytes has to be encoded, an equals sign being none |
| Listing.Url | src/app/listing.rs:617-632 | a url is the one spelling of its mount's segments and its names encoded |
| Listing.Below | src/app/listing.rs:655-667 | the same going on below any url |
| Listing.BelowIsUrl | src/app/listing.rs:655-667 | going on below a directory's url is printing the longer path, exactly when that is not the root itself |
| Listing.UrlReadsBack | src/app/listing.rs:617-632 | resolving and cutting a printed url gives back its mount and exactly its names |
| Listing.ReadsBackExactlyWhen | src/access/mount.rs:430-454 | that holds if and only if every name is valid, holds no zero byte and leads one level down from a directory |
| Listing.OneSpelling | src/app/listing.rs:617-618 | whatever spelling a request used, the url printed for what it reached reaches the same |
| Listing.ParentIs | src/app/listing.rs:577-592 | one step up takes the last name off, and at the mount's own url there is none |
| Listing.ClimbIsTrail | src/app/listing.rs:577-592 | climbing from a directory passes every one above it, one a name, to the mount's url, and stops there |
| Listing.Breadcrumb | src/app/listing.rs:409-436 | the loop's links are the mount and then one a segment, each the path so far |
| Listing.RelativeIs | src/app/listing.rs:594-600 | a directory's url relative to its mount is its names, encoded |
| Listing.CrumbsAreTrail | src/app/listing.rs:409-436 | the links are the climb reversed, each under its directory's own name |
| KeepWarm.Total | src/app/warm.rs:82-84 | the saturating sum, in whatever order the map gives its values, is the exact sum capped |
| KeepWarm.CappedDecides | src/app/warm.rs:82-88 | it decides as the exact sum would if and only if the budget is below the largest count or the sum does not reach past it |
| KeepWarm.Footprint.Fits | src/app/warm.rs:71-99 | a call records the weight, says whether the tables fit, sets the flag where they do not and tells the operator then |
| KeepWarm.FlagIsTrue | src/app/warm.rs:77-89 | in every interleaving the flag is set, or some task is about to set it, exactly when the recorded weights at some time came to more than the budget |
| KeepWarm.FlagIsExact | src/app/warm.rs:77-89 | and, for a budget below the largest count, exactly when their exact sum did, which no order of the map has a part in |
| KeepWarm.ToldOnce | src/app/warm.rs:89-97 | in every interleaving the operator has been told once or is about to be exactly when the flag is set, and otherwise not at all |
| KeepWarm.FlagNeverClears | src/app/warm.rs:65-67 | once set, the flag stays set |
| KeepWarm.ReadsAfterFlag | src/app/warm.rs:106-125 | once the flag is set a task begins at most one read more, and that only if it had passed the check |
| KeepWarm.EveryTaskReturns | src/app/warm.rs:106-149 | once the flag is set every task returns within four steps of its own |
| KeepWarm.ReturnsOnlyWhen | src/app/warm.rs:106-149 | in every interleaving a task has returned only if the flag is set, or it has nowhere to keep a read and began none, or it keeps what never expires and a read succeeded |
| KeepWarm.GoesOnReading | src/app/warm.rs:106-149 | while the flag is not set a task begins another read within six steps of its own, failed reads retried and kept ones renewed, unless it keeps what never expires and has read it |
| KeepWarm.DoneTaskReturns | src/app/warm.rs:113-143 | a task with nowhere to keep a read, or with a read that never expires, begins no further read and returns within four steps of its own |
| KeepWarm.FittingAlone | src/app/warm.rs:71-99 | a task's steps with none between are one call of `Footprint.Fits`, where the table fits |
| KeepWarm.OverflowingAlone | src/app/warm.rs:71-99 | and where it does not |

## Left out

- The lexer, the parser and the printed text: meaning is kept on trees, so nothing is said of `a+b` standing unparenthesised under `%` once printed.
- `GROUP BY`, `HAVING`, `DISTINCT`, windows, `FETCH`, `WITH RECURSIVE` and the expressions in `LIMIT … BY`; `TOP` with an expression inside a set operand.
- What a call carries beside its arguments (`FILTER`, `OVER`, `WITHIN GROUP`): a call the translator writes has none of it, and the model gives none of it a meaning.
- Floating point: numbers are reals, so the parse of a numeral and rounding are not modelled.
- Spherical geometry, and ADQL regions but for circles: what they hold is any function.
- White space past ASCII around the name of a coordinate system.
- DataFusion's planner, simplifier and pruner: `Footer.Simplified` and `Footer.CouldHold` stand in for the last two.
- Footer.AnswersWithTheFile: does not model a negation the pruner cannot use at all, for which the service runs the query even over a file with no row groups.
- A filter that calls functions or compares two columns: the filters of `Footer` compare a column with a constant or ask for its nulls.
- Cache.Answers.constructor: promises the invariant only for a capacity at most half of the counter's range; `Cache.SumsFitExactlyBelowHalf` says that those are all the capacities for which the sum cannot wrap.
- The overflow of the count of rows read.
- Registering tables, checking plans and every other step of running a statement but its naming and its rows.
- Where a mount's files are (`source_of`), its lists of data files and the service's default list: a configuration says only whether they are acceptable.
- Routing, headers, compression, HTML, timestamps and the JSON of a listing.
- The text of a breadcrumb's separators, and the escaping of its links.
- Whether a warming read is a renewal, how long a task sleeps, and what a read reads.
- Access policy, symlinks, network addresses and error text.
