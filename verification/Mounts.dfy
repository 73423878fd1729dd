/** The directories the service reads, each at its own prefix of the url space. */
module Mounts {
  import opened Wrappers
  import opened Splitting
  import opened Urls

  // ---- A prefix in the one spelling prefixes are compared in ----

  predicate Steps(segment: Bytes) {
    segment == [DOT] || segment == [DOT, DOT]
  }

  function Normalized(raw: Bytes): Option<Bytes> {
    if raw == [] || raw[0] != SLASH || (exists s <- Segments(raw) :: Steps(s)) then None
    else Some(Spelling(Segments(raw)))
  }

  /** A prefix is one exactly when it begins at the root and following it from there is its segments, one down each. */
  lemma {:induction false} NormalizedExactlyWhen(raw: Bytes)
    ensures Normalized(raw).Some? <==> raw != [] && raw[0] == 0x2F && Reached([], raw) == Segments(raw)
  {
    SegmentsAre(raw);
    FollowedEmpties([], Split(raw, SLASH));
    FollowAllIs([], Segments(raw));
    assert [] + Segments(raw) == Segments(raw);
  }

  method NormalizePrefix(raw: Bytes) returns (r: Option<Bytes>)
    ensures r == Normalized(raw)
  {
    if raw == [] || raw[0] != SLASH {
      return None;
    }
    var all := Segments(raw);
    var segments: seq<Bytes> := [];
    for i := 0 to |all|
      invariant segments == all[..i]
      invariant forall s <- segments :: !Steps(s)
    {
      if Steps(all[i]) {
        assert all[i] in all;
        return None;
      }
      segments := segments + [all[i]];
    }
    assert segments == all;
    if segments == [] {
      return Some([SLASH]);
    }
    JoinedIsSlashed(segments);
    return Some([SLASH] + Join(segments, SLASH));
  }

  /** A prefix normalized once is normalized. */
  lemma {:induction false} NormalizedAgain(raw: Bytes)
    requires Normalized(raw).Some?
    ensures Normalized(Normalized(raw).value) == Normalized(raw)
  {
    SegmentsAre(raw);
    SegmentsOfSpelling(Segments(raw));
  }

  /** Two prefixes have one spelling exactly when they have the same segments. */
  lemma {:induction false} NormalizedIsCanonical(one: Bytes, other: Bytes)
    requires Normalized(one).Some? && Normalized(other).Some?
    ensures Normalized(one) == Normalized(other) <==> Segments(one) == Segments(other)
  {
    SegmentsAre(one);
    SegmentsAre(other);
    SegmentsOfSpelling(Segments(one));
    SegmentsOfSpelling(Segments(other));
  }

  // ---- What lies under a prefix ----

  /** The part of a path under a prefix, whole segments or nothing. */
  function Within(prefix: Bytes, path: Bytes): Option<Bytes> {
    if !(prefix <= path) then None
    else
      var rest := path[|prefix|..];
      if prefix == [SLASH] || rest == [] then Some(rest)
      else if rest[0] == SLASH then Some(rest[1..])
      else None
  }

  predicate Overlaps(one: Bytes, other: Bytes) {
    Within(one, other).Some? || Within(other, one).Some?
  }

  lemma {:induction false} WithinIs(segments: seq<Bytes>, path: Bytes, rest: Bytes)
    requires AreSegments(segments)
    ensures Within(Spelling(segments), path) == Some(rest) <==>
              || path == Slashed(segments) + [SLASH] + rest
              || (segments != [] && rest == [] && path == Slashed(segments))
  {
    var prefix := Spelling(segments);
    if segments == [] {
      assert Slashed(segments) + [SLASH] + rest == [SLASH] + rest;
      if prefix <= path {
        assert path == [SLASH] + path[1..];
      }
    } else {
      SlashedIsNoRoot(segments);
      if prefix <= path {
        var after := path[|prefix|..];
        assert path == prefix + after;
        if after != [] {
          assert path == prefix + [after[0]] + after[1..];
        }
      }
      if path == prefix + [SLASH] + rest {
        assert path[|prefix|..] == [SLASH] + rest;
      }
    }
  }

  lemma {:induction false} SlashedIsNoRoot(segments: seq<Bytes>)
    requires AreSegments(segments) && segments != []
    ensures Slashed(segments) != [SLASH]
  {
    assert IsSegment(segments[0]);
    assert |Slashed(segments)| > 1;
  }

  /**
   A path, in whatever spelling, lies under a prefix exactly when it is cut into nothing, the
   prefix's segments, and perhaps more.
   */
  lemma {:induction false} WithinIsWholeSegments(segments: seq<Bytes>, path: Bytes)
    requires AreSegments(segments)
    ensures Within(Spelling(segments), path).Some? <==>
              |Split(path, SLASH)| > 1 && [[]] + segments <= Split(path, SLASH)
  {
    var parts := Split(path, SLASH);
    var within := Within(Spelling(segments), path);
    if within.Some? {
      WithinIs(segments, path, within.value);
      if path == Slashed(segments) + [SLASH] + within.value {
        SplitPast(segments, within.value);
      } else {
        SplitOfSlashed(segments);
      }
    }
    if |parts| > 1 && [[]] + segments <= parts {
      var rest := parts[|segments| + 1..];
      assert parts == [[]] + segments + rest;
      JoinOfSplit(path, SLASH);
      SlashedIsJoined(segments);
      if rest == [] {
        assert parts == [[]] + segments;
        WithinIs(segments, path, []);
      } else {
        JoinOfSum([[]] + segments, rest, SLASH);
        WithinIs(segments, path, Join(rest, SLASH));
      }
    }
  }

  lemma {:induction false} JoinOfSum(a: seq<Bytes>, b: seq<Bytes>, sep: Byte)
    requires a != [] && b != []
    ensures Join(a + b, sep) == Join(a, sep) + [sep] + Join(b, sep)
  {
    assert (a + b)[1..] == a[1..] + b;
    if |a| > 1 {
      JoinOfSum(a[1..], b, sep);
    } else {
      assert a[1..] + b == b;
    }
  }

  /** A path under a prefix has the prefix's segments and then those of the part under it. */
  lemma {:induction false} WithinSegments(segments: seq<Bytes>, path: Bytes, rest: Bytes)
    requires AreSegments(segments) && Within(Spelling(segments), path) == Some(rest)
    ensures Segments(path) == segments + Segments(rest)
  {
    WithinIs(segments, path, rest);
    if path == Slashed(segments) + [SLASH] + rest {
      SegmentsPast(segments, rest);
    } else {
      SegmentsOfSlashed(segments);
      Nothing([]);
    }
  }

  /** Two prefixes overlap exactly when the segments of one begin those of the other. */
  lemma {:induction false} OverlapsIsPrefix(one: seq<Bytes>, other: seq<Bytes>)
    requires AreSegments(one) && AreSegments(other)
    ensures Overlaps(Spelling(one), Spelling(other)) <==> one <= other || other <= one
  {
    SpellingWithin(one, other);
    SpellingWithin(other, one);
  }

  lemma {:induction false} SpellingWithin(segments: seq<Bytes>, other: seq<Bytes>)
    requires AreSegments(segments) && AreSegments(other)
    ensures Within(Spelling(segments), Spelling(other)).Some? <==> segments <= other
  {
    WithinIsWholeSegments(segments, Spelling(other));
    var parts := Split(Spelling(other), SLASH);
    if other == [] {
      SplitOfSum([], SLASH, []);
      assert parts == [[], []];
      if segments != [] {
        assert IsSegment(segments[0]) && ([[]] + segments)[1] == segments[0];
      }
    } else {
      SplitOfSlashed(other);
      if [[]] + segments <= [[]] + other {
        assert forall i :: 0 <= i < |segments| ==>
                 segments[i] == ([[]] + segments)[i + 1] == ([[]] + other)[i + 1] == other[i];
      }
    }
  }

  // ---- The mounts, checked against each other ----

  /**
   A mount as it is configured. Whether its source is one and whether its list of data files
   compiles are settled elsewhere, and said here.
   */
  datatype Config = Config(path: Bytes, sourced: bool, filed: bool, serve: bool)

  datatype Mount = Mount(prefix: Bytes, serve: bool)

  datatype Fault = NoPrefix | NoSource | Claimed | NoFiles

  predicate Apart(one: seq<Bytes>, other: seq<Bytes>) {
    !(one <= other) && !(other <= one)
  }

  /** Every one can be mounted, and no two have paths of which one begins the other. */
  predicate Acceptable(configs: seq<Config>) {
    && (forall i :: 0 <= i < |configs| ==> Normalized(configs[i].path).Some? && configs[i].sourced && configs[i].filed)
    && (forall i, j :: 0 <= i < j < |configs| ==> Apart(Segments(configs[i].path), Segments(configs[j].path)))
  }

  /** What is first found wrong with a configuration, against those before it. */
  function FaultOf(config: Config, before: seq<Config>): Option<Fault> {
    if Normalized(config.path).None? then Some(NoPrefix)
    else if !config.sourced then Some(NoSource)
    else if exists c <- before :: !Apart(Segments(c.path), Segments(config.path)) then Some(Claimed)
    else if !config.filed then Some(NoFiles)
    else None
  }

  predicate Mounted(configs: seq<Config>, mounts: seq<Mount>) {
    && |mounts| == |configs|
    && forall i :: 0 <= i < |configs| ==>
                     && Normalized(configs[i].path) == Some(mounts[i].prefix)
                     && mounts[i].serve == configs[i].serve
  }

  method Claims(mounts: seq<Mount>, prefix: Bytes) returns (claimed: bool)
    ensures claimed <==> exists m <- mounts :: Overlaps(m.prefix, prefix)
  {
    for i := 0 to |mounts|
      invariant forall m <- mounts[..i] :: !Overlaps(m.prefix, prefix)
    {
      if Overlaps(mounts[i].prefix, prefix) {
        return true;
      }
      assert mounts[..i + 1] == mounts[..i] + [mounts[i]];
    }
    assert mounts[..|mounts|] == mounts;
    return false;
  }

  /** Configurations are mounted exactly when all are acceptable; or else the first that is not is named. */
  method New(configs: seq<Config>) returns (r: Result<seq<Mount>, (nat, Fault)>)
    ensures match r
            case Ok(mounts) => Acceptable(configs) && Mounted(configs, mounts)
            case Refused((at, fault)) =>
              && at < |configs| && Acceptable(configs[..at])
              && FaultOf(configs[at], configs[..at]) == Some(fault)
  {
    var mounts: seq<Mount> := [];
    for i := 0 to |configs|
      invariant Acceptable(configs[..i]) && Mounted(configs[..i], mounts)
    {
      var config := configs[i];
      var prefix := NormalizePrefix(config.path);
      if prefix.None? {
        return Refused((i, NoPrefix));
      }
      if !config.sourced {
        return Refused((i, NoSource));
      }
      var claimed := Claims(mounts, prefix.value);
      ClaimedIsClaimed(configs[..i], mounts, config);
      if claimed {
        return Refused((i, Claimed));
      }
      if !config.filed {
        return Refused((i, NoFiles));
      }
      AcceptableNext(configs, i);
      mounts := mounts + [Mount(prefix.value, config.serve)];
    }
    assert configs[..|configs|] == configs;
    return Ok(mounts);
  }

  lemma {:induction false} ClaimedIsClaimed(before: seq<Config>, mounts: seq<Mount>, config: Config)
    requires Mounted(before, mounts) && Normalized(config.path).Some?
    ensures (exists m <- mounts :: Overlaps(m.prefix, Normalized(config.path).value)) <==>
            (exists c <- before :: !Apart(Segments(c.path), Segments(config.path)))
  {
    SegmentsAre(config.path);
    forall i | 0 <= i < |before|
      ensures Overlaps(mounts[i].prefix, Normalized(config.path).value) <==>
              !Apart(Segments(before[i].path), Segments(config.path))
    {
      SegmentsAre(before[i].path);
      OverlapsIsPrefix(Segments(before[i].path), Segments(config.path));
    }
    if c :| c in before && !Apart(Segments(c.path), Segments(config.path)) {
      var i :| 0 <= i < |before| && before[i] == c;
      assert mounts[i] in mounts;
    }
    if m :| m in mounts && Overlaps(m.prefix, Normalized(config.path).value) {
      var i :| 0 <= i < |mounts| && mounts[i] == m;
      assert before[i] in before;
    }
  }

  lemma {:induction false} AcceptableNext(configs: seq<Config>, n: nat)
    requires n < |configs| && Acceptable(configs[..n]) && FaultOf(configs[n], configs[..n]) == None
    ensures Acceptable(configs[..n + 1])
  {
    var next := configs[..n + 1];
    assert next[n] == configs[n] && forall i :: 0 <= i < n ==> next[i] == configs[..n][i];
    forall i, j | 0 <= i < j < |next|
      ensures Apart(Segments(next[i].path), Segments(next[j].path))
    {
      assert configs[..n][i] in configs[..n];
    }
  }

  // ---- The mount a path belongs to ----

  /** The first mount a path lies under, and the part of the path inside it. */
  function Resolve(mounts: seq<Mount>, path: Bytes): Option<(Mount, Bytes)> {
    if mounts == [] then None
    else match Within(mounts[0].prefix, path)
      case Some(rest) => Some((mounts[0], rest))
      case None => Resolve(mounts[1..], path)
  }

  function Published(mounts: seq<Mount>, path: Bytes): Option<(Mount, Bytes)> {
    var found := Resolve(mounts, path);
    if found.Some? && found.value.0.serve then found else None
  }

  /** What `New` hands out. */
  ghost predicate Disjoint(mounts: seq<Mount>) {
    exists configs: seq<Config> :: Acceptable(configs) && Mounted(configs, mounts)
  }

  /** No path, in whatever spelling, lies under two of them. */
  lemma {:induction false} AtMostOneMount(mounts: seq<Mount>, path: Bytes, i: nat, j: nat)
    requires Disjoint(mounts) && i < j < |mounts|
    requires Within(mounts[i].prefix, path).Some?
    ensures Within(mounts[j].prefix, path).None?
  {
    var configs: seq<Config> :| Acceptable(configs) && Mounted(configs, mounts);
    var one, other := Segments(configs[i].path), Segments(configs[j].path);
    assert Apart(one, other);
    SegmentsAre(configs[i].path);
    SegmentsAre(configs[j].path);
    WithinIsWholeSegments(one, path);
    WithinIsWholeSegments(other, path);
    if Within(mounts[j].prefix, path).Some? {
      BothBegin(one, other, Split(path, SLASH));
    }
  }

  lemma {:induction false} BothBegin(one: seq<Bytes>, other: seq<Bytes>, parts: seq<Bytes>)
    requires [[]] + one <= parts && [[]] + other <= parts
    ensures one <= other || other <= one
  {
    assert forall k :: 0 <= k < |one| ==> one[k] == ([[]] + one)[k + 1] == parts[k + 1];
    assert forall k :: 0 <= k < |other| ==> other[k] == ([[]] + other)[k + 1] == parts[k + 1];
  }

  /**
   The mount found is the one the path lies under, wherever it stands in the list; and it is
   published exactly where it is served.
   */
  lemma {:induction false} ResolveFinds(mounts: seq<Mount>, path: Bytes, m: Mount, rest: Bytes)
    requires Disjoint(mounts)
    ensures Resolve(mounts, path) == Some((m, rest)) <==> m in mounts && Within(m.prefix, path) == Some(rest)
    ensures Published(mounts, path) == Some((m, rest)) <==>
              m in mounts && m.serve && Within(m.prefix, path) == Some(rest)
  {
    if mounts != [] {
      DisjointTail(mounts);
      ResolveFinds(mounts[1..], path, m, rest);
      if Within(mounts[0].prefix, path).Some? && m in mounts && Within(m.prefix, path).Some? {
        var j :| 0 <= j < |mounts| && mounts[j] == m;
        if j > 0 {
          AtMostOneMount(mounts, path, 0, j);
        }
      }
    }
  }

  lemma {:induction false} DisjointTail(mounts: seq<Mount>)
    requires Disjoint(mounts) && mounts != []
    ensures Disjoint(mounts[1..])
  {
    var configs: seq<Config> :| Acceptable(configs) && Mounted(configs, mounts);
    assert Acceptable(configs[1..]) && Mounted(configs[1..], mounts[1..]);
  }

  /** The order of the list decides nothing. */
  lemma {:induction false} OrderDecidesNothing(one: seq<Mount>, other: seq<Mount>, path: Bytes)
    requires Disjoint(one) && Disjoint(other) && forall m :: m in one <==> m in other
    ensures Resolve(one, path) == Resolve(other, path)
  {
    if Resolve(one, path).Some? {
      var (m, rest) := Resolve(one, path).value;
      ResolveFinds(one, path, m, rest);
      ResolveFinds(other, path, m, rest);
    }
    if Resolve(other, path).Some? {
      var (m, rest) := Resolve(other, path).value;
      ResolveFinds(one, path, m, rest);
      ResolveFinds(other, path, m, rest);
    }
  }

  /** A mount that is not served is a hole: nothing further out answers for what is under it. */
  lemma {:induction false} UnservedIsAHole(mounts: seq<Mount>, path: Bytes, m: Mount)
    requires Disjoint(mounts) && m in mounts && !m.serve && Within(m.prefix, path).Some?
    ensures Resolve(mounts, path).Some? && Published(mounts, path).None?
  {
    ResolveFinds(mounts, path, m, Within(m.prefix, path).value);
  }

  // ---- The names inside a mount ----

  datatype Unnamed = NotUtf8 | NotAName(segment: Bytes)

  predicate IsName(name: Bytes) {
    !Steps(name) && SLASH !in name && NUL !in name
  }

  /** A name that a filesystem can hold, and that leads one level down from wherever it is followed. */
  predicate LeadsDown(name: Bytes) {
    0x00 !in name && Reached([], name) == [name]
  }

  lemma {:induction false} NameLeadsDown(name: Bytes)
    requires name != []
    ensures IsName(name) <==> LeadsDown(name)
  {
    var parts := Split(name, SLASH);
    if SLASH in name {
      PartsHoldNoSeparator(name, SLASH);
      FollowedHoldNoSlash([], parts, 0);
      assert SLASH in [name][0];
    } else {
      SplitOfJoin([name], SLASH);
      FollowAllIs([], [name]);
    }
  }

  function NameOf(segment: Bytes, utf8: Bytes -> bool): Result<Bytes, Unnamed> {
    var name := Decoded(segment);
    if !utf8(name) then Refused(NotUtf8)
    else if !IsName(name) then Refused(NotAName(segment))
    else Ok(name)
  }

  function NamesOf(segments: seq<Bytes>, utf8: Bytes -> bool): Result<seq<Bytes>, Unnamed> {
    if segments == [] then Ok([])
    else
      var name :- NameOf(segments[0], utf8);
      var names :- NamesOf(segments[1..], utf8);
      Ok([name] + names)
  }

  /** The path a request names inside a mount, one name to a segment. */
  method PathSegments(relative: Bytes, utf8: Bytes -> bool) returns (r: Result<seq<Bytes>, Unnamed>)
    ensures r == NamesOf(Segments(relative), utf8)
    ensures r.Ok? ==> forall at :: Reached(at, Join(r.value, SLASH)) == at + r.value
  {
    var segments := Segments(relative);
    var names: seq<Bytes> := [];
    assert segments[0..] == segments && forall more: seq<Bytes> :: [] + more == more;
    for i := 0 to |segments|
      invariant NamesOf(segments, utf8) == match NamesOf(segments[i..], utf8)
                                           case Refused(why) => Refused(why)
                                           case Ok(more) => Ok(names + more)
    {
      assert segments[i..][0] == segments[i] && segments[i..][1..] == segments[i + 1..];
      var name := Decoded(segments[i]);
      if !utf8(name) {
        return Refused(NotUtf8);
      }
      if !IsName(name) {
        return Refused(NotAName(segments[i]));
      }
      assert forall more: seq<Bytes> :: names + ([name] + more) == (names + [name]) + more;
      names := names + [name];
    }
    assert names + [] == names;
    SegmentsAre(relative);
    NamesAreNames(segments, utf8);
    return Ok(names);
  }

  /**
   There is one name handed out to a segment, its bytes decoded, with no slash or zero byte in any;
   and from any directory they lead to the one that many levels below it by those names: never back
   above it, nor to another's place.
   */
  lemma {:induction false} NamesAreNames(segments: seq<Bytes>, utf8: Bytes -> bool)
    requires AreSegments(segments) && NamesOf(segments, utf8).Ok?
    ensures var names := NamesOf(segments, utf8).value;
            && |names| == |segments|
            && (forall i :: 0 <= i < |names| ==>
                              && names[i] == Decoded(segments[i]) != [] && utf8(names[i])
                              && 0x00 !in names[i] && 0x2F !in names[i])
            && forall at :: Reached(at, Join(names, 0x2F)) == at + names
  {
    EachIsAName(segments, utf8);
    var names := NamesOf(segments, utf8).value;
    forall at
      ensures Reached(at, Join(names, 0x2F)) == at + names
    {
      NamesReach(at, names);
    }
  }

  lemma {:induction false} EachIsAName(segments: seq<Bytes>, utf8: Bytes -> bool)
    requires AreSegments(segments) && NamesOf(segments, utf8).Ok?
    ensures var names := NamesOf(segments, utf8).value;
            && |names| == |segments|
            && forall i :: 0 <= i < |names| ==>
                             names[i] == Decoded(segments[i]) != [] && utf8(names[i]) && IsName(names[i])
  {
    if segments != [] {
      assert IsSegment(segments[0]);
      EachIsAName(segments[1..], utf8);
      var names := NamesOf(segments[1..], utf8).value;
      assert forall i :: 1 <= i < |segments| ==>
               segments[i] == segments[1..][i - 1] && ([Decoded(segments[0])] + names)[i] == names[i - 1];
    }
  }

  lemma {:induction false} NamesReach(at: seq<Bytes>, names: seq<Bytes>)
    requires forall name <- names :: name != [] && IsName(name)
    ensures Reached(at, Join(names, 0x2F)) == at + names
  {
    if names == [] {
      Nothing(at);
      assert at + names == at;
    } else {
      SplitOfJoin(names, SLASH);
      FollowAllIs(at, names);
    }
  }

  /** Segments are refused exactly when one of them is no text, or holds a zero byte, or does not lead down. */
  lemma {:induction false} NamedExactlyWhen(segments: seq<Bytes>, utf8: Bytes -> bool)
    ensures NamesOf(segments, utf8).Ok? <==>
              forall s <- segments :: utf8(Decoded(s)) && (Decoded(s) == [] || LeadsDown(Decoded(s)))
  {
    if segments != [] {
      NamedExactlyWhen(segments[1..], utf8);
      if Decoded(segments[0]) != [] {
        NameLeadsDown(Decoded(segments[0]));
      }
      assert NamesOf(segments, utf8).Ok? <==> NameOf(segments[0], utf8).Ok? && NamesOf(segments[1..], utf8).Ok?;
      assert segments[0] in segments && forall s <- segments[1..] :: s in segments;
      assert forall s <- segments :: s == segments[0] || s in segments[1..];
    }
  }
}
