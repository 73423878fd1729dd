/**
 The urls a listing prints: a directory's own, the one above it, and the trail of all of them from
 the mount down. Every name in them is percent-encoded, and the request that follows one of them
 is cut and decoded by module `Mounts`.
 */
module Listing {
  import opened Wrappers
  import opened Splitting
  import opened Urls
  import opened Mounts

  // ---- Printing a name as a segment ----

  /** What a segment may not carry as it is: controls, delimiters, the percent sign, and every byte past ASCII. */
  predicate IsEscaped(b: Byte) {
    || b < 0x20 || b >= 0x7F
    || b in {0x20, 0x22, 0x23, PERCENT, 0x3C, 0x3E, 0x3F, 0x5B, 0x5C, 0x5D, 0x5E, 0x60, 0x7B, 0x7C, 0x7D, SLASH}
  }

  function Escaped(b: Byte): Bytes {
    if IsEscaped(b) then [PERCENT, HexDigit(b / 16), HexDigit(b % 16)] else [b]
  }

  function Encoded(name: Bytes): Bytes {
    if name == [] then [] else Escaped(name[0]) + Encoded(name[1..])
  }

  function EncodedAll(names: seq<Bytes>): (segments: seq<Bytes>)
    ensures |segments| == |names|
  {
    if names == [] then [] else [Encoded(names[0])] + EncodedAll(names[1..])
  }

  /** Decoding gives back every name, whatever bytes are in it. */
  lemma {:induction false} EncodedReadsBack(name: Bytes)
    ensures Decoded(Encoded(name)) == name
    ensures SLASH !in Encoded(name) && (name != [] ==> Encoded(name) != [])
  {
    if name != [] {
      EncodedReadsBack(name[1..]);
    }
  }

  /** What ends a path, or a url, or means something to whoever reads one: the delimiters, white space and quotes. */
  predicate Delimits(b: Byte) {
    b in {0x20, 0x22, 0x23, 0x3C, 0x3E, 0x3F, 0x5B, 0x5C, 0x5D, 0x5E, 0x60, 0x7B, 0x7C, 0x7D, SLASH}
  }

  /** A byte that may stand in a url path as it is: printed ASCII that delimits nothing. */
  predicate IsPrinted(b: Byte) {
    0x20 <= b < 0x7F && !Delimits(b)
  }

  /** An encoded name holds no control byte, no byte past ASCII and nothing that ends a path. */
  lemma {:induction false} EncodedIsPrinted(name: Bytes)
    ensures forall b <- Encoded(name) :: IsPrinted(b)
  {
    if name != [] {
      EncodedIsPrinted(name[1..]);
    }
  }

  /** A name stays as it is exactly when all of it may stand in a path and none of it is a percent sign. */
  lemma {:induction false} EncodedIsItself(name: Bytes)
    ensures Encoded(name) == name <==> forall b <- name :: IsPrinted(b) && b != PERCENT
    ensures |Encoded(name)| >= |name|
  {
    if name != [] {
      EncodedIsItself(name[1..]);
      var rest := Encoded(name[1..]);
      assert name == [name[0]] + name[1..];
      if IsEscaped(name[0]) {
        assert name[0] in name && |Encoded(name)| == 3 + |rest|;
      } else {
        assert Encoded(name) == [name[0]] + rest;
        assert Encoded(name) == name <==> rest == name[1..];
      }
    }
  }

  /** The names a url can be printed for and read back from. */
  predicate IsAddressable(name: Bytes, utf8: Bytes -> bool) {
    utf8(name) && LeadsDown(name)
  }

  predicate AreAddressable(names: seq<Bytes>, utf8: Bytes -> bool) {
    forall name <- names :: IsAddressable(name, utf8)
  }

  predicate NoneEmpty(names: seq<Bytes>) {
    forall i :: 0 <= i < |names| ==> names[i] != []
  }

  lemma {:induction false} AddressableIsSomething(names: seq<Bytes>, utf8: Bytes -> bool)
    requires AreAddressable(names, utf8)
    ensures NoneEmpty(names)
  {
    forall i | 0 <= i < |names|
      ensures names[i] != []
    {
      assert IsAddressable(names[i], utf8);
      Nothing([]);
    }
  }

  lemma {:induction false} EncodedAreSegments(names: seq<Bytes>)
    requires NoneEmpty(names)
    ensures AreSegments(EncodedAll(names))
  {
    if names != [] {
      EncodedReadsBack(names[0]);
      EncodedAreSegments(names[1..]);
    }
  }

  lemma {:induction false} EncodedAllReadBack(names: seq<Bytes>, utf8: Bytes -> bool)
    requires AreAddressable(names, utf8)
    ensures NamesOf(EncodedAll(names), utf8) == Ok(names)
  {
    if names != [] {
      assert IsAddressable(names[0], utf8);
      Nothing([]);
      NameLeadsDown(names[0]);
      EncodedReadsBack(names[0]);
      EncodedAllReadBack(names[1..], utf8);
      assert [names[0]] + names[1..] == names;
    }
  }

  lemma {:induction false} EncodedOfSum(a: seq<Bytes>, b: seq<Bytes>)
    ensures EncodedAll(a + b) == EncodedAll(a) + EncodedAll(b)
  {
    if a == [] {
      assert a + b == b;
    } else {
      EncodedOfSum(a[1..], b);
      assert (a + b)[1..] == a[1..] + b;
      Regrouped([Encoded(a[0])], EncodedAll(a[1..]), EncodedAll(b));
    }
  }

  // ---- Printing a path of names ----

  function TrimEnd(text: Bytes): (trimmed: Bytes)
    ensures trimmed <= text && (trimmed != [] ==> trimmed[|trimmed| - 1] != SLASH)
  {
    if text != [] && text[|text| - 1] == SLASH then TrimEnd(text[..|text| - 1]) else text
  }

  function OrRoot(url: Bytes): Bytes {
    if url == [] then [SLASH] else url
  }

  /** A directory's url is the one spelling of its mount's segments and its own names. */
  method Url(prefix: Bytes, names: seq<Bytes>) returns (url: Bytes)
    ensures url == OrRoot((if prefix == [SLASH] then [] else prefix) + Slashed(EncodedAll(names)))
    ensures forall mount :: AreSegments(mount) && prefix == Spelling(mount) ==>
              url == Spelling(mount + EncodedAll(names))
  {
    url := if prefix == [SLASH] then [] else prefix;
    ghost var start := url;
    for i := 0 to |names|
      invariant url == start + Slashed(EncodedAll(names[..i]))
    {
      url := url + [SLASH];
      url := url + Encoded(names[i]);
      SlashedNext(names, i);
    }
    assert names[..|names|] == names;
    forall mount | AreSegments(mount) && prefix == Spelling(mount)
      ensures OrRoot(start + Slashed(EncodedAll(names))) == Spelling(mount + EncodedAll(names))
    {
      SpellingOfSum(mount, EncodedAll(names));
    }
    if url == [] {
      return [SLASH];
    }
  }

  /** A url some levels below another. */
  method Below(base: Bytes, names: seq<Bytes>) returns (url: Bytes)
    ensures url == TrimEnd(base) + Slashed(EncodedAll(names))
  {
    url := TrimEnd(base);
    for i := 0 to |names|
      invariant url == TrimEnd(base) + Slashed(EncodedAll(names[..i]))
    {
      url := url + [SLASH];
      url := url + Encoded(names[i]);
      SlashedNext(names, i);
    }
    assert names[..|names|] == names;
  }

  lemma {:induction false} SlashedNext(names: seq<Bytes>, i: nat)
    requires i < |names|
    ensures Slashed(EncodedAll(names[..i + 1])) == Slashed(EncodedAll(names[..i])) + [SLASH] + Encoded(names[i])
  {
    assert names[..i + 1] == names[..i] + [names[i]];
    EncodedOfSum(names[..i], [names[i]]);
    assert EncodedAll([names[i]]) == [Encoded(names[i])];
    SlashedOfSum(EncodedAll(names[..i]), [Encoded(names[i])]);
    assert Slashed([Encoded(names[i])]) == [SLASH] + Encoded(names[i]);
  }

  lemma {:induction false} SpellingOfSum(mount: seq<Bytes>, below: seq<Bytes>)
    requires AreSegments(mount)
    ensures OrRoot((if Spelling(mount) == [SLASH] then [] else Spelling(mount)) + Slashed(below))
            == Spelling(mount + below)
  {
    SlashedOfSum(mount, below);
    if mount != [] {
      SlashedIsNoRoot(mount);
    }
  }

  /** The url of a directory of a mount. */
  function UrlOf(mount: seq<Bytes>, names: seq<Bytes>): Bytes {
    Spelling(mount + EncodedAll(names))
  }

  lemma {:induction false} TrimmedSpelling(segments: seq<Bytes>)
    requires AreSegments(segments)
    ensures TrimEnd(Spelling(segments)) == Slashed(segments)
  {
    if segments == [] {
      assert Spelling(segments)[..0] == [];
    } else {
      SlashedEnds(segments);
    }
  }

  lemma {:induction false} SlashedEnds(segments: seq<Bytes>)
    requires AreSegments(segments) && segments != []
    ensures var s := Slashed(segments); s[|s| - 1] != SLASH
  {
    assert IsSegment(segments[0]);
    if |segments| > 1 {
      SlashedEnds(segments[1..]);
    } else {
      assert Slashed(segments[1..]) == [];
    }
  }

  /** Going on below a directory's url is printing the longer path, but for going nowhere below the root. */
  lemma {:induction false} BelowIsUrl(mount: seq<Bytes>, names: seq<Bytes>, more: seq<Bytes>)
    requires AreSegments(mount) && NoneEmpty(names + more)
    ensures TrimEnd(UrlOf(mount, names)) + Slashed(EncodedAll(more)) == UrlOf(mount, names + more) <==>
              mount + names + more != []
  {
    assert forall i :: 0 <= i < |names| ==> names[i] == (names + more)[i];
    EncodedAreSegments(names);
    TrimmedSpelling(mount + EncodedAll(names));
    EncodedOfSum(names, more);
    Regrouped(mount, EncodedAll(names), EncodedAll(more));
    SlashedOfSum(mount + EncodedAll(names), EncodedAll(more));
  }

  // ---- What is printed is read back ----

  /** Every name stands again where a printed url is resolved and cut: in its mount, in its order, in its bytes. */
  lemma {:induction false} UrlReadsBack(mounts: seq<Mount>, m: Mount, mount: seq<Bytes>, names: seq<Bytes>,
                                        utf8: Bytes -> bool)
    requires Disjoint(mounts) && m in mounts && AreSegments(mount) && m.prefix == Spelling(mount)
    requires AreAddressable(names, utf8)
    ensures var found := Resolve(mounts, UrlOf(mount, names));
            && found.Some? && found.value.0 == m
            && NamesOf(Segments(found.value.1), utf8) == Ok(names)
  {
    var segments := EncodedAll(names);
    var rest := Join(segments, SLASH);
    AddressableIsSomething(names, utf8);
    EncodedAreSegments(names);
    EncodedAllReadBack(names, utf8);
    SegmentsOfJoined(segments);
    SlashedOfSum(mount, segments);
    if segments != [] {
      JoinedIsSlashed(segments);
      Regrouped(Slashed(mount), [SLASH], rest);
    } else {
      assert mount + segments == mount;
    }
    WithinIs(mount, UrlOf(mount, names), rest);
    ResolveFinds(mounts, UrlOf(mount, names), m, rest);
  }

  /** And exactly the names a mount can hold are read back. */
  lemma {:induction false} ReadsBackExactlyWhen(mounts: seq<Mount>, m: Mount, mount: seq<Bytes>, names: seq<Bytes>,
                                                utf8: Bytes -> bool)
    requires Disjoint(mounts) && m in mounts && AreSegments(mount) && m.prefix == Spelling(mount)
    ensures AreAddressable(names, utf8) <==>
              var found := Resolve(mounts, UrlOf(mount, names));
              found.Some? && found.value.0 == m && NamesOf(Segments(found.value.1), utf8) == Ok(names)
  {
    var found := Resolve(mounts, UrlOf(mount, names));
    if AreAddressable(names, utf8) {
      UrlReadsBack(mounts, m, mount, names, utf8);
    }
    if found.Some? && NamesOf(Segments(found.value.1), utf8) == Ok(names) {
      NamesReadAreAddressable(found.value.1, utf8);
    }
  }

  lemma {:induction false} NamesReadAreAddressable(rest: Bytes, utf8: Bytes -> bool)
    requires NamesOf(Segments(rest), utf8).Ok?
    ensures AreAddressable(NamesOf(Segments(rest), utf8).value, utf8)
  {
    var names := NamesOf(Segments(rest), utf8).value;
    SegmentsAre(rest);
    EachIsAName(Segments(rest), utf8);
    forall name <- names
      ensures IsAddressable(name, utf8)
    {
      var i :| 0 <= i < |names| && names[i] == name;
      NameLeadsDown(name);
    }
  }

  /** A printed url is the one spelling: whatever spelling reached a directory, its url names the same one. */
  lemma {:induction false} OneSpelling(mounts: seq<Mount>, mount: seq<Bytes>, path: Bytes, utf8: Bytes -> bool)
    requires Disjoint(mounts) && Resolve(mounts, path).Some? && AreSegments(mount)
    requires Resolve(mounts, path).value.0.prefix == Spelling(mount)
    requires NamesOf(Segments(Resolve(mounts, path).value.1), utf8).Ok?
    ensures var (m, rest) := Resolve(mounts, path).value;
            var names := NamesOf(Segments(rest), utf8).value;
            var found := Resolve(mounts, UrlOf(mount, names));
            && found.Some? && found.value.0 == m
            && NamesOf(Segments(found.value.1), utf8) == Ok(names)
  {
    var (m, rest) := Resolve(mounts, path).value;
    var names := NamesOf(Segments(rest), utf8).value;
    ResolveFinds(mounts, path, m, rest);
    NamesReadAreAddressable(rest, utf8);
    UrlReadsBack(mounts, m, mount, names, utf8);
  }

  // ---- Climbing ----

  function LastSlash(path: Bytes): (i: Option<nat>)
    ensures i.Some? ==> i.value < |path| && path[i.value] == SLASH && SLASH !in path[i.value + 1..]
    ensures i.None? ==> SLASH !in path
  {
    if path == [] then None
    else if path[|path| - 1] == SLASH then Some(|path| - 1)
    else
      var i := LastSlash(path[..|path| - 1]);
      assert path == path[..|path| - 1] + [path[|path| - 1]];
      assert i.Some? ==> path[i.value + 1..] == path[..|path| - 1][i.value + 1..] + [path[|path| - 1]];
      i
  }

  /** The directory above, or nothing at the top of the mount. */
  function Parent(root: Bytes, path: Bytes): (above: Option<Bytes>)
    ensures above.Some? ==> |above.value| < |path|
  {
    if TrimEnd(path) == TrimEnd(root) then None
    else match LastSlash(path)
      case None => None
      case Some(i) =>
        if i < |TrimEnd(root)| then None
        else if i == 0 then Some([SLASH])
        else Some(path[..i])
  }

  /** A url and every one above it, to the top. */
  function Climb(root: Bytes, path: Bytes): seq<Bytes>
    decreases |path|
  {
    [path] + match Parent(root, path) case None => [] case Some(above) => Climb(root, above)
  }

  lemma {:induction false} LastSlashAt(before: Bytes, after: Bytes)
    requires SLASH !in after
    ensures LastSlash(before + [SLASH] + after) == Some(|before|)
  {
    var path := before + [SLASH] + after;
    if after != [] {
      assert after == after[..|after| - 1] + [after[|after| - 1]];
      LastSlashAt(before, after[..|after| - 1]);
      assert path[..|path| - 1] == before + [SLASH] + after[..|after| - 1];
    }
  }

  lemma {:induction false} ParentOfSlashed(root: Bytes, before: seq<Bytes>, last: Bytes)
    requires AreSegments(before) && IsSegment(last) && |TrimEnd(root)| <= |Slashed(before)|
    ensures Parent(root, Slashed(before + [last])) == Some(Spelling(before))
  {
    SlashedOfSum(before, [last]);
    assert Slashed([last]) == [SLASH] + last;
    Regrouped(Slashed(before), [SLASH], last);
    LastSlashAt(Slashed(before), last);
    TrimmedUrl(before, last);
    ParentAt(root, Slashed(before), last);
    if before != [] {
      SlashedEnds(before);
    }
  }

  lemma {:induction false} ParentAt(root: Bytes, before: Bytes, last: Bytes)
    requires var path := before + [SLASH] + last; TrimEnd(path) == path && LastSlash(path) == Some(|before|)
    requires |TrimEnd(root)| <= |before|
    ensures Parent(root, before + [SLASH] + last) == Some(if before == [] then [SLASH] else before)
  {
    assert (before + [SLASH] + last)[..|before|] == before;
  }

  lemma {:induction false} TrimmedUrl(before: seq<Bytes>, last: Bytes)
    requires AreSegments(before) && IsSegment(last)
    ensures TrimEnd(Slashed(before + [last])) == Slashed(before + [last])
  {
    TrimmedSpelling(before + [last]);
    SlashedEnds(before + [last]);
  }

  /** One step up takes the last name off, and at the mount's own url there is none. */
  lemma {:induction false} ParentIs(mount: seq<Bytes>, names: seq<Bytes>)
    requires AreSegments(mount) && NoneEmpty(names)
    ensures Parent(Spelling(mount), UrlOf(mount, names)) ==
            if names == [] then None else Some(UrlOf(mount, names[..|names| - 1]))
  {
    TrimmedSpelling(mount);
    if names == [] {
      assert mount + EncodedAll(names) == mount;
    } else {
      var above, last := names[..|names| - 1], names[|names| - 1];
      assert names == above + [last];
      EncodedNext(mount, above, last);
      EncodedAreSegments(above);
      EncodedReadsBack(last);
      SlashedOfSum(mount, EncodedAll(above));
      ParentOfSlashed(Spelling(mount), mount + EncodedAll(above), Encoded(last));
    }
  }

  lemma {:induction false} EncodedNext(mount: seq<Bytes>, above: seq<Bytes>, last: Bytes)
    ensures mount + EncodedAll(above + [last]) == mount + EncodedAll(above) + [Encoded(last)]
  {
    EncodedOfSum(above, [last]);
    assert EncodedAll([last]) == [Encoded(last)];
  }

  /** The urls of the directories down to one, from the mount. */
  function Trail(mount: seq<Bytes>, names: seq<Bytes>): seq<Bytes> {
    seq(|names| + 1, k requires 0 <= k <= |names| => UrlOf(mount, names[..k]))
  }

  function Reversed<T>(s: seq<T>): seq<T> {
    seq(|s|, i requires 0 <= i < |s| => s[|s| - 1 - i])
  }

  /** Climbing from a directory passes through those above it, one a name, to the mount's url, and stops. */
  lemma {:induction false} ClimbIsTrail(mount: seq<Bytes>, names: seq<Bytes>)
    requires AreSegments(mount) && NoneEmpty(names)
    ensures Climb(Spelling(mount), UrlOf(mount, names)) == Reversed(Trail(mount, names))
    decreases |names|
  {
    ParentIs(mount, names);
    TrailNext(mount, names);
    if names == [] {
      assert Reversed(Trail(mount, names)) == Trail(mount, names);
    } else {
      var above := names[..|names| - 1];
      ClimbIsTrail(mount, above);
      ReversedNext(Trail(mount, above), UrlOf(mount, names));
    }
  }

  lemma {:induction false} TrailNext(mount: seq<Bytes>, names: seq<Bytes>)
    ensures Trail(mount, names)
            == (if names == [] then [] else Trail(mount, names[..|names| - 1])) + [UrlOf(mount, names)]
  {
    assert names[..|names|] == names;
    if names != [] {
      var above := names[..|names| - 1];
      forall k | 0 <= k <= |above|
        ensures Trail(mount, above)[k] == Trail(mount, names)[k]
      {
        assert above[..k] == names[..k];
      }
    }
  }

  lemma {:induction false} ReversedNext<T>(s: seq<T>, last: T)
    ensures Reversed(s + [last]) == [last] + Reversed(s)
  {
  }

  // ---- The trail as it is shown ----

  datatype Crumb = Crumb(href: Bytes, name: Bytes)

  /** The segments of a path below a root, as they are in the url. */
  function Relative(root: Bytes, path: Bytes): seq<Bytes> {
    Segments(if |TrimEnd(root)| <= |path| then path[|TrimEnd(root)|..] else [])
  }

  /** A segment as the name it stands for; as it is, where its bytes are none. */
  function NameShown(segment: Bytes, utf8: Bytes -> bool): Bytes {
    if utf8(Decoded(segment)) then Decoded(segment) else segment
  }

  function Href(root: Bytes, segments: seq<Bytes>, k: nat): Bytes
    requires k <= |segments|
  {
    TrimEnd(root) + Slashed(segments[..k])
  }

  function CrumbOf(root: Bytes, segments: seq<Bytes>, k: nat, utf8: Bytes -> bool): Crumb
    requires k < |segments|
  {
    Crumb(Href(root, segments, k + 1), NameShown(segments[k], utf8))
  }

  /** The mount, and the first directories below it. */
  function Crumbs(root: Bytes, segments: seq<Bytes>, n: nat, utf8: Bytes -> bool): seq<Crumb>
    requires n <= |segments|
  {
    [Crumb(root, root)] + seq(n, k requires 0 <= k < n => CrumbOf(root, segments, k, utf8))
  }

  method Breadcrumb(root: Bytes, path: Bytes, utf8: Bytes -> bool) returns (crumbs: seq<Crumb>)
    ensures var segments := Relative(root, path);
            crumbs == Crumbs(root, segments, |segments|, utf8)
  {
    var segments := Relative(root, path);
    crumbs := [Crumb(root, root)];
    var at := TrimEnd(root);
    assert segments[..0] == [];
    for i := 0 to |segments|
      invariant at == Href(root, segments, i)
      invariant crumbs == Crumbs(root, segments, i, utf8)
    {
      HrefNext(root, segments, i);
      at := at + [SLASH];
      at := at + segments[i];
      crumbs := crumbs + [Crumb(at, NameShown(segments[i], utf8))];
    }
  }

  lemma {:induction false} HrefNext(root: Bytes, segments: seq<Bytes>, i: nat)
    requires i < |segments|
    ensures Href(root, segments, i + 1) == Href(root, segments, i) + [SLASH] + segments[i]
  {
    assert segments[..i + 1] == segments[..i] + [segments[i]];
    SlashedOfSum(segments[..i], [segments[i]]);
    assert Slashed([segments[i]]) == [SLASH] + segments[i];
  }

  /** What a directory's url is relative to its mount is its names, encoded. */
  lemma {:induction false} RelativeIs(mount: seq<Bytes>, names: seq<Bytes>)
    requires AreSegments(mount) && NoneEmpty(names)
    ensures Relative(Spelling(mount), UrlOf(mount, names)) == EncodedAll(names)
  {
    var segments := EncodedAll(names);
    var url := UrlOf(mount, names);
    TrimmedSpelling(mount);
    EncodedAreSegments(names);
    SlashedOfSum(mount, segments);
    if mount + segments == [] {
      assert url[0..] == url;
      SegmentsOfSpelling([]);
    } else {
      assert url[|Slashed(mount)|..] == Slashed(segments);
      SegmentsOfSlashed(segments);
    }
  }

  /** A link to each directory down to one, under its own name. */
  function Links(mount: seq<Bytes>, names: seq<Bytes>): seq<Crumb> {
    seq(|names|, k requires 0 <= k < |names| => Crumb(Trail(mount, names)[k + 1], names[k]))
  }

  /** The links shown are the climb reversed: the trail, with each directory under its own name. */
  lemma {:induction false} CrumbsAreTrail(mount: seq<Bytes>, names: seq<Bytes>, utf8: Bytes -> bool)
    requires AreSegments(mount) && AreAddressable(names, utf8)
    ensures var root, segments := Spelling(mount), Relative(Spelling(mount), UrlOf(mount, names));
            && |segments| == |names|
            && Crumbs(root, segments, |segments|, utf8) == [Crumb(root, root)] + Links(mount, names)
            && Trail(mount, names)[0] == root
  {
    AddressableIsSomething(names, utf8);
    RelativeIs(mount, names);
    CrumbsAre(mount, names, utf8);
    assert mount + EncodedAll(names[..0]) == mount;
  }

  lemma {:induction false} CrumbsAre(mount: seq<Bytes>, names: seq<Bytes>, utf8: Bytes -> bool)
    requires AreSegments(mount) && AreAddressable(names, utf8)
    ensures var root := Spelling(mount);
            Crumbs(root, EncodedAll(names), |names|, utf8) == [Crumb(root, root)] + Links(mount, names)
  {
    forall k | 0 <= k < |names|
      ensures CrumbOf(Spelling(mount), EncodedAll(names), k, utf8) == Links(mount, names)[k]
    {
      CrumbIs(mount, names, utf8, k);
      assert Trail(mount, names)[k + 1] == UrlOf(mount, names[..k + 1]);
    }
  }

  lemma {:induction false} CrumbIs(mount: seq<Bytes>, names: seq<Bytes>, utf8: Bytes -> bool, k: nat)
    requires AreSegments(mount) && AreAddressable(names, utf8) && k < |names|
    ensures CrumbOf(Spelling(mount), EncodedAll(names), k, utf8) == Crumb(UrlOf(mount, names[..k + 1]), names[k])
  {
    HrefIs(mount, names, k + 1);
    EncodedAt(names, k);
    EncodedReadsBack(names[k]);
    assert IsAddressable(names[k], utf8);
  }

  lemma {:induction false} HrefIs(mount: seq<Bytes>, names: seq<Bytes>, k: nat)
    requires AreSegments(mount) && 0 < k <= |names|
    ensures Href(Spelling(mount), EncodedAll(names), k) == UrlOf(mount, names[..k])
  {
    TrimmedSpelling(mount);
    assert names == names[..k] + names[k..];
    EncodedOfSum(names[..k], names[k..]);
    assert EncodedAll(names)[..k] == EncodedAll(names[..k]);
    SlashedOfSum(mount, EncodedAll(names[..k]));
  }

  lemma {:induction false} EncodedAt(names: seq<Bytes>, k: nat)
    requires k < |names|
    ensures EncodedAll(names)[k] == Encoded(names[k])
  {
    if k > 0 {
      EncodedAt(names[1..], k - 1);
    }
  }
}
