/** Url paths as bytes: their segments, and percent-encoding (section 2.1 of RFC 3986). */
module Urls {
  import opened Splitting

  type Byte = b: int | 0 <= b < 0x100

  type Bytes = seq<Byte>

  const SLASH: Byte := 0x2F
  const DOT: Byte := 0x2E
  const PERCENT: Byte := 0x25
  const NUL: Byte := 0x00

  // ---- Segments ----

  function NonEmpty(parts: seq<Bytes>): (kept: seq<Bytes>)
    ensures forall part <- kept :: part != [] && part in parts
  {
    if parts == [] then []
    else (if parts[0] == [] then [] else [parts[0]]) + NonEmpty(parts[1..])
  }

  /** What stands between slashes, where anything does. */
  function Segments(path: Bytes): seq<Bytes> {
    NonEmpty(Split(path, SLASH))
  }

  predicate IsSegment(s: Bytes) {
    s != [] && SLASH !in s
  }

  predicate AreSegments(segments: seq<Bytes>) {
    forall s <- segments :: IsSegment(s)
  }

  /** Every segment with a slash before it. */
  function Slashed(segments: seq<Bytes>): Bytes {
    if segments == [] then [] else [SLASH] + segments[0] + Slashed(segments[1..])
  }

  /** The one spelling of a path of segments: no slash doubled, none at the end unless it is all there is. */
  function Spelling(segments: seq<Bytes>): Bytes {
    if segments == [] then [SLASH] else Slashed(segments)
  }

  lemma {:induction false} SegmentsAre(path: Bytes)
    ensures AreSegments(Segments(path))
  {
    PartsHoldNoSeparator(path, SLASH);
  }

  lemma {:induction false} SlashedOfSum(a: seq<Bytes>, b: seq<Bytes>)
    ensures Slashed(a + b) == Slashed(a) + Slashed(b)
  {
    if a == [] {
      assert a + b == b;
    } else {
      SlashedOfSum(a[1..], b);
      assert (a + b)[1..] == a[1..] + b;
      Regrouped([SLASH] + a[0], Slashed(a[1..]), Slashed(b));
    }
  }

  lemma {:induction false} SlashedIsJoined(segments: seq<Bytes>)
    ensures Join([[]] + segments, SLASH) == Slashed(segments)
  {
    if segments != [] {
      var parts := [[]] + segments;
      assert parts[1..] == segments;
      JoinedIsSlashed(segments);
    }
  }

  lemma {:induction false} JoinedIsSlashed(segments: seq<Bytes>)
    requires segments != []
    ensures [SLASH] + Join(segments, SLASH) == Slashed(segments)
  {
    if |segments| > 1 {
      JoinedIsSlashed(segments[1..]);
    }
  }

  /** A path that goes on past some segments is cut into them and what it goes on with. */
  lemma {:induction false} SplitPast(segments: seq<Bytes>, rest: Bytes)
    requires AreSegments(segments)
    ensures Split(Slashed(segments) + [SLASH] + rest, SLASH) == [[]] + segments + Split(rest, SLASH)
  {
    SlashedIsJoined(segments);
    SplitPastJoin([[]] + segments, SLASH, rest);
    Regrouped(Slashed(segments), [SLASH], rest);
  }

  lemma {:induction false} SplitOfSlashed(segments: seq<Bytes>)
    requires AreSegments(segments)
    ensures Split(Slashed(segments), SLASH) == [[]] + segments
  {
    SlashedIsJoined(segments);
    SplitOfJoin([[]] + segments, SLASH);
  }

  lemma {:induction false} NonEmptyOfSum(a: seq<Bytes>, b: seq<Bytes>)
    ensures NonEmpty(a + b) == NonEmpty(a) + NonEmpty(b)
  {
    if a == [] {
      assert a + b == b;
    } else {
      NonEmptyOfSum(a[1..], b);
      assert (a + b)[1..] == a[1..] + b;
      Regrouped(if a[0] == [] then [] else [a[0]], NonEmpty(a[1..]), NonEmpty(b));
    }
  }

  lemma {:induction false} NonEmptyKeeps(parts: seq<Bytes>)
    requires AreSegments(parts)
    ensures NonEmpty(parts) == parts
  {
    if parts != [] {
      assert IsSegment(parts[0]);
      NonEmptyKeeps(parts[1..]);
      assert parts == [parts[0]] + parts[1..];
    }
  }

  lemma {:induction false} SegmentsPast(segments: seq<Bytes>, rest: Bytes)
    requires AreSegments(segments)
    ensures Segments(Slashed(segments) + [SLASH] + rest) == segments + Segments(rest)
  {
    SplitPast(segments, rest);
    NonEmptyOfSum([[]] + segments, Split(rest, SLASH));
    NonEmptyOfSum([[]], segments);
    NonEmptyKeeps(segments);
  }

  lemma {:induction false} SegmentsOfSlashed(segments: seq<Bytes>)
    requires AreSegments(segments)
    ensures Segments(Slashed(segments)) == segments
  {
    SplitOfSlashed(segments);
    NonEmptyOfSum([[]], segments);
    NonEmptyKeeps(segments);
  }

  lemma {:induction false} SegmentsOfJoined(segments: seq<Bytes>)
    requires AreSegments(segments)
    ensures Segments(Join(segments, SLASH)) == segments
  {
    if segments != [] {
      SplitOfJoin(segments, SLASH);
      NonEmptyKeeps(segments);
    } else {
      Nothing([]);
    }
  }

  /** A spelling holds the segments it was made of, so two spellings are one exactly when their segments are. */
  lemma {:induction false} SegmentsOfSpelling(segments: seq<Bytes>)
    requires AreSegments(segments)
    ensures Segments(Spelling(segments)) == segments
  {
    if segments == [] {
      SegmentsPast([], []);
      Nothing([]);
      assert [] + [SLASH] + [] == [SLASH];
    } else {
      SegmentsOfSlashed(segments);
    }
  }

  // ---- Percent-encoding ----

  function HexDigit(n: nat): Byte
    requires n < 16
  {
    if n < 10 then 0x30 + n else 0x41 + n - 10
  }

  predicate IsHex(b: Byte) {
    0x30 <= b <= 0x39 || 0x41 <= b <= 0x46 || 0x61 <= b <= 0x66
  }

  function HexValue(b: Byte): (n: nat)
    requires IsHex(b)
    ensures n < 16
  {
    if b <= 0x39 then b - 0x30 else if b <= 0x46 then b - 0x41 + 10 else b - 0x61 + 10
  }

  function Byte16(high: nat, low: nat): Byte
    requires high < 16 && low < 16
  {
    16 * high + low
  }

  /** A percent sign and two hexadecimal digits are the byte they spell; anything else is itself. */
  function Decoded(text: Bytes): Bytes
    decreases |text|
  {
    if text == [] then []
    else if text[0] == PERCENT && |text| > 2 && IsHex(text[1]) && IsHex(text[2]) then
      [Byte16(HexValue(text[1]), HexValue(text[2]))] + Decoded(text[3..])
    else [text[0]] + Decoded(text[1..])
  }

  /** A digit of a number below sixteen, in either case. */
  predicate Spells(digit: Byte, n: nat) {
    n < 16 && (digit == "0123456789ABCDEF"[n] as int || digit == "0123456789abcdef"[n] as int)
  }

  /** Where a percent sign stands before two digits they are one byte; every other byte stands for itself. */
  lemma {:induction false} DecodedIs(first: Byte, rest: Bytes, high: nat, low: nat)
    ensures first == 0x25 && |rest| > 1 && Spells(rest[0], high) && Spells(rest[1], low) ==>
              Decoded([first] + rest) == [(16 * high + low) as Byte] + Decoded(rest[2..])
    ensures first != 0x25 || |rest| < 2 || !(exists n :: Spells(rest[0], n)) || !(exists n :: Spells(rest[1], n)) ==>
              Decoded([first] + rest) == [first] + Decoded(rest)
  {
    var text := [first] + rest;
    assert text[1..] == rest;
    if |rest| > 1 {
      assert text[3..] == rest[2..];
      DigitIs(rest[0]);
      DigitIs(rest[1]);
      assert IsHex(rest[0]) ==> Spells(rest[0], HexValue(rest[0]));
      assert IsHex(rest[1]) ==> Spells(rest[1], HexValue(rest[1]));
    }
  }

  lemma {:induction false} DigitIs(digit: Byte)
    ensures forall n :: Spells(digit, n) <==> IsHex(digit) && HexValue(digit) == n
  {
  }

  // ---- A path as a filesystem follows it ----

  /** The place one name leads to: nothing and `.` stay, `..` goes back one, any other goes one down. */
  function Follow(at: seq<Bytes>, name: Bytes): seq<Bytes> {
    if name == [] || name == [0x2E] then at
    else if name == [0x2E, 0x2E] then (if at == [] then at else at[..|at| - 1])
    else at + [name]
  }

  function FollowAll(at: seq<Bytes>, names: seq<Bytes>): seq<Bytes>
    decreases |names|
  {
    if names == [] then at else FollowAll(Follow(at, names[0]), names[1..])
  }

  /** The place a path leads to from another, name by name between its slashes. */
  function Reached(at: seq<Bytes>, path: Bytes): seq<Bytes> {
    FollowAll(at, Split(path, 0x2F))
  }

  /** Names lead exactly that far down, where none of them stays or goes back; and otherwise elsewhere. */
  lemma {:induction false} FollowAllIs(at: seq<Bytes>, names: seq<Bytes>)
    requires forall name <- names :: name != []
    ensures FollowAll(at, names) == at + names <==> forall name <- names :: name != [DOT] && name != [DOT, DOT]
    ensures |FollowAll(at, names)| <= |at| + |names|
    decreases |names|
  {
    if names == [] {
      assert at + names == at;
    } else {
      assert names[0] in names && forall name <- names[1..] :: name in names;
      FollowAllIs(Follow(at, names[0]), names[1..]);
      assert names == [names[0]] + names[1..];
      if names[0] == [DOT] || names[0] == [DOT, DOT] {
        assert |FollowAll(at, names)| < |at| + |names|;
      } else {
        Regrouped(at, [names[0]], names[1..]);
      }
    }
  }

  lemma {:induction false} Nothing(at: seq<Bytes>)
    ensures Segments([]) == [] && Reached(at, []) == at
  {
    var parts := Split([], SLASH);
    assert parts == [[]] && parts[1..] == [];
    assert NonEmpty(parts) == NonEmpty(parts[1..]) == [];
    assert FollowAll(at, parts) == FollowAll(Follow(at, parts[0]), parts[1..]) == at;
  }

  lemma {:induction false} FollowedEmpties(at: seq<Bytes>, parts: seq<Bytes>)
    ensures FollowAll(at, NonEmpty(parts)) == FollowAll(at, parts)
    decreases |parts|
  {
    if parts != [] {
      FollowedEmpties(Follow(at, parts[0]), parts[1..]);
      var rest := NonEmpty(parts[1..]);
      if parts[0] != [] {
        assert ([parts[0]] + rest)[1..] == rest;
      } else {
        assert [] + rest == rest;
      }
    }
  }

  /** What a path that goes below is made of is always a name between slashes. */
  lemma {:induction false} FollowedHoldNoSlash(at: seq<Bytes>, parts: seq<Bytes>, depth: nat)
    requires forall part <- parts :: SLASH !in part
    requires forall i :: depth <= i < |at| ==> SLASH !in at[i]
    ensures forall i :: depth <= i < |FollowAll(at, parts)| ==> SLASH !in FollowAll(at, parts)[i]
    decreases |parts|
  {
    if parts != [] {
      var next := Follow(at, parts[0]);
      assert parts[0] in parts && forall part <- parts[1..] :: part in parts;
      assert forall i :: depth <= i < |next| ==> next[i] == if i < |at| then at[i] else parts[0];
      FollowedHoldNoSlash(next, parts[1..], depth);
    }
  }
}
