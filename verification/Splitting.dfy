/** A sequence cut at a separator, and put together again. */
module Splitting {
  /** How far it is to the first separator, or to the end. */
  function Before<T(==)>(s: seq<T>, sep: T): (n: nat)
    ensures n <= |s| && sep !in s[..n] && (n < |s| ==> s[n] == sep)
  {
    if s == [] || s[0] == sep then 0
    else
      var n := 1 + Before(s[1..], sep);
      assert s[..n] == [s[0]] + s[1..][..n - 1];
      n
  }

  /** The parts between separators, the empty ones too; nothing is one empty part. */
  function Split<T(==)>(s: seq<T>, sep: T): (parts: seq<seq<T>>)
    ensures parts != []
    decreases |s|
  {
    var n := Before(s, sep);
    if n == |s| then [s] else [s[..n]] + Split(s[n + 1..], sep)
  }

  function Join<T>(parts: seq<seq<T>>, sep: T): seq<T> {
    if parts == [] then []
    else if |parts| == 1 then parts[0]
    else parts[0] + [sep] + Join(parts[1..], sep)
  }

  lemma {:induction false} BeforeIs<T>(s: seq<T>, sep: T, rest: seq<T>)
    requires sep !in s && (rest == [] || rest[0] == sep)
    ensures Before(s + rest, sep) == |s|
  {
    if s == [] {
      assert s + rest == rest;
    } else {
      BeforeIs(s[1..], sep, rest);
      assert (s + rest)[1..] == s[1..] + rest;
    }
  }

  /** Putting the parts together again gives back what was cut. */
  lemma {:induction false} JoinOfSplit<T>(s: seq<T>, sep: T)
    ensures Join(Split(s, sep), sep) == s
    decreases |s|
  {
    var n := Before(s, sep);
    if n < |s| {
      JoinOfSplit(s[n + 1..], sep);
      assert s == s[..n] + [sep] + s[n + 1..];
    }
  }

  /** The first part comes off what was put together. */
  lemma {:induction false} SplitOfSum<T>(part: seq<T>, sep: T, rest: seq<T>)
    requires sep !in part
    ensures Split(part + [sep] + rest, sep) == [part] + Split(rest, sep)
  {
    var joined := part + [sep] + rest;
    BeforeIs(part, sep, [sep] + rest);
    Regrouped(part, [sep], rest);
    assert joined[..|part|] == part && joined[|part| + 1..] == rest;
  }

  /** Parts without a separator in them come apart as they were put together. */
  lemma {:induction false} SplitOfJoin<T>(parts: seq<seq<T>>, sep: T)
    requires parts != [] && forall part <- parts :: sep !in part
    ensures Split(Join(parts, sep), sep) == parts
  {
    if |parts| == 1 {
      BeforeIs(parts[0], sep, []);
      assert parts[0] + [] == parts[0];
    } else {
      SplitOfJoin(parts[1..], sep);
      SplitOfSum(parts[0], sep, Join(parts[1..], sep));
      assert parts == [parts[0]] + parts[1..];
    }
  }

  /** What is put together and gone on from comes apart into those parts and what follows. */
  lemma {:induction false} SplitPastJoin<T>(parts: seq<seq<T>>, sep: T, rest: seq<T>)
    requires parts != [] && forall part <- parts :: sep !in part
    ensures Split(Join(parts, sep) + ([sep] + rest), sep) == parts + Split(rest, sep)
  {
    if |parts| == 1 {
      SplitOfSum(parts[0], sep, rest);
      Regrouped(parts[0], [sep], rest);
    } else {
      SplitPastJoin(parts[1..], sep, rest);
      SplitPastOne(parts[0], sep, Join(parts[1..], sep), [sep] + rest);
      HeadOfSum(parts, Split(rest, sep));
    }
  }

  lemma {:induction false} HeadOfSum<T>(a: seq<T>, b: seq<T>)
    requires a != []
    ensures a + b == [a[0]] + (a[1..] + b)
  {
  }

  lemma {:induction false} SplitPastOne<T>(part: seq<T>, sep: T, joined: seq<T>, rest: seq<T>)
    requires sep !in part
    ensures Split(part + [sep] + joined + rest, sep) == [part] + Split(joined + rest, sep)
  {
    SplitOfSum(part, sep, joined + rest);
    Regrouped(part + [sep], joined, rest);
  }

  lemma {:induction false} Regrouped<T>(a: seq<T>, b: seq<T>, c: seq<T>)
    ensures (a + b) + c == a + (b + c)
  {
  }

  lemma {:induction false} PartsHoldNoSeparator<T>(s: seq<T>, sep: T)
    ensures forall part <- Split(s, sep) :: sep !in part
    decreases |s|
  {
    var n := Before(s, sep);
    if n < |s| {
      PartsHoldNoSeparator(s[n + 1..], sep);
    } else {
      assert s[..n] == s;
    }
  }
}
