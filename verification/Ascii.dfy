/** ASCII letters with and without regard to case, which is all the folding the service does. */
module Ascii {
  function UpperChar(c: char): char {
    if 'a' <= c <= 'z' then (c as int - 32) as char else c
  }

  function LowerChar(c: char): char {
    if 'A' <= c <= 'Z' then (c as int + 32) as char else c
  }

  function Upper(s: string): string {
    seq(|s|, i requires 0 <= i < |s| => UpperChar(s[i]))
  }

  function Lower(s: string): string {
    seq(|s|, i requires 0 <= i < |s| => LowerChar(s[i]))
  }

  /** Two words that differ at most by the case of their ASCII letters. */
  predicate SameFold(a: string, b: string) {
    Lower(a) == Lower(b)
  }

  predicate IsLetter(c: char) {
    'a' <= c <= 'z' || 'A' <= c <= 'Z'
  }

  /** One character, or one letter in its two cases, whose codes are 32 apart. */
  predicate SameButCaseAt(a: char, b: char) {
    a == b || (IsLetter(a) && IsLetter(b) && (a as int == b as int + 32 || b as int == a as int + 32))
  }

  /** The same word, character by character, but for the case of its letters. */
  predicate SameButCase(a: string, b: string) {
    |a| == |b| && forall i :: 0 <= i < |a| ==> SameButCaseAt(a[i], b[i])
  }

  /** Folding, down or up, identifies exactly the words that differ in nothing but the case of ASCII letters. */
  lemma {:induction false} SameFoldIs(a: string, b: string)
    ensures SameFold(a, b) <==> SameButCase(a, b)
    ensures Upper(a) == Upper(b) <==> SameButCase(a, b)
  {
    assert |Lower(a)| == |Upper(a)| == |a| && |Lower(b)| == |Upper(b)| == |b|;
    if |a| == |b| {
      forall i | 0 <= i < |a|
        ensures Lower(a)[i] == Lower(b)[i] <==> SameButCaseAt(a[i], b[i])
        ensures Upper(a)[i] == Upper(b)[i] <==> SameButCaseAt(a[i], b[i])
      {
      }
      assert Lower(a) == Lower(b) ==> forall i :: 0 <= i < |a| ==> Lower(a)[i] == Lower(b)[i];
      assert Upper(a) == Upper(b) ==> forall i :: 0 <= i < |a| ==> Upper(a)[i] == Upper(b)[i];
    }
  }

  /** White space around a word is not part of it. */
  predicate IsSpace(c: char) {
    c == ' ' || '\t' <= c <= '\r'
  }

  function Trim(s: string): string {
    if s != [] && IsSpace(s[0]) then Trim(s[1..])
    else if s != [] && IsSpace(s[|s| - 1]) then Trim(s[..|s| - 1])
    else s
  }

  /** A space, a tab or a break of a line or a page. */
  predicate IsBlank(c: char) {
    c as int == 32 || 9 <= c as int <= 13
  }

  /** Trimming takes white space off both ends, and all of it. */
  lemma {:induction false} TrimIs(s: string) returns (from: nat, to: nat)
    ensures from <= to <= |s| && Trim(s) == s[from..to]
    ensures forall i :: 0 <= i < from || to <= i < |s| ==> IsBlank(s[i])
    ensures from < to ==> !IsBlank(s[from]) && !IsBlank(s[to - 1])
    decreases |s|
  {
    if s != [] && IsSpace(s[0]) {
      from, to := TrimIs(s[1..]);
      assert s[1..][from..to] == s[from + 1..to + 1];
      from, to := from + 1, to + 1;
      assert forall i :: 0 < i < |s| ==> s[i] == s[1..][i - 1];
    } else if s != [] && IsSpace(s[|s| - 1]) {
      from, to := TrimIs(s[..|s| - 1]);
      assert s[..|s| - 1][from..to] == s[from..to];
    } else {
      from, to := 0, |s|;
      assert s[0..|s|] == s;
    }
  }

  /** Folding up and folding down identify the same words. */
  lemma {:induction false} LowerOfUpper(s: string)
    ensures Lower(s) == Lower(Upper(s))
  {
    assert |Lower(s)| == |Lower(Upper(s))|;
    forall i | 0 <= i < |s|
      ensures Lower(s)[i] == Lower(Upper(s))[i]
    {
    }
  }
}
