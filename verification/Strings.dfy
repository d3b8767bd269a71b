/** The string primitives of the Go standard library that the modelled code calls. */
module Strings {

  /** The last position of `c` in `s`, or -1 (strings.LastIndex for a one-character separator). */
  function LastIndex(s: string, c: char): (i: int)
    ensures -1 <= i < |s|
  {
    if s == [] then -1
    else if s[|s| - 1] == c then |s| - 1
    else LastIndex(s[..|s| - 1], c)
  }

  lemma {:induction false} LastIndexFinds(s: string, c: char)
    ensures var i := LastIndex(s, c);
            && (i >= 0 ==> s[i] == c)
            && forall j :: i < j < |s| ==> s[j] != c
  {
    if s != [] && s[|s| - 1] != c {
      LastIndexFinds(s[..|s| - 1], c);
    }
  }

  lemma {:induction false} LastIndexAfter(a: string, c: char, b: string)
    requires c !in b
    ensures LastIndex(a + [c] + b, c) == |a|
  {
    var s := a + [c] + b;
    LastIndexFinds(s, c);
    assert s[|a|] == c;
    forall j | |a| < j < |s|
      ensures s[j] != c
    {
      assert s[j] == b[j - |a| - 1];
    }
  }

  /** The first position of `c` in `s`, or |s| when there is none. */
  function FirstIndex(s: string, c: char): (i: nat)
    ensures i <= |s|
  {
    if s == [] || s[0] == c then 0 else 1 + FirstIndex(s[1..], c)
  }

  lemma {:induction false} FirstIndexFinds(s: string, c: char)
    ensures var i := FirstIndex(s, c);
            && (i < |s| ==> s[i] == c)
            && forall j :: 0 <= j < i ==> s[j] != c
  {
    if s != [] && s[0] != c {
      FirstIndexFinds(s[1..], c);
      var i := FirstIndex(s, c);
      assert forall j :: 0 < j < |s| ==> s[j] == s[1..][j - 1];
    }
  }

  lemma {:induction false} FirstIndexInside(s: string, c: char)
    requires c in s
    ensures var i := FirstIndex(s, c); i < |s| && s[i] == c && c !in s[..i]
  {
    if s[0] != c {
      var i := FirstIndex(s[1..], c);
      FirstIndexInside(s[1..], c);
      assert s[..i + 1] == [s[0]] + s[1..][..i];
    }
  }

  lemma SliceAround(s: string, i: nat)
    requires i < |s|
    ensures s == s[..i] + [s[i]] + s[i + 1..]
  {
  }

  lemma {:induction false} FirstIndexBefore(a: string, c: char, b: string)
    requires c !in a
    ensures FirstIndex(a + [c] + b, c) == |a|
  {
    var s := a + [c] + b;
    FirstIndexFinds(s, c);
    assert s[|a|] == c;
    assert forall j :: 0 <= j < |a| ==> s[j] == a[j];
  }

  /** Keeps the characters that satisfy `keep` (regexp ReplaceAllString of the others by ""). */
  function Filter(s: string, keep: char -> bool): (r: string)
    ensures |r| <= |s|
  {
    if s == [] then []
    else if keep(s[0]) then [s[0]] + Filter(s[1..], keep)
    else Filter(s[1..], keep)
  }

  lemma {:induction false} FilterMembers(s: string, keep: char -> bool, c: char)
    ensures c in Filter(s, keep) <==> c in s && keep(c)
  {
    if s != [] {
      FilterMembers(s[1..], keep, c);
      assert c in s <==> c == s[0] || c in s[1..];
    }
  }

  lemma {:induction false} FilterConcat(a: string, b: string, keep: char -> bool)
    ensures Filter(a + b, keep) == Filter(a, keep) + Filter(b, keep)
  {
    if a == [] {
      assert a + b == b;
    } else {
      assert (a + b)[0] == a[0] && (a + b)[1..] == a[1..] + b;
      FilterConcat(a[1..], b, keep);
    }
  }

  lemma {:induction false} FilterAll(s: string, keep: char -> bool)
    requires forall c :: c in s ==> keep(c)
    ensures Filter(s, keep) == s
  {
    if s != [] {
      FilterAll(s[1..], keep);
    }
  }

  /** Filtering twice, the second time more strictly, is filtering once. */
  lemma {:induction false} FilterTwice(s: string, p: char -> bool, q: char -> bool)
    requires forall c :: q(c) ==> p(c)
    ensures Filter(Filter(s, p), q) == Filter(s, q)
  {
    if s != [] {
      FilterTwice(s[1..], p, q);
      if p(s[0]) {
        assert Filter(s, p)[0] == s[0] && Filter(s, p)[1..] == Filter(s[1..], p);
      }
    }
  }

  /** strings.HasPrefix. */
  predicate HasPrefix(s: string, p: string) {
    p <= s
  }

  /** strings.TrimPrefix. */
  function TrimPrefix(s: string, p: string): string {
    if HasPrefix(s, p) then s[|p|..] else s
  }

  /** strings.TrimSpace leaves nothing, for ASCII. */
  predicate IsBlank(s: string) {
    forall c :: c in s ==> c == ' ' || '\t' <= c <= '\r'
  }

  /** Spaces, tabs, and the other characters that break a line or a page. */
  predicate OnlySpaces(s: string) {
    forall c :: c in s ==> c in {' ', '\t', '\n', '\U{000B}', '\U{000C}', '\r'}
  }

  lemma BlankIff(s: string)
    ensures IsBlank(s) <==> OnlySpaces(s)
  {
  }
}
