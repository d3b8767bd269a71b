/** Splitting and joining at dots (strings.Split and strings.Join with "."). */
module Segments {
  import opened Strings

  const DOT := '.'

  function Split(s: string): (parts: seq<string>)
    ensures |parts| >= 1
    decreases |s|
  {
    var i := FirstIndex(s, DOT);
    if i == |s| then [s] else [s[..i]] + Split(s[i + 1..])
  }

  function Join(parts: seq<string>, separator: string): string {
    if parts == [] then ""
    else if |parts| == 1 then parts[0]
    else parts[0] + separator + Join(parts[1..], separator)
  }

  /** strings.Join with an empty separator: the segments one after the other. */
  function Concat(parts: seq<string>): string {
    if parts == [] then "" else parts[0] + Concat(parts[1..])
  }

  function FilterEach(parts: seq<string>, keep: char -> bool): (r: seq<string>)
    ensures |r| == |parts|
    ensures forall i :: 0 <= i < |r| ==> r[i] == Filter(parts[i], keep)
  {
    if parts == [] then [] else [Filter(parts[0], keep)] + FilterEach(parts[1..], keep)
  }

  lemma SplitDotFree(s: string)
    requires DOT !in s
    ensures Split(s) == [s]
  {
    FirstIndexFinds(s, DOT);
  }

  lemma {:induction false} SplitAtFirst(a: string, b: string)
    requires DOT !in a
    ensures Split(a + [DOT] + b) == [a] + Split(b)
  {
    var s := a + [DOT] + b;
    FirstIndexBefore(a, DOT, b);
    assert s[..|a|] == a && s[|a| + 1..] == b;
  }

  /** Splitting around any dot splits both sides. */
  lemma {:induction false} SplitConcat(a: string, b: string)
    ensures Split(a + [DOT] + b) == Split(a) + Split(b)
    decreases |a|
  {
    FirstIndexFinds(a, DOT);
    var i := FirstIndex(a, DOT);
    if i == |a| {
      SplitDotFree(a);
      SplitAtFirst(a, b);
    } else {
      var head, tail := a[..i], a[i + 1..];
      assert a == head + [DOT] + tail;
      assert a + [DOT] + b == head + [DOT] + (tail + [DOT] + b);
      SplitAtFirst(head, tail + [DOT] + b);
      SplitConcat(tail, b);
    }
  }

  lemma {:induction false} SplitParts(s: string)
    ensures forall part :: part in Split(s) ==> DOT !in part
    decreases |s|
  {
    FirstIndexFinds(s, DOT);
    var i := FirstIndex(s, DOT);
    if i < |s| {
      SplitParts(s[i + 1..]);
    }
  }

  /** Splitting at the first dot. */
  lemma SplitUnfolds(s: string) returns (head: string, tail: string)
    requires DOT in s
    ensures s == head + [DOT] + tail && DOT !in head && Split(s) == [head] + Split(tail)
  {
    hide Split, FirstIndex;
    var i := FirstIndex(s, DOT);
    FirstIndexInside(s, DOT);
    SliceAround(s, i);
    head, tail := s[..i], s[i + 1..];
    SplitAtFirst(head, tail);
  }

  lemma JoinCons(head: string, parts: seq<string>, separator: string)
    requires parts != []
    ensures Join([head] + parts, separator) == head + separator + Join(parts, separator)
  {
    assert ([head] + parts)[1..] == parts;
  }

  lemma JoinOne(part: string, separator: string)
    ensures Join([part], separator) == part
  {
  }

  lemma {:induction false} JoinSplit(s: string)
    ensures Join(Split(s), [DOT]) == s
    decreases |s|
  {
    hide Split, Join;
    if DOT in s {
      var head, tail := SplitUnfolds(s);
      JoinSplit(tail);
      JoinCons(head, Split(tail), [DOT]);
    } else {
      SplitDotFree(s);
      JoinOne(s, [DOT]);
    }
  }

  lemma FilterEachCons(head: string, parts: seq<string>, keep: char -> bool)
    ensures FilterEach([head] + parts, keep) == [Filter(head, keep)] + FilterEach(parts, keep)
    ensures FilterEach([head], keep) == [Filter(head, keep)]
  {
    assert ([head] + parts)[1..] == parts;
  }

  lemma FilterAround(head: string, tail: string, keep: char -> bool)
    requires keep(DOT)
    ensures Filter(head + [DOT] + tail, keep) == Filter(head, keep) + [DOT] + Filter(tail, keep)
  {
    assert Filter([DOT], keep) == [DOT];
    hide Filter;
    FilterConcat(head + [DOT], tail, keep);
    FilterConcat(head, [DOT], keep);
  }

  /** Filtering that keeps dots commutes with splitting. */
  lemma {:induction false} SplitFilter(s: string, keep: char -> bool)
    requires keep(DOT)
    ensures Split(Filter(s, keep)) == FilterEach(Split(s), keep)
    decreases |s|
  {
    hide Split, Filter, FilterEach;
    if DOT in s {
      var head, tail := SplitUnfolds(s);
      FilterAround(head, tail, keep);
      FilterMembers(head, keep, DOT);
      SplitAtFirst(Filter(head, keep), Filter(tail, keep));
      SplitFilter(tail, keep);
      FilterEachCons(head, Split(tail), keep);
    } else {
      FilterMembers(s, keep, DOT);
      SplitDotFree(s);
      SplitDotFree(Filter(s, keep));
      FilterEachCons(s, [], keep);
    }
  }

  lemma {:induction false} ConcatFilter(parts: seq<string>, keep: char -> bool)
    ensures Concat(FilterEach(parts, keep)) == Filter(Concat(parts), keep)
  {
    if parts != [] {
      ConcatFilter(parts[1..], keep);
      FilterConcat(parts[0], Concat(parts[1..]), keep);
    }
  }

  lemma {:induction false} ConcatAppend(parts: seq<string>, last: string)
    ensures Concat(parts + [last]) == Concat(parts) + last
  {
    if parts == [] {
      assert parts + [last] == [last];
    } else {
      ConcatAppend(parts[1..], last);
      assert (parts + [last])[1..] == parts[1..] + [last];
    }
  }

  /** Dropping the dots, and more, from a joined text or from the concatenation is the same. */
  lemma {:induction false} FilterJoin(parts: seq<string>, keep: char -> bool)
    requires !keep(DOT)
    ensures Filter(Join(parts, [DOT]), keep) == Filter(Concat(parts), keep)
  {
    if |parts| == 1 {
      assert Concat(parts) == parts[0];
    } else if |parts| > 1 {
      FilterJoin(parts[1..], keep);
      var rest := Join(parts[1..], [DOT]);
      assert Join(parts, [DOT]) == parts[0] + ([DOT] + rest);
      FilterConcat(parts[0], [DOT] + rest, keep);
      assert Filter([DOT] + rest, keep) == Filter(rest, keep);
      FilterConcat(parts[0], Concat(parts[1..]), keep);
    }
  }

  lemma {:induction false} ConcatDotFree(parts: seq<string>)
    requires forall part :: part in parts ==> DOT !in part
    ensures DOT !in Concat(parts)
  {
    if parts != [] {
      ConcatDotFree(parts[1..]);
    }
  }
}
