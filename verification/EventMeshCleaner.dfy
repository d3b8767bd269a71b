/** The EventMesh cleaner: event types are cut down to alphanumeric characters in at most three segments. */
module EventMeshCleaner {
  import opened Strings
  import opened Segments

  const MAX_SEGMENTS := 3

  predicate Alphanumeric(c: char) {
    'a' <= c <= 'z' || 'A' <= c <= 'Z' || '0' <= c <= '9'
  }

  predicate ValidTypeCharacter(c: char) {
    Alphanumeric(c) || c == DOT
  }

  function CleanSource(source: string): string {
    Filter(source, Alphanumeric)
  }

  function CleanEventType(eventType: string): string {
    Filter(Merged(eventType), ValidTypeCharacter)
  }

  /** The result of getMergedSegments: all but the last two segments run together. */
  function Merged(eventType: string): string {
    var segments := Split(eventType);
    var n := |segments|;
    if n > MAX_SEGMENTS then Concat(segments[..n - 2]) + [DOT] + segments[n - 2] + [DOT] + segments[n - 1]
    else eventType
  }

  lemma ConcatNone()
    ensures Concat([]) == ""
  {
  }

  lemma ConcatGrows(segments: seq<string>, i: nat)
    requires i < |segments|
    ensures Concat(segments[..i + 1]) == Concat(segments[..i]) + segments[i]
  {
    hide Concat;
    assert segments[..i + 1] == segments[..i] + [segments[i]];
    ConcatAppend(segments[..i], segments[i]);
  }

  method GetMergedSegments(eventType: string) returns (merged: string)
    ensures merged == Merged(eventType)
  {
    hide Split, Concat;
    var segments := Split(eventType);
    var total := |segments|;
    if total > MAX_SEGMENTS {
      var combined := "";
      ConcatNone();
      for i := 0 to total - 2
        invariant combined == Concat(segments[..i])
      {
        ConcatGrows(segments, i);
        combined := combined + segments[i];
      }
      return combined + [DOT] + segments[total - 2] + [DOT] + segments[total - 1];
    }
    merged := eventType;
  }

  function Min(a: int, b: int): int {
    if a < b then a else b
  }

  lemma {:induction false} SplitThree(a: string, b: string, c: string)
    requires DOT !in a && DOT !in b && DOT !in c
    ensures Split(a + [DOT] + b + [DOT] + c) == [a, b, c]
  {
    SplitDotFree(a);
    SplitDotFree(b);
    SplitDotFree(c);
    SplitConcat(a, b);
    SplitConcat(a + [DOT] + b, c);
  }

  lemma MergedSegments(eventType: string)
    ensures |Split(Merged(eventType))| == Min(MAX_SEGMENTS, |Split(eventType)|)
    ensures |Split(eventType)| > MAX_SEGMENTS ==>
      var segments := Split(eventType);
      var n := |segments|;
      Split(Merged(eventType)) == [Concat(segments[..n - 2]), segments[n - 2], segments[n - 1]]
  {
    hide Split, Concat;
    var segments := Split(eventType);
    var n := |segments|;
    if n > MAX_SEGMENTS {
      SplitParts(eventType);
      ConcatDotFree(segments[..n - 2]);
      SplitThree(Concat(segments[..n - 2]), segments[n - 2], segments[n - 1]);
    }
  }

  /** A clean type has as many segments as the original, but at most three. */
  lemma CleanSegments(eventType: string)
    ensures |Split(CleanEventType(eventType))| == Min(3, |Split(eventType)|)
  {
    MergedSegments(eventType);
    SplitFilter(Merged(eventType), ValidTypeCharacter);
  }

  /** Cleaning the characters and merging the segments can be done in either order. */
  lemma CleaningCommutesWithMerging(eventType: string)
    ensures CleanEventType(eventType) == Merged(Filter(eventType, ValidTypeCharacter))
  {
    var left, right := CleanEventType(eventType), Merged(Filter(eventType, ValidTypeCharacter));
    if |Split(eventType)| > MAX_SEGMENTS {
      SegmentsOfCleanMerged(eventType);
      SegmentsOfMergedClean(eventType);
      JoinSplit(left);
      JoinSplit(right);
      hide Merged, CleanEventType, Join;
      assert Split(left) == Split(right);
    } else {
      SplitFilter(eventType, ValidTypeCharacter);
    }
  }

  lemma SegmentsOfCleanMerged(eventType: string)
    requires |Split(eventType)| > MAX_SEGMENTS
    ensures var segments, keep := Split(eventType), ValidTypeCharacter;
            var n := |segments|;
            Split(CleanEventType(eventType))
            == [Filter(Concat(segments[..n - 2]), keep), Filter(segments[n - 2], keep), Filter(segments[n - 1], keep)]
  {
    MergedSegments(eventType);
    SplitFilter(Merged(eventType), ValidTypeCharacter);
  }

  lemma SegmentsOfMergedClean(eventType: string)
    requires |Split(eventType)| > MAX_SEGMENTS
    ensures var segments, keep := Split(eventType), ValidTypeCharacter;
            var n := |segments|;
            Split(Merged(Filter(eventType, keep)))
            == [Filter(Concat(segments[..n - 2]), keep), Filter(segments[n - 2], keep), Filter(segments[n - 1], keep)]
  {
    hide Split, Merged, Filter, Concat, FilterEach;
    var segments, keep := Split(eventType), ValidTypeCharacter;
    var n := |segments|;
    SplitFilter(eventType, keep);
    MergedSegments(Filter(eventType, keep));
    ConcatFilter(segments[..n - 2], keep);
    FilterEachPrefix(segments, n - 2, keep);
  }

  lemma FilterEachPrefix(parts: seq<string>, n: nat, keep: char -> bool)
    requires n <= |parts|
    ensures FilterEach(parts[..n], keep) == FilterEach(parts, keep)[..n]
  {
    hide Filter, FilterEach;
  }

  lemma CleaningIsIdempotent(eventType: string)
    ensures CleanEventType(CleanEventType(eventType)) == CleanEventType(eventType)
  {
    var clean := CleanEventType(eventType);
    CleanSegments(eventType);
    assert Merged(clean) == clean;
    FilterTwice(Merged(eventType), ValidTypeCharacter, ValidTypeCharacter);
  }

  /** Cleaning keeps all alphanumeric characters, in their order. */
  lemma CleaningKeepsAlphanumerics(eventType: string)
    ensures Filter(CleanEventType(eventType), Alphanumeric) == Filter(eventType, Alphanumeric)
  {
    FilterTwice(Merged(eventType), ValidTypeCharacter, Alphanumeric);
    var segments := Split(eventType);
    if |segments| > MAX_SEGMENTS {
      MergingKeepsConcat(eventType);
      JoinSplit(eventType);
      FilterJoin(segments, Alphanumeric);
      JoinSplit(Merged(eventType));
      FilterJoin(Split(Merged(eventType)), Alphanumeric);
    }
  }

  lemma {:induction false} ConcatLastTwo(parts: seq<string>, a: string, b: string)
    ensures Concat(parts + [a, b]) == Concat(parts) + a + b
  {
    ConcatAppend(parts, a);
    ConcatAppend(parts + [a], b);
    assert parts + [a, b] == parts + [a] + [b];
  }

  lemma MergingKeepsConcat(eventType: string)
    ensures Concat(Split(Merged(eventType))) == Concat(Split(eventType))
  {
    hide Split;
    MergedSegments(eventType);
    var segments := Split(eventType);
    var n := |segments|;
    if n > MAX_SEGMENTS {
      hide Merged;
      var init, a, b := segments[..n - 2], segments[n - 2], segments[n - 1];
      assert segments == init + [a, b];
      ConcatLastTwo(init, a, b);
      ConcatLastTwo([Concat(init)], a, b);
      assert [Concat(init), a, b] == [Concat(init)] + [a, b];
    }
  }

  lemma CleanSourceIsOneSegment(source: string)
    ensures DOT !in CleanSource(source) && Split(CleanSource(source)) == [CleanSource(source)]
  {
    FilterMembers(source, Alphanumeric, DOT);
    SplitDotFree(CleanSource(source));
  }

  /** Of a type letters, digits and dots are kept, and of a source letters and digits, by their codes in ASCII. */
  lemma KeptCharacters(a: string, b: string, c: char)
    ensures CleanSource(a + b) == CleanSource(a) + CleanSource(b)
    ensures var code := c as int;
            var alphanumeric := 48 <= code <= 57 || 65 <= code <= 90 || 97 <= code <= 122;
            && CleanSource([c]) == (if alphanumeric then [c] else "")
            && Filter([c], ValidTypeCharacter) == (if alphanumeric || code == 46 then [c] else "")
    ensures |Split(a)| <= 3 ==> CleanEventType(a) == Filter(a, ValidTypeCharacter)
  {
    FilterConcat(a, b, Alphanumeric);
  }
}
