/** Event types of the form prefix.application.event.version. */
module EventTypes {
  import opened Strings
  import opened Segments
  import opened Subscriptions
  import opened EventMeshCleaner

  predicate OccursAt(s: string, p: string, i: nat) {
    i + |p| <= |s| && s[i..i + |p|] == p
  }

  predicate Occurs(s: string, p: string) {
    exists i :: 0 <= i <= |s| && OccursAt(s, p, i)
  }

  /** strings.ReplaceAll with an empty replacement: removes the occurrences from left to right. */
  function RemoveAll(s: string, p: string): (r: string)
    ensures |r| <= |s|
    decreases |s|
  {
    if p == "" || |s| < |p| then s
    else if s[..|p|] == p then RemoveAll(s[|p|..], p)
    else [s[0]] + RemoveAll(s[1..], p)
  }

  /** A text that does not start with `p` contains it exactly if the rest does. */
  lemma OccursLaterIff(s: string, p: string)
    requires p != "" && |s| >= |p| && s[..|p|] != p
    ensures Occurs(s, p) <==> Occurs(s[1..], p)
  {
    assert forall i: nat :: OccursAt(s[1..], p, i) <==> OccursAt(s, p, i + 1);
    if Occurs(s, p) {
      var i :| 0 <= i <= |s| && OccursAt(s, p, i);
      assert i > 0 && OccursAt(s[1..], p, i - 1);
    }
    if Occurs(s[1..], p) {
      var i :| 0 <= i <= |s| - 1 && OccursAt(s[1..], p, i);
      assert OccursAt(s, p, i + 1);
    }
  }

  lemma TooShortForOccurrence(s: string, p: string)
    requires |s| < |p|
    ensures !Occurs(s, p)
  {
  }

  /** Nothing is lost if and only if the text does not occur. */
  lemma {:induction false} RemoveAllKeepsIff(s: string, p: string)
    ensures RemoveAll(s, p) == s <==> p == "" || !Occurs(s, p)
    decreases |s|
  {
    hide Occurs, OccursAt;
    if p == "" {
    } else if |s| < |p| {
      TooShortForOccurrence(s, p);
    } else if s[..|p|] == p {
      PrefixOccurs(s, p);
    } else {
      RemoveAllKeepsIff(s[1..], p);
      OccursLaterIff(s, p);
    }
  }

  lemma PrefixOccurs(s: string, p: string)
    requires |s| >= |p| && s[..|p|] == p
    ensures Occurs(s, p)
  {
    assert OccursAt(s, p, 0);
  }

  function Build(prefix: string, application: string, event: string, version: string): string {
    var rest := application + [DOT] + event + [DOT] + version;
    if IsBlank(prefix) then rest else prefix + ([DOT] + rest)
  }

  datatype Parts = Parts(application: string, event: string, version: string)

  /** The application, the business object with its segments run together and the operation, the version. */
  function PartsOf(segments: seq<string>): Option<Parts> {
    var n := |segments|;
    if n < 4 then None
    else Some(Parts(segments[0], Concat(segments[1..n - 2]) + [DOT] + segments[n - 2], segments[n - 1]))
  }

  function Parse(eventType: string, prefix: string): Option<Parts> {
    if !HasPrefix(eventType, prefix) then None
    else PartsOf(Split(TrimPrefix(RemoveAll(eventType, prefix), [DOT])))
  }

  /** The prefix is empty, or it is not blank and does not recur in the rest of the event type. */
  predicate Suitable(prefix: string, rest: string) {
    prefix == "" || (!IsBlank(prefix) && !Occurs([DOT] + rest, prefix))
  }

  lemma ParseStripped(prefix: string, rest: string)
    requires Suitable(prefix, rest) && rest != "" && (prefix != "" || rest[0] != DOT)
    ensures Parse(if prefix == "" then rest else prefix + ([DOT] + rest), prefix) == PartsOf(Split(rest))
  {
    if prefix != "" {
      var s := prefix + ([DOT] + rest);
      assert s[..|prefix|] == prefix && s[|prefix|..] == [DOT] + rest;
      RemoveAllKeepsIff([DOT] + rest, prefix);
      assert RemoveAll(s, prefix) == [DOT] + rest;
      assert ([DOT] + rest)[..1] == [DOT] && ([DOT] + rest)[1..] == rest;
    } else {
      assert RemoveAll(rest, prefix) == rest;
    }
  }

  /** The event type after the prefix, when the business object may have several segments. */
  lemma RestSegments(application: string, business: string, operation: string, version: string)
    requires DOT !in application && DOT !in operation && DOT !in version
    ensures Split(application + [DOT] + (business + [DOT] + operation) + [DOT] + version) == [application] + Split(business) + [operation, version]
  {
    hide Split;
    var event := business + [DOT] + operation;
    SplitDotFree(application);
    SplitDotFree(operation);
    SplitDotFree(version);
    SplitConcat(business, operation);
    SplitConcat(application, event);
    SplitConcat(application + [DOT] + event, version);
    assert [application] + (Split(business) + [operation]) + [version] == [application] + Split(business) + [operation, version];
  }

  lemma ConcatIsWholeIff(business: string)
    ensures Concat(Split(business)) == business <==> DOT !in business
  {
    SplitParts(business);
    ConcatDotFree(Split(business));
    if DOT !in business {
      SplitDotFree(business);
    }
  }

  /** Parsing what was built gives the parts back, if and only if the business object is one segment. */
  lemma ParseBuildRoundTrip(prefix: string, application: string, business: string, operation: string, version: string)
    requires DOT !in application && DOT !in operation && DOT !in version
    requires Suitable(prefix, application + [DOT] + (business + [DOT] + operation) + [DOT] + version)
    requires prefix != "" || application != ""
    ensures var event := business + [DOT] + operation;
            var parsed := Parse(Build(prefix, application, event, version), prefix);
            && parsed == Some(Parts(application, Concat(Split(business)) + [DOT] + operation, version))
            && (parsed == Some(Parts(application, event, version)) <==> DOT !in business)
  {
    hide Split, Parse, RemoveAll, Concat, Occurs, PartsOf;
    var event := business + [DOT] + operation;
    var rest := application + [DOT] + event + [DOT] + version;
    assert application != "" ==> rest[0] == application[0];
    ParseStripped(prefix, rest);
    RestSegments(application, business, operation, version);
    PartsOfSegments(application, Split(business), operation, version);
    ConcatIsWholeIff(business);
    SameFront(Concat(Split(business)), business, [DOT] + operation);
    assert Concat(Split(business)) + [DOT] + operation == Concat(Split(business)) + ([DOT] + operation);
    assert event == business + ([DOT] + operation);
  }

  lemma PartsOfSegments(application: string, middle: seq<string>, operation: string, version: string)
    requires middle != []
    ensures PartsOf([application] + middle + [operation, version]) == Some(Parts(application, Concat(middle) + [DOT] + operation, version))
  {
    var segments := [application] + middle + [operation, version];
    assert segments[1..|segments| - 2] == middle;
  }

  lemma SameFront(a: string, b: string, back: string)
    ensures a + back == b + back <==> a == b
  {
    if a + back == b + back {
      assert |a + back| == |a| + |back| && |b + back| == |b| + |back|;
      assert a == (a + back)[..|a|] && b == (b + back)[..|b|];
    }
  }

  // ---- cleaning ----

  function Clean(eventType: string, prefix: string): Option<string> {
    match Parse(eventType, prefix)
    case None => None
    case Some(parts) =>
      Some(Filter(Build(prefix, Filter(parts.application, Alphanumeric), parts.event, parts.version), ValidTypeCharacter))
  }

  /** What parsing yields: an application, a business object, an operation and a version without dots. */
  lemma ParsedParts(segments: seq<string>)
    requires |segments| >= 4 && forall part :: part in segments ==> DOT !in part
    ensures var n := |segments|;
            var business := Concat(segments[1..n - 2]);
            && PartsOf(segments) == Some(Parts(segments[0], business + [DOT] + segments[n - 2], segments[n - 1]))
            && DOT !in segments[0] && DOT !in business && DOT !in segments[n - 2] && DOT !in segments[n - 1]
  {
    ConcatDotFree(segments[1..|segments| - 2]);
  }

  lemma FilterRest(application: string, business: string, operation: string, version: string)
    ensures var keep := ValidTypeCharacter;
            Filter(application + [DOT] + (business + [DOT] + operation) + [DOT] + version, keep)
            == Filter(application, keep) + [DOT] + (Filter(business, keep) + [DOT] + Filter(operation, keep)) + [DOT] + Filter(version, keep)
  {
    var keep := ValidTypeCharacter;
    assert Filter([DOT], keep) == [DOT];
    hide Filter;
    var event := business + [DOT] + operation;
    FilterConcat(business + [DOT], operation, keep);
    FilterConcat(business, [DOT], keep);
    FilterConcat(application + [DOT] + event + [DOT], version, keep);
    FilterConcat(application + [DOT] + event, [DOT], keep);
    FilterConcat(application + [DOT], event, keep);
    FilterConcat(application, [DOT], keep);
  }

  predicate CleanPrefix(prefix: string) {
    forall c :: c in prefix ==> ValidTypeCharacter(c)
  }

  lemma CleanPrefixNotBlank(prefix: string)
    requires CleanPrefix(prefix)
    ensures IsBlank(prefix) <==> prefix == ""
  {
    if prefix != "" {
      assert prefix[0] in prefix;
    }
  }

  /** The cleaned name of the application of an event type. */
  function CleanApplication(eventType: string, prefix: string): string {
    Filter(Split(TrimPrefix(RemoveAll(eventType, prefix), [DOT]))[0], Alphanumeric)
  }

  /** The parts of an event type have only the characters that cleaning keeps, and one segment each. */
  predicate CleanParts(application: string, business: string, operation: string, version: string) {
    && DOT !in application && DOT !in business && DOT !in operation && DOT !in version
    && Filter(application, Alphanumeric) == application
    && forall s :: s in [application, business, operation, version] ==> Filter(s, ValidTypeCharacter) == s
  }

  /** The parts of a cleaned event type are clean. */
  lemma CleanedShape(eventType: string, prefix: string) returns (application: string, business: string, operation: string, version: string)
    requires CleanPrefix(prefix) && Clean(eventType, prefix).Some?
    ensures CleanParts(application, business, operation, version)
    ensures Clean(eventType, prefix) == Some(Build(prefix, application, business + [DOT] + operation, version))
    ensures application == CleanApplication(eventType, prefix)
  {
    var keep := ValidTypeCharacter;
    var left := TrimPrefix(RemoveAll(eventType, prefix), [DOT]);
    hide Split, RemoveAll, Filter, Concat, TrimPrefix;
    var segments := Split(left);
    SplitParts(left);
    assert |segments| >= 4;
    ParsedParts(segments);
    var n := |segments|;
    var a, b, o, v := segments[0], Concat(segments[1..n - 2]), segments[n - 2], segments[n - 1];
    application, business, operation, version := Filter(a, Alphanumeric), Filter(b, keep), Filter(o, keep), Filter(v, keep);
    CleanPart(b);
    CleanPart(o);
    CleanPart(v);
    FilterTwice(a, Alphanumeric, Alphanumeric);
    FilterAgain(a);
    FilterMembers(a, Alphanumeric, DOT);
    FilteredBuild(prefix, application, b, o, v);
  }

  lemma CleanPart(s: string)
    requires DOT !in s
    ensures DOT !in Filter(s, ValidTypeCharacter) && Filter(Filter(s, ValidTypeCharacter), ValidTypeCharacter) == Filter(s, ValidTypeCharacter)
  {
    FilterTwice(s, ValidTypeCharacter, ValidTypeCharacter);
    FilterMembers(s, ValidTypeCharacter, DOT);
  }

  /** Cleaning what was built with a clean prefix cleans the parts. */
  lemma FilteredBuild(prefix: string, application: string, business: string, operation: string, version: string)
    requires CleanPrefix(prefix)
    ensures var keep := ValidTypeCharacter;
            Filter(Build(prefix, application, business + [DOT] + operation, version), keep)
            == Build(prefix, Filter(application, keep), Filter(business, keep) + [DOT] + Filter(operation, keep), Filter(version, keep))
  {
    hide Filter;
    var keep := ValidTypeCharacter;
    CleanPrefixNotBlank(prefix);
    var rest := application + [DOT] + (business + [DOT] + operation) + [DOT] + version;
    FilterRest(application, business, operation, version);
    FilterAll(prefix, keep);
    FilterAll([DOT], keep);
    FilterConcat(prefix, [DOT] + rest, keep);
    FilterConcat([DOT], rest, keep);
  }

  lemma FilterAgain(s: string)
    ensures Filter(Filter(s, Alphanumeric), ValidTypeCharacter) == Filter(s, Alphanumeric)
  {
    forall c | c in Filter(s, Alphanumeric)
      ensures ValidTypeCharacter(c)
    {
      FilterMembers(s, Alphanumeric, c);
    }
    FilterAll(Filter(s, Alphanumeric), ValidTypeCharacter);
  }

  /** A type built from clean parts is left alone if and only if its prefix does not recur behind itself; and
      without a prefix if and only if its application has a name. */
  lemma CleanKeepsIff(prefix: string, a: string, b: string, o: string, v: string)
    requires CleanPrefix(prefix) && CleanParts(a, b, o, v)
    ensures var rest := a + [DOT] + (b + [DOT] + o) + [DOT] + v;
            var built := if prefix == "" then rest else prefix + ([DOT] + rest);
            && Build(prefix, a, b + [DOT] + o, v) == built
            && (Clean(built, prefix) == Some(built) <==> if prefix == "" then a != "" else !Occurs([DOT] + rest, prefix))
  {
    CleanPrefixNotBlank(prefix);
    var rest := a + [DOT] + (b + [DOT] + o) + [DOT] + v;
    var built := Build(prefix, a, b + [DOT] + o, v);
    hide Clean, Filter, RemoveAll, Split, Occurs;
    if prefix != "" {
      assert built == prefix + ([DOT] + rest);
      if Occurs([DOT] + rest, prefix) {
        RecurringPrefixIsLost(prefix, rest);
      }
    }
    if if prefix == "" then a != "" else !Occurs([DOT] + rest, prefix) {
      ParseBuildRoundTrip(prefix, a, b, o, v);
      CleanAgain(built, prefix, a, b, o, v);
    }
    if prefix == "" && a == "" {
      NamelessIsRefused(b, o, v);
      assert built == rest;
      CleanRefused(built, prefix);
    }
  }

  /** So cleaning what was cleaned changes nothing if and only if the prefix does not recur in it; and without
      a prefix if and only if the application's name is not cleaned away. */
  lemma CleanIsIdempotentIff(eventType: string, prefix: string)
    requires CleanPrefix(prefix) && Clean(eventType, prefix).Some?
    ensures var cleaned := Clean(eventType, prefix).value;
            && |cleaned| > |prefix|
            && (Clean(cleaned, prefix) == Some(cleaned) <==>
                  if prefix == "" then CleanApplication(eventType, prefix) != "" else !Occurs(cleaned[|prefix|..], prefix))
  {
    hide CleanApplication;
    var a, b, o, v := CleanedShape(eventType, prefix);
    hide Clean, Occurs;
    CleanKeepsIff(prefix, a, b, o, v);
    var rest := a + [DOT] + (b + [DOT] + o) + [DOT] + v;
    assert prefix != "" ==> (prefix + ([DOT] + rest))[|prefix|..] == [DOT] + rest;
  }

  lemma {:induction false} RemoveAllLoses(s: string, p: string)
    requires p != "" && Occurs(s, p)
    ensures |RemoveAll(s, p)| + |p| <= |s|
    decreases |s|
  {
    hide Occurs, OccursAt;
    if |s| < |p| {
      TooShortForOccurrence(s, p);
    } else if s[..|p|] != p {
      OccursLaterIff(s, p);
      RemoveAllLoses(s[1..], p);
    }
  }

  lemma {:induction false} RemovingDots(s: string)
    ensures DOT !in RemoveAll(s, [DOT])
    decreases |s|
  {
    if s != "" {
      assert s[..1] == [s[0]];
      RemovingDots(s[1..]);
    }
  }

  lemma {:induction false} JoinLength(parts: seq<string>)
    ensures |Join(parts, [DOT])| >= |Concat(parts)| + |parts| - 1
  {
    if |parts| > 1 {
      JoinLength(parts[1..]);
    }
  }

  /** Parsing makes nothing longer. */
  lemma PartsLength(s: string)
    requires PartsOf(Split(s)).Some?
    ensures var parts := PartsOf(Split(s)).value; |parts.application| + |parts.event| + |parts.version| + 2 <= |s|
  {
    hide Split, Join;
    var segments := Split(s);
    JoinSplit(s);
    JoinLength(segments);
    var n := |segments|;
    var middle, operation, version := segments[1..n - 2], segments[n - 2], segments[n - 1];
    assert segments == [segments[0]] + (middle + [operation, version]);
    assert segments[1..] == middle + [operation, version];
    ConcatLastTwo(middle, operation, version);
  }

  lemma CleanLength(eventType: string, prefix: string)
    requires !IsBlank(prefix) && Clean(eventType, prefix).Some?
    ensures |Clean(eventType, prefix).value| <= |prefix| + 1 + |TrimPrefix(RemoveAll(eventType, prefix), [DOT])|
  {
    hide Split, RemoveAll, Filter;
    PartsLength(TrimPrefix(RemoveAll(eventType, prefix), [DOT]));
  }

  /** A prefix that recurs is removed there too, so that the cleaned type gets shorter or is refused. */
  lemma RecurringPrefixIsLost(prefix: string, rest: string)
    requires CleanPrefix(prefix) && prefix != "" && Occurs([DOT] + rest, prefix)
    ensures Clean(prefix + ([DOT] + rest), prefix) != Some(prefix + ([DOT] + rest))
  {
    CleanPrefixNotBlank(prefix);
    var s, tail := prefix + ([DOT] + rest), [DOT] + rest;
    assert s[..|prefix|] == prefix && s[|prefix|..] == tail;
    RemoveAllLoses(tail, prefix);
    var left := RemoveAll(tail, prefix);
    assert RemoveAll(s, prefix) == left;
    if prefix == [DOT] {
      RemovingDots(tail);
      assert left == TrimPrefix(left, [DOT]);
      SplitDotFree(left);
    } else if |prefix| == 1 {
      assert tail[..1] == [DOT] && left[0] == DOT;
      assert |TrimPrefix(left, [DOT])| == |left| - 1;
    }
    hide RemoveAll, Split, Filter;
    if Clean(s, prefix).Some? {
      CleanLength(s, prefix);
    }
  }

  lemma CleanRefused(eventType: string, prefix: string)
    requires Parse(eventType, prefix).None?
    ensures Clean(eventType, prefix).None?
  {
  }

  lemma CleanAgain(cleaned: string, prefix: string, a: string, b: string, o: string, v: string)
    requires cleaned == Build(prefix, a, b + [DOT] + o, v) && Parse(cleaned, prefix) == Some(Parts(a, b + [DOT] + o, v))
    requires Filter(a, Alphanumeric) == a && CleanPrefix(prefix)
    requires forall s :: s in [a, b, o, v] ==> Filter(s, ValidTypeCharacter) == s
    ensures Clean(cleaned, prefix) == Some(cleaned)
  {
    hide Parse, Filter;
    assert a in [a, b, o, v] && b in [a, b, o, v] && o in [a, b, o, v] && v in [a, b, o, v];
    FilteredBuild(prefix, a, b, o, v);
  }

  lemma NamelessIsRefused(business: string, operation: string, version: string)
    requires DOT !in business && DOT !in operation && DOT !in version
    ensures Parse("" + [DOT] + (business + [DOT] + operation) + [DOT] + version, "").None?
  {
    var rest := business + [DOT] + operation + [DOT] + version;
    var whole := "" + [DOT] + (business + [DOT] + operation) + [DOT] + version;
    assert whole == [DOT] + rest && whole[..1] == [DOT] && whole[1..] == rest;
    assert RemoveAll(whole, "") == whole;
    SplitThree(business, operation, version);
  }
}
