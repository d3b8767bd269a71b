/** The checks on the spec of a Subscription that the backends rely on. */
module Validation {
  import opened Strings
  import opened Segments
  import opened Subscriptions
  import opened ListEquality
  import opened Sinks

  const MIN_EVENT_TYPE_SEGMENTS := 2
  const SUBDOMAIN_SEGMENTS := 5
  const RESERVED_PREFIX := "sap.kyma.custom"
  const CLUSTER_LOCAL_SUFFIX := "svc.cluster.local"

  // ---- types ----

  function Count(items: seq<string>, t: string): nat {
    multiset(items)[t]
  }

  /** Every item that occurs more than once, in the order of the second occurrences. */
  function Duplicates(items: seq<string>): seq<string> {
    if items == [] then []
    else
      var n := |items| - 1;
      Duplicates(items[..n]) + (if Count(items[..n], items[n]) == 1 then [items[n]] else [])
  }

  type Counts = map<string, nat>

  function CountIn(counts: Counts, t: string): nat {
    if t in counts then counts[t] else 0
  }

  /** The table holds how often each item occurs. */
  ghost predicate Counted(counts: Counts, items: seq<string>) {
    forall t :: Count(items, t) == CountIn(counts, t)
  }

  /** One item more. */
  lemma CountOne(counts: Counts, items: seq<string>, i: nat)
    requires i < |items| && Counted(counts, items[..i])
    ensures var count := CountIn(counts, items[i]) + 1;
            && Counted(counts[items[i] := count], items[..i + 1])
            && Duplicates(items[..i + 1]) == Duplicates(items[..i]) + if count == 2 then [items[i]] else []
  {
    var init := items[..i];
    assert items[..i + 1] == init + [items[i]];
    hide Duplicates, Count;
    DuplicatesAppend(init, items[i]);
    forall t
      ensures Count(init + [items[i]], t) == CountIn(counts[items[i] := CountIn(counts, items[i]) + 1], t)
    {
      CountAppend(init, items[i], t);
    }
  }

  lemma CountAppend(items: seq<string>, last: string, t: string)
    ensures Count(items + [last], t) == Count(items, t) + if t == last then 1 else 0
  {
  }

  lemma DuplicatesAppend(items: seq<string>, t: string)
    ensures Duplicates(items + [t]) == Duplicates(items) + if Count(items, t) == 1 then [t] else []
  {
    assert (items + [t])[..|items|] == items;
  }

  method GetDuplicates(items: seq<string>) returns (duplicates: seq<string>)
    ensures duplicates == Duplicates(items)
  {
    if |items| == 0 {
      return items;
    }
    hide Counted, Duplicates;
    NothingCounted();
    var counts: Counts := map[];
    duplicates := [];
    assert items[..0] == [];
    for i := 0 to |items|
      invariant Counted(counts, items[..i])
      invariant duplicates == Duplicates(items[..i])
    {
      CountOne(counts, items, i);
      var count := CountIn(counts, items[i]) + 1;
      counts := counts[items[i] := count];
      if count == 2 {
        duplicates := duplicates + [items[i]];
      }
    }
    assert items[..|items|] == items;
  }

  lemma NothingCounted()
    ensures Duplicates([]) == [] && Counted(map[], [])
  {
  }

  lemma {:induction false} DuplicatesMembers(items: seq<string>)
    ensures forall t :: t in Duplicates(items) <==> Count(items, t) >= 2
    ensures Distinct(Duplicates(items))
  {
    if items != [] {
      var n := |items| - 1;
      assert items == items[..n] + [items[n]];
      DuplicatesMembers(items[..n]);
    }
  }

  lemma NoDuplicatesIff(items: seq<string>)
    ensures Duplicates(items) == [] <==> Distinct(items)
  {
    DuplicatesMembers(items);
    DistinctCounts(items);
    if Duplicates(items) != [] {
      assert Duplicates(items)[0] in Duplicates(items);
    }
    if !Distinct(items) {
      var t :| multiset(items)[t] > 1;
      assert t in Duplicates(items);
    }
  }

  lemma {:induction false} UniqueOfDistinct(items: seq<string>)
    requires Distinct(items)
    ensures Unique(items) == items
  {
    if items != [] {
      var n := |items| - 1;
      UniqueOfDistinct(items[..n]);
      assert items == items[..n] + [items[n]];
    }
  }

  /** `valid` says whether a cloud event of the type would be valid. */
  predicate ValidType(t: string, typeMatching: TypeMatching, valid: string -> bool) {
    && t != ""
    && |Split(t)| >= MIN_EVENT_TYPE_SEGMENTS
    && (typeMatching.Standard? ==> !HasPrefix(t, RESERVED_PREFIX))
    && valid(t)
  }

  lemma ValidTypeIff(t: string, typeMatching: TypeMatching, valid: string -> bool)
    ensures ValidType(t, typeMatching, valid) <==> '.' in t && valid(t) && (typeMatching.Standard? ==> !("sap.kyma.custom" <= t))
  {
    hide Split;
    if DOT in t {
      var head, tail := SplitUnfolds(t);
    } else {
      SplitDotFree(t);
    }
  }

  /** validateTypes: there are types, all different and each valid by itself.  Then removing duplicates, as
      both backends do first, changes nothing. */
  method ValidateTypes(types: seq<string>, typeMatching: TypeMatching, valid: string -> bool) returns (ok: bool)
    ensures ok <==> types != [] && Distinct(types) && forall t :: t in types ==> ValidType(t, typeMatching, valid)
    ensures ok ==> Unique(types) == types
  {
    hide Split, Unique, Duplicates;
    if |types| == 0 {
      return false;
    }
    var duplicates := GetDuplicates(types);
    NoDuplicatesIff(types);
    if |duplicates| > 0 {
      return false;
    }
    for i := 0 to |types|
      invariant forall k :: 0 <= k < i ==> ValidType(types[k], typeMatching, valid)
    {
      assert types[i] in types;
      if |types[i]| == 0 {
        return false;
      }
      if |Split(types[i])| < MIN_EVENT_TYPE_SEGMENTS {
        return false;
      }
      if typeMatching.Standard? && HasPrefix(types[i], RESERVED_PREFIX) {
        return false;
      }
      if !valid(types[i]) {
        return false;
      }
    }
    UniqueOfDistinct(types);
    ok := true;
  }

  // ---- sink ----

  predicate HasSuffix(s: string, suffix: string) {
    |suffix| <= |s| && s[|s| - |suffix|..] == suffix
  }

  /** GetSinkData cuts the port off the host. */
  function TrimmedHost(host: string): string {
    host[..FirstIndex(host, ':')]
  }

  predicate ValidSink(parse: Parser, sink: string, namespace: string) {
    && (HasPrefix(sink, "http://") || HasPrefix(sink, "https://"))
    && parse(sink).Some?
    && var host := TrimmedHost(parse(sink).value.host);
       HasSuffix(host, CLUSTER_LOCAL_SUFFIX) && |Split(host)| == SUBDOMAIN_SEGMENTS && Split(host)[1] == namespace
  }

  lemma TrimmedHostMeans(host: string)
    ensures var trimmed := TrimmedHost(host); ':' !in trimmed && (host == trimmed || trimmed + ":" <= host)
  {
    if ':' in host {
      FirstIndexInside(host, ':');
    } else {
      FirstIndexFinds(host, ':');
    }
  }

  /** A valid sink leads to a service of the namespace inside of the cluster.  The third label of its host need
      not be "svc": it only has to end in that. */
  lemma ValidSinkIff(parse: Parser, sink: string, namespace: string)
    ensures ValidSink(parse, sink, namespace) <==>
              && ("http://" <= sink || "https://" <= sink) && parse(sink).Some?
              && exists name, third :: LocalHost(TrimmedHost(parse(sink).value.host), name, namespace, third)
  {
    hide Split, FirstIndex;
    if parse(sink).Some? {
      var host := TrimmedHost(parse(sink).value.host);
      if HasSuffix(host, CLUSTER_LOCAL_SUFFIX) && |Split(host)| == SUBDOMAIN_SEGMENTS && Split(host)[1] == namespace {
        var name, third := LocalHostFrom(host, namespace);
      }
      forall name, third | LocalHost(host, name, namespace, third)
        ensures HasSuffix(host, CLUSTER_LOCAL_SUFFIX) && |Split(host)| == SUBDOMAIN_SEGMENTS && Split(host)[1] == namespace
      {
        LocalHostSplits(host, name, namespace, third);
      }
    }
  }

  /** name.namespace.thirdsvc.cluster.local */
  predicate LocalHost(host: string, name: string, namespace: string, third: string) {
    && '.' !in name && '.' !in namespace && '.' !in third
    && host == name + "." + (namespace + "." + (third + "svc.cluster.local"))
  }

  lemma LocalHostSplits(host: string, name: string, namespace: string, third: string)
    requires LocalHost(host, name, namespace, third)
    ensures HasSuffix(host, CLUSTER_LOCAL_SUFFIX) && Split(host) == [name, namespace, third + "svc", "cluster", "local"]
  {
    hide Split;
    LabelSplits(third);
    SplitAtFirst(name, namespace + "." + (third + "svc.cluster.local"));
    SplitAtFirst(namespace, third + "svc.cluster.local");
    assert host == (name + "." + (namespace + "." + third)) + "svc.cluster.local";
  }

  lemma LabelSplits(third: string)
    requires '.' !in third
    ensures Split(third + "svc.cluster.local") == [third + "svc", "cluster", "local"]
  {
    hide Split;
    SplitDotFree("local");
    SplitAtFirst("cluster", "local");
    SplitAtFirst(third + "svc", "cluster.local");
    assert "cluster" + [DOT] + "local" == "cluster.local";
    assert third + "svc.cluster.local" == (third + "svc") + [DOT] + "cluster.local";
  }

  lemma LocalHostFrom(host: string, namespace: string) returns (name: string, third: string)
    requires HasSuffix(host, CLUSTER_LOCAL_SUFFIX) && |Split(host)| == SUBDOMAIN_SEGMENTS && Split(host)[1] == namespace
    ensures LocalHost(host, name, namespace, third)
  {
    hide Split;
    var front := host[..|host| - |CLUSTER_LOCAL_SUFFIX|];
    assert host == front + "svc.cluster.local";
    FrontSplits(front);
    var parts := Split(front + "svc");
    assert Split(host)[..3] == parts && |parts| == 3;
    SplitParts(front + "svc");
    JoinThree(front + "svc");
    name := parts[0];
    var last := parts[2];
    assert front + "svc" == name + "." + (namespace + "." + last);
    third := EndsInSvc(front, name + "." + namespace, last);
    assert host == name + "." + (namespace + "." + (third + "svc.cluster.local"));
  }

  lemma FrontSplits(front: string)
    ensures Split(front + "svc.cluster.local") == Split(front + "svc") + ["cluster", "local"]
  {
    hide Split;
    SplitDotFree("local");
    SplitAtFirst("cluster", "local");
    assert "cluster" + [DOT] + "local" == "cluster.local";
    SplitConcat(front + "svc", "cluster.local");
    assert front + "svc.cluster.local" == (front + "svc") + [DOT] + "cluster.local";
  }

  lemma JoinThree(s: string)
    requires |Split(s)| == 3
    ensures s == Split(s)[0] + "." + (Split(s)[1] + "." + Split(s)[2])
  {
    JoinSplit(s);
    var parts := Split(s);
    hide Split;
    assert parts == [parts[0]] + ([parts[1]] + [parts[2]]);
    JoinOne(parts[2], [DOT]);
    JoinCons(parts[1], [parts[2]], [DOT]);
    JoinCons(parts[0], [parts[1]] + [parts[2]], [DOT]);
  }

  lemma EndsInSvc(front: string, head: string, last: string) returns (third: string)
    requires front + "svc" == head + "." + last && '.' !in last
    ensures last == third + "svc" && '.' !in third && front == head + "." + third
  {
    var whole := front + "svc";
    var n := |whole|;
    assert whole[n - 3] == 's' && whole[n - 2] == 'v' && whole[n - 1] == 'c';
    assert whole[|head|] == '.';
    assert |last| >= 3;
    third := last[..|last| - 3];
    assert last[|last| - 3] == whole[n - 3] && last[|last| - 2] == whole[n - 2] && last[|last| - 1] == whole[n - 1];
    assert last == third + "svc";
    assert front == whole[..n - 3];
    assert forall c :: c in third ==> c in last;
  }

  lemma DotIfSplit(s: string)
    requires |Split(s)| > 1
    ensures DOT in s
  {
    if DOT !in s {
      SplitDotFree(s);
    }
  }

  /** The first two labels of a host of three or more do not see its port. */
  lemma PortDoesNotMatter(host: string, rest: string)
    requires |Split(host)| > 2
    ensures |Split(host + rest)| > 2 && Split(host + rest)[0] == Split(host)[0] && Split(host + rest)[1] == Split(host)[1]
  {
    hide Split;
    DotIfSplit(host);
    var name, tail := SplitUnfolds(host);
    DotIfSplit(tail);
    var namespace, others := SplitUnfolds(tail);
    SplitAtFirst(name, tail + rest);
    SplitAtFirst(namespace, others + rest);
    assert host + rest == name + [DOT] + (tail + rest);
    assert tail + rest == namespace + [DOT] + (others + rest);
  }

  /** For a valid sink the reconciler finds the service that the validator saw, in the namespace of the
      subscription, whether the sink has a port or not. */
  lemma ValidSinkService(parse: Parser, sink: string, namespace: string)
    requires ValidSink(parse, sink, namespace)
    ensures var host := parse(sink).value.host;
            ServiceOf(host) == Some((namespace, Split(TrimmedHost(host))[0]))
  {
    var host := parse(sink).value.host;
    var trimmed := TrimmedHost(host);
    assert host == trimmed + host[|trimmed|..];
    PortDoesNotMatter(trimmed, host[|trimmed|..]);
  }

  /** With fewer labels it would not: the namespace would swallow the port. */
  lemma ShortHostSwallowsPort(name: string, namespace: string, port: string)
    requires DOT !in name && DOT !in namespace && DOT !in port && ':' !in name && ':' !in namespace
    ensures var host := name + [DOT] + (namespace + [':'] + port);
            && ServiceOf(host) == Some((namespace + [':'] + port, name))
            && Split(TrimmedHost(host)) == [name, namespace]
  {
    var second := namespace + [':'] + port;
    var host := name + [DOT] + second;
    SplitDotFree(second);
    SplitAtFirst(name, second);
    FirstIndexBefore(name + [DOT] + namespace, ':', port);
    assert host == (name + [DOT] + namespace) + [':'] + port;
    SplitDotFree(namespace);
    SplitAtFirst(name, namespace);
    assert TrimmedHost(host) == name + [DOT] + namespace;
  }
}
