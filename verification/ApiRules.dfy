/** One rule of the API gateway is shared by all subscriptions whose sinks lead to one port of one service. */
module ApiRules {
  import opened Outcomes
  import opened Subscriptions
  import opened Sinks
  import opened ListEquality

  /** What the upkeep of the rules reads of a Subscription; `apiRuleName` is in its status. */
  datatype Resource = Resource(
    namespace: string, name: string, uid: string, apiVersion: string, kind: string,
    sink: string, deleting: bool, apiRuleName: string)

  const READY := "Ready"
  const SERVICE_LABEL := "service"
  const GATEWAY := "kyma-system/kyma-gateway"
  const METHODS: seq<string> := ["POST", "OPTIONS"]

  // ---- which subscriptions share a rule ----

  predicate ForService(parse: Parser, s: Resource, namespace: string, name: string) {
    && !s.deleting
    && parse(s.sink).Some?
    && ServiceOf(parse(s.sink).value.host) == Some((namespace, name))
  }

  predicate OnPort(parse: Parser, s: Resource, port: nat) {
    !s.deleting && parse(s.sink).Some? && PortOf(parse(s.sink).value) == Some(port)
  }

  function Selected(subs: seq<Resource>, keep: Resource -> bool): (selected: seq<Resource>)
    ensures forall s :: s in selected <==> s in subs && keep(s)
  {
    if subs == [] then []
    else
      var n := |subs| - 1;
      assert subs == subs[..n] + [subs[n]];
      Selected(subs[..n], keep) + (if keep(subs[n]) then [subs[n]] else [])
  }

  /** Selecting twice is selecting by both. */
  lemma {:induction false} SelectedTwice(subs: seq<Resource>, first: Resource -> bool, second: Resource -> bool, both: Resource -> bool)
    requires forall s :: both(s) <==> first(s) && second(s)
    ensures Selected(Selected(subs, first), second) == Selected(subs, both)
  {
    if subs != [] {
      var n := |subs| - 1;
      var init, last := Selected(subs[..n], first), subs[n];
      SelectedTwice(subs[..n], first, second, both);
      if first(last) {
        assert Selected(subs, first) == init + [last];
        assert (init + [last])[..|init|] == init;
      } else {
        assert Selected(subs, first) == init;
      }
    }
  }

  /** The non-deleting subscriptions of the namespace of the service that lead to its port. */
  function Sharing(parse: Parser, subs: seq<Resource>, namespace: string, name: string, port: nat): (sharing: seq<Resource>)
    ensures forall s :: s in sharing <==> s in subs && s.namespace == namespace && ForService(parse, s, namespace, name) && OnPort(parse, s, port)
  {
    Selected(subs, (s: Resource) => s.namespace == namespace && ForService(parse, s, namespace, name) && OnPort(parse, s, port))
  }

  /** Those share a rule whose sinks name the service and lead to the port. */
  lemma SharingMeans(parse: Parser, subs: seq<Resource>, namespace: string, name: string, port: nat, s: Resource)
    ensures s in Sharing(parse, subs, namespace, name, port) <==>
              && s in subs && s.namespace == namespace && !s.deleting && parse(s.sink).Some?
              && NamesService(parse(s.sink).value.host, namespace, name) && LeadsTo(parse(s.sink).value, port)
  {
    hide ServiceOf, PortOf, NamesService, LeadsTo;
    if parse(s.sink).Some? {
      ServiceIff(parse(s.sink).value.host, namespace, name);
      PortIff(parse(s.sink).value, port);
    }
  }

  method GetSubscriptionsForASvc(parse: Parser, subs: seq<Resource>, namespace: string, name: string) returns (relevant: seq<Resource>)
    ensures relevant == Selected(subs, (s: Resource) => s.namespace == namespace && ForService(parse, s, namespace, name))
  {
    hide ServiceOf;
    relevant := [];
    for i := 0 to |subs|
      invariant relevant == Selected(subs[..i], (s: Resource) => s.namespace == namespace && ForService(parse, s, namespace, name))
    {
      assert subs[..i + 1][..i] == subs[..i];
      var s := subs[i];
      if s.namespace != namespace || s.deleting {
        continue;
      }
      var url := parse(s.sink);
      if url.None? {
        continue;
      }
      var service := ServiceOf(url.value.host);
      if service == Some((namespace, name)) {
        relevant := relevant + [s];
      }
    }
    assert subs[..|subs|] == subs;
  }

  method FilterSubscriptionsOnPort(parse: Parser, subs: seq<Resource>, port: nat) returns (filtered: seq<Resource>)
    ensures filtered == Selected(subs, (s: Resource) => OnPort(parse, s, port))
  {
    hide PortOf;
    filtered := [];
    for i := 0 to |subs|
      invariant filtered == Selected(subs[..i], (s: Resource) => OnPort(parse, s, port))
    {
      assert subs[..i + 1][..i] == subs[..i];
      var s := subs[i];
      if s.deleting || parse(s.sink).None? || PortOf(parse(s.sink).value).None? {
        continue;
      }
      if PortOf(parse(s.sink).value) == Some(port) {
        filtered := filtered + [s];
      }
    }
    assert subs[..|subs|] == subs;
  }

  // ---- what the rule says ----

  function OwnersOf(subs: seq<Resource>): (owners: seq<Owner>)
    ensures |owners| == |subs|
  {
    seq(|subs|, i requires 0 <= i < |subs| => Owner(subs[i].apiVersion, subs[i].kind, subs[i].name, subs[i].uid, true))
  }

  method WithOwnerReference(subs: seq<Resource>) returns (owners: seq<Owner>)
    ensures owners == OwnersOf(subs)
  {
    owners := [];
    for i := 0 to |subs|
      invariant owners == OwnersOf(subs)[..i]
    {
      owners := owners + [Owner(subs[i].apiVersion, subs[i].kind, subs[i].name, subs[i].uid, true)];
    }
  }

  /** `path` is that of the sink of one of the subscriptions. */
  predicate Wanted(parse: Parser, subs: seq<Resource>, path: string) {
    exists s :: s in subs && parse(s.sink).Some? && SinkPath(parse(s.sink).value) == path
  }

  /** The paths of the sinks, with repetitions. */
  function PathsOf(parse: Parser, subs: seq<Resource>): (paths: seq<string>)
    ensures forall p :: p in paths <==> Wanted(parse, subs, p)
  {
    if subs == [] then []
    else
      var n := |subs| - 1;
      assert subs == subs[..n] + [subs[n]];
      PathsOf(parse, subs[..n]) + (if parse(subs[n].sink).Some? then [SinkPath(parse(subs[n].sink).value)] else [])
  }

  function RulesFor(paths: seq<string>, service: Service, access: Access): (rules: seq<Rule>)
    ensures |rules| == |paths|
  {
    seq(|paths|, i requires 0 <= i < |paths| => Rule(paths[i], METHODS, service, access))
  }

  /** Every path takes posted events to the service, and the requests that ask whether it would. */
  predicate Admits(rules: seq<Rule>, service: Service, access: Access) {
    forall i :: 0 <= i < |rules| ==> rules[i].methods == ["POST", "OPTIONS"] && rules[i].service == service && rules[i].access == access
  }

  /** WithRules; RemoveDuplicateValues is the loop of GetUniqueEventTypes. */
  method WithRules(parse: Parser, subs: seq<Resource>, service: Service, access: Access) returns (rules: seq<Rule>)
    ensures rules == RulesFor(Unique(PathsOf(parse, subs)), service, access)
  {
    var paths: seq<string> := [];
    for i := 0 to |subs|
      invariant paths == PathsOf(parse, subs[..i])
    {
      assert subs[..i + 1][..i] == subs[..i];
      var url := parse(subs[i].sink);
      if url.None? {
        continue;
      }
      paths := paths + [if url.value.path == "" then "/" else url.value.path];
    }
    assert subs[..|subs|] == subs;
    var unique := GetUniqueEventTypes(paths);
    rules := [];
    for i := 0 to |unique|
      invariant rules == RulesFor(unique, service, access)[..i]
    {
      rules := rules + [Rule(unique[i], METHODS, service, access)];
    }
  }

  function RulePaths(rules: seq<Rule>): (paths: seq<string>)
    ensures |paths| == |rules|
    ensures forall i :: 0 <= i < |rules| ==> paths[i] == rules[i].path
  {
    seq(|rules|, i requires 0 <= i < |rules| => rules[i].path)
  }

  /** No path has two rules, and the paths with a rule are exactly those of the sinks. */
  ghost predicate PathsExact(parse: Parser, rules: seq<Rule>, subs: seq<Resource>) {
    Distinct(RulePaths(rules)) && forall p :: p in RulePaths(rules) <==> Wanted(parse, subs, p)
  }

  lemma RulesAreExact(parse: Parser, subs: seq<Resource>, service: Service, access: Access)
    ensures PathsExact(parse, RulesFor(Unique(PathsOf(parse, subs)), service, access), subs)
    ensures Admits(RulesFor(Unique(PathsOf(parse, subs)), service, access), service, access)
  {
    hide Unique, Wanted, SinkPath;
    var unique := Unique(PathsOf(parse, subs));
    UniqueMembers(PathsOf(parse, subs));
    assert RulePaths(RulesFor(unique, service, access)) == unique;
  }

  lemma WantedIsExposed(parse: Parser, apiRule: ApiRule, subs: seq<Resource>, path: string)
    requires PathsExact(parse, apiRule.rules, subs)
    ensures Exposes(apiRule, path) <==> Wanted(parse, subs, path)
  {
    assert path in RulePaths(apiRule.rules) <==> Exposes(apiRule, path);
  }

  // ---- the two addresses ----

  /** setSubscriptionStatusExternalSink */
  function ExternalSinkOf(parse: Parser, apiRule: ApiRule, sink: string): Option<string> {
    if apiRule.service.None? || apiRule.hosts.None? || parse(sink).None? then None
    else Some("https://" + HostOf(apiRule) + SinkPath(parse(sink).value))
  }

  /** The address in the status needs a service, a list of hosts and a sink, and has the path of the sink. */
  lemma ExternalSinkMeans(parse: Parser, apiRule: ApiRule, sink: string)
    ensures ExternalSinkOf(parse, apiRule, sink).Some? <==> apiRule.service.Some? && apiRule.hosts.Some? && parse(sink).Some?
    ensures ExternalSinkOf(parse, apiRule, sink).Some? ==>
              var path := parse(sink).value.path;
              AddressAt(ExternalSinkOf(parse, apiRule, sink).value, apiRule, path, if path == "" then "/" else path)
  {
    if ExternalSinkOf(parse, apiRule, sink).Some? {
      var path := SinkPath(parse(sink).value);
      assert ExternalSinkOf(parse, apiRule, sink).value == "https://" + (HostOf(apiRule) + path);
    }
  }

  /** The address in the status and the one registered at EventMesh agree if and only if a rule exposes the
      path of the sink. */
  lemma AddressesAgreeIff(parse: Parser, apiRule: ApiRule, sink: string)
    requires ExternalSinkOf(parse, apiRule, sink).Some?
    ensures ExternalSinkOf(parse, apiRule, sink) == ExposedUrl(parse, apiRule, sink) <==> Exposes(apiRule, SinkPath(parse(sink).value))
  {
    var path := SinkPath(parse(sink).value);
    var front := "https://" + HostOf(apiRule);
    assert |front + path| == |front| + |path| && |front + ""| == |front| && |path| > 0;
  }

  // ---- the API server ----

  type Key = (string, string)

  predicate Labelled(rule: ApiRule, labels: map<string, string>) {
    forall l :: l in labels ==> l in rule.labels && rule.labels[l] == labels[l]
  }

  /** A sequential API server.  Every call may fail, and a failed change may have taken effect. */
  class ApiServer {
    var subscriptions: seq<Resource>
    var apiRules: map<Key, ApiRule>
    /** The authorization policies, by the keys of their rules. */
    var policies: set<Key>
    /** The number of calls so far that failed. */
    var faults: nat

    ghost predicate Valid()
      reads this
    {
      forall k :: k in apiRules ==> k == (apiRules[k].namespace, apiRules[k].name)
    }

    constructor ()
      ensures Valid()
    {
      subscriptions, apiRules, policies, faults := [], map[], {}, 0;
    }

    method Attempt() returns (outcome: Outcome)
      modifies this`faults
      ensures faults == old(faults) + if outcome.Pass? then 0 else 1
    {
      outcome := Pass;
      if * {
        outcome, faults := Fail(Failed), faults + 1;
      }
    }

    /** createAuthorizationPolicy, unless there is one. */
    method EnsurePolicy(key: Key) returns (outcome: Outcome)
      modifies this`policies, this`faults
      ensures faults == old(faults) + if outcome.Pass? then 0 else 1
      ensures policies in {old(policies), old(policies) + {key}} && (outcome.Pass? ==> key in policies)
    {
      outcome := Attempt();
      var lost: bool := *;
      if outcome.Pass? || lost {
        policies := policies + {key};
      }
    }

    /** The rules of a namespace with the given labels, in any order. */
    method List(namespace: string, labels: map<string, string>) returns (outcome: Outcome, rules: seq<ApiRule>)
      requires Valid()
      modifies this`faults
      ensures Valid() && faults == old(faults) + if outcome.Pass? then 0 else 1
      ensures outcome.Pass? ==> forall r :: r in rules ==>
                (namespace, r.name) in apiRules && apiRules[(namespace, r.name)] == r && Labelled(r, labels)
      ensures outcome.Pass? ==> forall k :: k in apiRules && k.0 == namespace && Labelled(apiRules[k], labels) ==> apiRules[k] in rules
    {
      rules := [];
      outcome := Attempt();
      if outcome.Fail? {
        return;
      }
      var rest := apiRules;
      while rest != map[]
        invariant forall k :: k in rest ==> k in apiRules && rest[k] == apiRules[k]
        invariant forall r :: r in rules ==> (namespace, r.name) in apiRules && apiRules[(namespace, r.name)] == r && Labelled(r, labels)
        invariant forall k :: k in apiRules && k !in rest && k.0 == namespace && Labelled(apiRules[k], labels) ==> apiRules[k] in rules
        decreases |rest|
      {
        var k: Key :| k in rest;
        if k.0 == namespace && Labelled(rest[k], labels) {
          rules := rules + [rest[k]];
        }
        assert (rest - {k}).Keys == rest.Keys - {k};
        rest := rest - {k};
      }
    }

    /** The server completes the name; one that is taken is refused. */
    method Create(rule: ApiRule) returns (outcome: Outcome, created: ApiRule)
      requires Valid()
      modifies this`apiRules, this`faults
      ensures Valid() && faults == old(faults) + if outcome.Pass? then 0 else 1
      ensures created == rule.(name := created.name) && "webhook-" <= created.name
      ensures var key := (rule.namespace, created.name);
              && (outcome.Pass? ==> apiRules == old(apiRules)[key := created])
              && (outcome.Fail? ==> apiRules == old(apiRules) || apiRules == old(apiRules)[key := created])
              && (key in old(apiRules) ==> apiRules == old(apiRules))
    {
      var suffix: string := *;
      created := rule.(name := "webhook-" + suffix);
      outcome := Attempt();
      var lost: bool := *;
      if outcome.Pass? && (rule.namespace, created.name) in apiRules {
        outcome, faults := Fail(Failed), faults + 1;
      } else if (rule.namespace, created.name) !in apiRules && (outcome.Pass? || lost) {
        apiRules := apiRules[(rule.namespace, created.name) := created];
      }
    }

    method Update(rule: ApiRule) returns (outcome: Outcome)
      requires Valid() && (rule.namespace, rule.name) in apiRules
      modifies this`apiRules, this`faults
      ensures Valid() && faults == old(faults) + if outcome.Pass? then 0 else 1
      ensures apiRules in {old(apiRules), old(apiRules)[(rule.namespace, rule.name) := rule]}
      ensures outcome.Pass? ==> apiRules == old(apiRules)[(rule.namespace, rule.name) := rule]
    {
      outcome := Attempt();
      var lost: bool := *;
      if outcome.Pass? || lost {
        apiRules := apiRules[(rule.namespace, rule.name) := rule];
      }
    }

    method Delete(key: Key) returns (outcome: Outcome)
      requires Valid()
      modifies this`apiRules, this`faults
      ensures Valid() && faults == old(faults) + if outcome.Pass? then 0 else 1
      ensures apiRules in {old(apiRules), old(apiRules) - {key}}
      ensures outcome.Pass? ==> apiRules == old(apiRules) - {key}
    {
      outcome := Attempt();
      var lost: bool := *;
      if outcome.Pass? || lost {
        apiRules := apiRules - {key};
      }
    }
  }
}
