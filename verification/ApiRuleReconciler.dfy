/** How the EventMesh reconciler keeps the shared rules in step with the subscriptions. */
module ApiRuleReconciler {
  import opened Outcomes
  import opened Subscriptions
  import opened Sinks
  import opened ListEquality
  import opened ApiRules
  import opened Validation

  /** apiRuleEqual, which ignores hosts and status and the order of the owners. */
  method ApiRuleEqual(a: ApiRule, b: ApiRule) returns (equal: bool)
    ensures equal <==> a.labels == b.labels && Included(a.owners, b.owners) && a.service == b.service && a.rules == b.rules && a.gateway == b.gateway
  {
    if a.labels != b.labels {
      return false;
    }
    var owners := OwnerReferencesDeepEqual(a.owners, b.owners);
    equal := owners && a.service == b.service && a.rules == b.rules && a.gateway == b.gateway;
  }

  function LabelsFor(name: string): map<string, string> {
    map[SERVICE_LABEL := name, "beb" := "webhook"]
  }

  /** `rule` is the shared rule of the service and the port. */
  predicate ForTarget(rule: ApiRule, name: string, port: nat) {
    Labelled(rule, LabelsFor(name)) && rule.service.Some? && rule.service.value.port == port
  }

  predicate Targeted(sink: Url, key: Key, rule: ApiRule) {
    match (ServiceOf(sink.host), PortOf(sink))
    case (Some((namespace, name)), Some(port)) => key.0 == namespace && ForTarget(rule, name, port)
    case _ => false
  }

  /** `rule` is labelled for the service that the sink names, and leads to the port that the sink names. */
  ghost predicate SharedAt(sink: Url, key: Key, rule: ApiRule) {
    && "service" in rule.labels && "beb" in rule.labels && rule.labels["beb"] == "webhook"
    && NamesService(sink.host, key.0, rule.labels["service"])
    && rule.service.Some? && LeadsTo(sink, rule.service.value.port)
  }

  lemma TargetedIff(sink: Url, key: Key, rule: ApiRule)
    ensures Targeted(sink, key, rule) <==> SharedAt(sink, key, rule)
  {
    hide ServiceOf, PortOf, NamesService, LeadsTo;
    var service := if "service" in rule.labels then rule.labels["service"] else "";
    ServiceIff(sink.host, key.0, service);
    if ServiceOf(sink.host).Some? {
      ServiceIff(sink.host, ServiceOf(sink.host).value.0, ServiceOf(sink.host).value.1);
    }
    if rule.service.Some? {
      PortIff(sink, rule.service.value.port);
    }
  }

  /** The rule is what the subscriptions that share it need: it is owned by them and exposes their paths. */
  ghost predicate Serves(parse: Parser, rule: ApiRule, namespace: string, name: string, port: nat, sharing: seq<Resource>) {
    && rule.namespace == namespace
    && rule.labels == LabelsFor(name)
    && rule.service == Some(Service(name, port, true))
    && Included(rule.owners, OwnersOf(sharing))
    && PathsExact(parse, rule.rules, sharing)
  }

  /** Rules with other keys are left alone. */
  ghost predicate Elsewhere(before: map<Key, ApiRule>, after: map<Key, ApiRule>, key: Key) {
    forall k :: k != key ==> (k in after <==> k in before) && (k in before ==> after[k] == before[k])
  }

  predicate Owns(s: Resource, rule: ApiRule) {
    exists o :: o in rule.owners && o.uid == s.uid
  }

  /** Nobody but `s` owns the rule. */
  predicate OwnedOnlyBy(rule: ApiRule, s: Resource) {
    forall o :: o in rule.owners ==> o.uid == s.uid
  }

  /** Every rule leads to some service. */
  predicate AllServiced(rules: map<Key, ApiRule>) {
    forall k :: k in rules ==> rules[k].service.Some?
  }

  class Reconciler {
    const server: ApiServer
    const parse: Parser
    const certsUrl: string
    const domain: string
    const webhookAuth: bool

    constructor (server: ApiServer, parse: Parser, certsUrl: string, domain: string, webhookAuth: bool)
      ensures this.server == server && this.parse == parse
      ensures this.certsUrl == certsUrl && this.domain == domain && this.webhookAuth == webhookAuth
    {
      this.server, this.parse, this.certsUrl, this.domain, this.webhookAuth := server, parse, certsUrl, domain, webhookAuth;
    }

    function AccessFor(): Access {
      if webhookAuth then Jwt(certsUrl) else ExtAuth
    }

    /** The rule leads to the service and the port that `sink` names, by the local gateway, for requests with
        tokens if the feature is on. */
    ghost predicate LeadsToSink(sink: Url, rule: ApiRule) {
      && rule.service.Some? && rule.service.value.isExternal
      && NamesService(sink.host, rule.namespace, rule.service.value.name) && LeadsTo(sink, rule.service.value.port)
      && rule.labels == map["service" := rule.service.value.name, "beb" := "webhook"]
      && Gated(rule)
    }

    ghost predicate Gated(rule: ApiRule) {
      && rule.gateway == "kyma-system/kyma-gateway"
      && rule.service.Some? && Admits(rule.rules, rule.service.value, if webhookAuth then Jwt(certsUrl) else ExtAuth)
    }

    /** The rule keeps the name, the host and the state of the old one. */
    predicate Reuses(rule: ApiRule, earlier: ApiRule) {
      rule.name == earlier.name && rule.hosts == earlier.hosts && rule.state == earlier.state
    }

    lemma SameGate(a: ApiRule, b: ApiRule)
      requires b.gateway == a.gateway && b.service == a.service && b.rules == a.rules
      ensures Gated(b) == Gated(a)
      ensures b.hosts == a.hosts && b.state == a.state ==> HasNewHost(b) == HasNewHost(a)
    {
    }

    /** The rule is a new one: with a host of its own, and not yet ready. */
    ghost predicate HasNewHost(rule: ApiRule) {
      rule.state == "" && exists suffix: string :: HostedAt(rule.hosts, suffix)
    }

    predicate HostedAt(hosts: Option<seq<Option<string>>>, suffix: string) {
      hosts == Some([Some("web-" + suffix + "." + domain)])
    }

    lemma HostIsNew(rule: ApiRule, suffix: string)
      requires HostedAt(rule.hosts, suffix) && rule.state == ""
      ensures HasNewHost(rule)
    {
    }

    lemma ServesLeads(sink: Url, rule: ApiRule, namespace: string, name: string, port: nat, sharing: seq<Resource>)
      requires Serves(parse, rule, namespace, name, port, sharing) && Gated(rule)
      requires ServiceOf(sink.host) == Some((namespace, name)) && PortOf(sink) == Some(port)
      ensures LeadsToSink(sink, rule)
    {
      hide ServiceOf, PortOf, NamesService, LeadsTo, PathsExact, Included;
      ServiceIff(sink.host, namespace, name);
      PortIff(sink, port);
    }

    /** filterAPIRulesOnPort: the first rule for the port.  A rule without a service makes the run fail. */
    method FilterAPIRulesOnPort(rules: seq<ApiRule>, port: nat) returns (outcome: Outcome, found: Option<ApiRule>)
      ensures outcome.Fail? ==> exists r :: r in rules && r.service.None?
      ensures outcome.Pass? && found.Some? ==> found.value in rules && found.value.service.Some? && found.value.service.value.port == port
      ensures outcome.Pass? && found.None? ==> forall r :: r in rules ==> r.service.Some? && r.service.value.port != port
    {
      for i := 0 to |rules|
        invariant forall k :: 0 <= k < i ==> rules[k].service.Some? && rules[k].service.value.port != port
      {
        if rules[i].service.None? {
          assert rules[i] in rules;
          return Fail(Failed), None;
        }
        if rules[i].service.value.port == port {
          return Pass, Some(rules[i]);
        }
      }
      outcome, found := Pass, None;
    }

    method MakeAPIRule(namespace: string, name: string, subs: seq<Resource>, port: nat) returns (rule: ApiRule)
      ensures Serves(parse, rule, namespace, name, port, subs) && rule.owners == OwnersOf(subs) && rule.hosts.Some?
      ensures Gated(rule) && HasNewHost(rule)
    {
      var suffix: string := *;
      var service := Service(name, port, true);
      var owners := WithOwnerReference(subs);
      var rules := WithRules(parse, subs, service, AccessFor());
      RulesAreExact(parse, subs, service, AccessFor());
      rule := ApiRule(namespace, "", LabelsFor(name), owners, Some(service), Some([Some("web-" + suffix + "." + domain)]), GATEWAY, rules, "");
      HostIsNew(rule, suffix);
    }

    /** The subscriptions that remain with a rule that `s` gives up. */
    function Remaining(s: Resource, previous: ApiRule, subs: seq<Resource>): seq<Resource> {
      Selected(subs, (other: Resource) => other.namespace == previous.namespace && other.uid != s.uid && other.apiRuleName == previous.name)
    }

    /** What is left of a rule that `s` gives up: it is owned by those who remain and exposes their paths. */
    ghost predicate LeftBy(s: Resource, before: ApiRule, after: ApiRule, subs: seq<Resource>) {
      && Owns(s, before)
      && after == before.(owners := OwnersOf(Remaining(s, before, subs)), rules := after.rules)
      && PathsExact(parse, after.rules, Remaining(s, before, subs))
      && before.service.Some? && Admits(after.rules, before.service.value, if webhookAuth then Jwt(certsUrl) else ExtAuth)
    }

    lemma NoLongerOwns(s: Resource, before: ApiRule, after: ApiRule, subs: seq<Resource>)
      requires LeftBy(s, before, after, subs)
      ensures !Owns(s, after)
    {
      var rest := Remaining(s, before, subs);
      forall i | 0 <= i < |rest|
        ensures after.owners[i].uid != s.uid
      {
        assert rest[i] in rest;
      }
    }

    /** `s` has given up the rule `before` with the given key: it was deleted if nobody else owned it, and otherwise
        was left to the others. */
    ghost predicate GivenUp(s: Resource, before: ApiRule, key: Key, rules: map<Key, ApiRule>, subs: seq<Resource>) {
      && (OwnedOnlyBy(before, s) ==> key !in rules)
      && (!OwnedOnlyBy(before, s) ==>
            && key in rules && !Owns(s, rules[key])
            && (if Owns(s, before) then LeftBy(s, before, rules[key], subs) else rules[key] == before))
    }

    /** The rule that the status of `s` names was there before and was given up. */
    ghost predicate HasGivenUp(s: Resource, before: map<Key, ApiRule>)
      reads server
    {
      var key := (s.namespace, s.apiRuleName);
      key in before ==> GivenUp(s, before[key], key, server.apiRules, server.subscriptions)
    }

    lemma GivenUpElsewhere(s: Resource, before: map<Key, ApiRule>, rules: map<Key, ApiRule>, later: map<Key, ApiRule>, other: Key)
      requires Elsewhere(rules, later, other) && other.1 != s.apiRuleName
      ensures var key := (s.namespace, s.apiRuleName);
              key in before ==>
                GivenUp(s, before[key], key, later, server.subscriptions) == GivenUp(s, before[key], key, rules, server.subscriptions)
    {
      var key := (s.namespace, s.apiRuleName);
      if key in before {
        StaysGivenUp(s, before[key], key, rules, later, server.subscriptions);
      }
    }

    lemma StaysGivenUp(s: Resource, before: ApiRule, key: Key, rules: map<Key, ApiRule>, later: map<Key, ApiRule>, subs: seq<Resource>)
      requires (key in later <==> key in rules) && (key in rules ==> later[key] == rules[key])
      ensures GivenUp(s, before, key, later, subs) == GivenUp(s, before, key, rules, subs)
    {
    }

    /** handlePreviousAPIRule: `s` gives up the rule that its status names, unless that is the one to reuse.
        A rule that nobody owns any more is deleted. */
    method HandlePreviousAPIRule(s: Resource, reusable: Option<ApiRule>) returns (outcome: Outcome)
      requires server.Valid()
      modifies server`apiRules, server`faults
      ensures server.Valid() && Elsewhere(old(server.apiRules), server.apiRules, (s.namespace, s.apiRuleName))
      ensures server.faults in {old(server.faults), old(server.faults) + 1} && (outcome.Pass? ==> server.faults == old(server.faults))
      ensures AllServiced(old(server.apiRules)) && outcome.Fail? ==> server.faults > old(server.faults)
      ensures s.apiRuleName == "" || (reusable.Some? && reusable.value.name == s.apiRuleName) ==>
                outcome.Pass? && server.apiRules == old(server.apiRules)
      ensures var key := (s.namespace, s.apiRuleName);
              && (key in server.apiRules ==> key in old(server.apiRules))
              && (key in old(server.apiRules) ==>
                    var before := old(server.apiRules)[key];
                    if key in server.apiRules then server.apiRules[key] == before || LeftBy(s, before, server.apiRules[key], server.subscriptions)
                    else OwnedOnlyBy(before, s))
      ensures var key := (s.namespace, s.apiRuleName);
              outcome.Pass? && s.apiRuleName != "" && !(reusable.Some? && reusable.value.name == s.apiRuleName) && key in old(server.apiRules) ==>
                GivenUp(s, old(server.apiRules)[key], key, server.apiRules, server.subscriptions)
    {
      if s.apiRuleName == "" {
        return Pass;
      }
      if reusable.Some? && reusable.value.name == s.apiRuleName {
        return Pass;
      }
      var key := (s.namespace, s.apiRuleName);
      outcome := server.Attempt();
      if outcome.Fail? {
        return;
      }
      if key !in server.apiRules {
        return Pass;
      }
      var previous := server.apiRules[key];
      var owners := OwnersWithout(previous.owners, s.uid);
      if |owners| == 0 {
        outcome := server.Delete(key);
        return;
      }
      assert owners[0] in owners;
      if |owners| < |previous.owners| {
        outcome := server.Attempt();
        if outcome.Fail? {
          return;
        }
        var subs := RemainingSubscriptions(s, previous);
        if previous.service.None? {
          return Fail(Failed);
        }
        var newOwners := WithOwnerReference(subs);
        var rules := WithRules(parse, subs, previous.service.value, AccessFor());
        RulesAreExact(parse, subs, previous.service.value, AccessFor());
        var next := previous.(owners := newOwners, rules := rules);
        NoLongerOwns(s, previous, next, server.subscriptions);
        outcome := server.Update(next);
      }
    }

    method OwnersWithout(owners: seq<Owner>, uid: string) returns (rest: seq<Owner>)
      ensures |rest| <= |owners|
      ensures forall o :: o in rest <==> o in owners && o.uid != uid
      ensures |rest| == |owners| ==> rest == owners
      ensures |rest| < |owners| ==> exists o :: o in owners && o.uid == uid
    {
      rest := [];
      for i := 0 to |owners|
        invariant |rest| <= i
        invariant forall o :: o in rest <==> o in owners[..i] && o.uid != uid
        invariant |rest| == i ==> rest == owners[..i]
        invariant |rest| < i ==> exists o :: o in owners && o.uid == uid
      {
        assert owners[..i + 1] == owners[..i] + [owners[i]];
        if owners[i].uid != uid {
          rest := rest + [owners[i]];
        } else {
          assert owners[i] in owners;
        }
      }
      assert owners[..|owners|] == owners;
    }

    method RemainingSubscriptions(s: Resource, previous: ApiRule) returns (subs: seq<Resource>)
      ensures subs == Remaining(s, previous, server.subscriptions)
    {
      subs := [];
      var all := server.subscriptions;
      for i := 0 to |all|
        invariant subs == Remaining(s, previous, all[..i])
      {
        assert all[..i + 1][..i] == all[..i];
        if all[i].namespace != previous.namespace || all[i].uid == s.uid || all[i].apiRuleName != previous.name {
          continue;
        }
        subs := subs + [all[i]];
      }
      assert all[..|all|] == all;
    }

    /** createOrUpdateAPIRule: afterwards one rule serves all who share the port of the service of `sink`. */
    method CreateOrUpdateAPIRule(s: Resource, sink: Url) returns (outcome: Outcome, rule: Option<ApiRule>)
      requires server.Valid()
      modifies server`apiRules, server`policies, server`faults
      ensures server.Valid()
      ensures outcome.Pass? ==> rule.Some? && ServiceOf(sink.host).Some? && PortOf(sink).Some?
      ensures outcome.Pass? ==>
                var (namespace, name), port := ServiceOf(sink.host).value, PortOf(sink).value;
                var sharing := Sharing(parse, server.subscriptions, namespace, name, port);
                && (namespace, rule.value.name) in server.apiRules && server.apiRules[(namespace, rule.value.name)] == rule.value
                && Serves(parse, rule.value, namespace, name, port, sharing)
                && (Distinct(rule.value.owners) ==> multiset(rule.value.owners) == multiset(OwnersOf(sharing)))
                && (rule.value.owners == OwnersOf(sharing)
                    || ((namespace, rule.value.name) in old(server.apiRules) && old(server.apiRules)[(namespace, rule.value.name)] == rule.value))
      ensures outcome.Pass? && s.apiRuleName !in {"", rule.value.name} ==> HasGivenUp(s, old(server.apiRules))
      ensures outcome.Pass? ==>
                var key := (rule.value.namespace, rule.value.name);
                || (key in old(server.apiRules) && SharedAt(sink, key, old(server.apiRules)[key])
                    && (rule.value != old(server.apiRules)[key] ==> key in server.policies))
                || forall k :: k in old(server.apiRules) ==> !SharedAt(sink, k, old(server.apiRules)[k])
      ensures forall k :: k in old(server.apiRules) && k != (s.namespace, s.apiRuleName) && !SharedAt(sink, k, old(server.apiRules)[k]) ==>
                k in server.apiRules && server.apiRules[k] == old(server.apiRules)[k]
      ensures outcome.Pass? ==>
                && LeadsToSink(sink, rule.value)
                && ((HasNewHost(rule.value) && "webhook-" <= rule.value.name)
                    || (var key := (rule.value.namespace, rule.value.name);
                        key in old(server.apiRules) && Reuses(rule.value, old(server.apiRules)[key])))
      ensures server.faults in {old(server.faults), old(server.faults) + 1} && (outcome.Pass? ==> server.faults == old(server.faults))
      ensures AllServiced(old(server.apiRules)) && ServiceOf(sink.host).Some? && PortOf(sink).Some? && outcome.Fail? ==>
                server.faults > old(server.faults)
      ensures forall k :: k in old(server.apiRules) && k != (s.namespace, s.apiRuleName) && !Targeted(sink, k, old(server.apiRules)[k]) ==>
                k in server.apiRules && server.apiRules[k] == old(server.apiRules)[k]
    {
      hide ServiceOf, PortOf, PathsExact, Labelled, LabelsFor, Included, ForService, OnPort, Selected, Sharing, OwnersOf, Serves, Distinct;
      hide Owns, OwnedOnlyBy, LeftBy, Remaining, Gated, HasNewHost, LeadsToSink, GivenUp, SharedAt;
      rule := None;
      forall k | k in server.apiRules {
        TargetedIff(sink, k, server.apiRules[k]);
      }
      var service := ServiceOf(sink.host);
      if service.None? {
        return Fail(Failed), None;
      }
      var (namespace, name) := service.value;
      var port := PortOf(sink);
      if port.None? {
        return Fail(Failed), None;
      }
      var existing;
      outcome, existing := server.List(namespace, LabelsFor(name));
      if outcome.Fail? {
        return;
      }
      var reusable;
      outcome, reusable := FilterAPIRulesOnPort(existing, port.value);
      if outcome.Fail? {
        return;
      }
      outcome, rule := ServeSharing(s, reusable, namespace, name, port.value);
      if outcome.Pass? {
        ServesLeads(sink, rule.value, namespace, name, port.value, Sharing(parse, server.subscriptions, namespace, name, port.value));
        ServesNamespace(parse, rule.value, namespace, name, port.value, Sharing(parse, server.subscriptions, namespace, name, port.value));
      }
    }

    /** The rest of createOrUpdateAPIRule: `reusable` or a new rule is made to serve all who share the port, and
        `s` gives up the rule that it used before. */
    method ServeSharing(s: Resource, reusable: Option<ApiRule>, namespace: string, name: string, port: nat)
      returns (outcome: Outcome, rule: Option<ApiRule>)
      requires server.Valid()
      requires reusable.Some? ==>
                 var key := (namespace, reusable.value.name); key in server.apiRules && server.apiRules[key] == reusable.value
      modifies server`apiRules, server`policies, server`faults
      ensures server.Valid()
      ensures outcome.Pass? ==> rule.Some?
      ensures outcome.Pass? ==>
                var sharing, key := Sharing(parse, server.subscriptions, namespace, name, port), (namespace, rule.value.name);
                && key in server.apiRules && server.apiRules[key] == rule.value
                && Serves(parse, rule.value, namespace, name, port, sharing)
                && (Distinct(rule.value.owners) ==> multiset(rule.value.owners) == multiset(OwnersOf(sharing)))
                && (rule.value.owners == OwnersOf(sharing) || reusable == rule)
                && (s.apiRuleName !in {"", rule.value.name} ==> HasGivenUp(s, old(server.apiRules)))
                && Gated(rule.value)
                && (reusable.Some? && reusable != rule ==> (namespace, rule.value.name) in server.policies)
                && (if reusable.Some? then Reuses(rule.value, reusable.value) else HasNewHost(rule.value) && "webhook-" <= rule.value.name)
      ensures server.faults in {old(server.faults), old(server.faults) + 1} && (outcome.Pass? ==> server.faults == old(server.faults))
      ensures AllServiced(old(server.apiRules)) && outcome.Fail? ==> server.faults > old(server.faults)
      ensures forall k :: k in old(server.apiRules) && k != (s.namespace, s.apiRuleName)
                          && (reusable.Some? ==> k != (namespace, reusable.value.name)) ==>
                k in server.apiRules && server.apiRules[k] == old(server.apiRules)[k]
    {
      hide PathsExact, LabelsFor, Included, ForService, OnPort, Selected, Sharing, OwnersOf, Serves, Distinct, Owns, OwnedOnlyBy, LeftBy, Remaining;
      hide HasNewHost, Gated, GivenUp;
      rule := None;
      outcome := server.Attempt();
      if outcome.Fail? {
        return;
      }
      ghost var filtered := Sharing(parse, server.subscriptions, namespace, name, port);
      var desired := DesiredRule(namespace, name, port);
      outcome := HandlePreviousAPIRule(s, reusable);
      if outcome.Fail? {
        return;
      }
      ghost var given := server.apiRules;
      if reusable.None? {
        var created;
        outcome, created := server.Create(desired);
        if outcome.Pass? && s.apiRuleName != created.name {
          GivenUpElsewhere(s, old(server.apiRules), given, server.apiRules, (namespace, created.name));
        }
        ServesWhatever(parse, desired, created, namespace, name, port, filtered);
        SameGate(desired, created);
        if outcome.Pass? {
          rule := Some(created);
        }
        return;
      }
      outcome, rule := ReuseAPIRule(reusable.value, desired, namespace, name, port, filtered);
      if outcome.Pass? && s.apiRuleName != rule.value.name {
        GivenUpElsewhere(s, old(server.apiRules), given, server.apiRules, (namespace, rule.value.name));
      }
    }

    method DesiredRule(namespace: string, name: string, port: nat) returns (desired: ApiRule)
      ensures var sharing := Sharing(parse, server.subscriptions, namespace, name, port);
              Serves(parse, desired, namespace, name, port, sharing) && desired.owners == OwnersOf(sharing)
      ensures desired.hosts.Some? && Gated(desired) && HasNewHost(desired)
    {
      var subscriptions := GetSubscriptionsForASvc(parse, server.subscriptions, namespace, name);
      var filtered := FilterSubscriptionsOnPort(parse, subscriptions, port);
      FilteredAreSharing(parse, server.subscriptions, namespace, name, port);
      desired := MakeAPIRule(namespace, name, filtered, port);
    }

    /** The second half of createOrUpdateAPIRule: the existing rule is kept if it says the same. */
    method ReuseAPIRule(reusable: ApiRule, made: ApiRule, namespace: string, name: string, port: nat, ghost sharing: seq<Resource>)
      returns (outcome: Outcome, rule: Option<ApiRule>)
      requires server.Valid()
      requires (namespace, reusable.name) in server.apiRules && server.apiRules[(namespace, reusable.name)] == reusable
      requires Serves(parse, made, namespace, name, port, sharing) && made.owners == OwnersOf(sharing) && Gated(made)
      modifies server`apiRules, server`policies, server`faults
      ensures server.Valid() && Elsewhere(old(server.apiRules), server.apiRules, (namespace, reusable.name))
      ensures outcome.Pass? ==>
                && rule.Some? && Reuses(rule.value, reusable)
                && (namespace, reusable.name) in server.apiRules && server.apiRules[(namespace, reusable.name)] == rule.value
                && Serves(parse, rule.value, namespace, name, port, sharing)
                && (Distinct(rule.value.owners) ==> multiset(rule.value.owners) == multiset(OwnersOf(sharing)))
                && (rule.value.owners == OwnersOf(sharing) || rule.value == reusable) && Gated(rule.value)
                && (rule.value != reusable ==> (namespace, reusable.name) in server.policies)
      ensures server.policies in {old(server.policies), old(server.policies) + {(namespace, reusable.name)}}
      ensures server.faults == old(server.faults) + if outcome.Pass? then 0 else 1
      ensures (namespace, reusable.name) in server.apiRules
    {
      hide PathsExact, LabelsFor, Included, OwnersOf, Distinct, Serves, Gated;
      rule := None;
      ServesNamespace(parse, made, namespace, name, port, sharing);
      // ApplyExistingAPIRuleAttributes
      var desired := made.(name := reusable.name, hosts := reusable.hosts, state := reusable.state);
      ServesWhatever(parse, made, desired, namespace, name, port, sharing);
      SameGate(made, desired);
      var equal := ApiRuleEqual(reusable, desired);
      if equal {
        SameGate(desired, reusable);
        ServesWhatever(parse, desired, reusable, namespace, name, port, sharing);
        if Distinct(reusable.owners) {
          EqualIffPermutation(reusable.owners, desired.owners);
        }
        return Pass, Some(reusable);
      }
      outcome := server.Update(desired);
      if outcome.Fail? {
        return;
      }
      outcome := server.EnsurePolicy((namespace, reusable.name));
      if outcome.Pass? {
        rule := Some(desired);
      }
    }

    lemma ServesNamespace(parse: Parser, rule: ApiRule, namespace: string, name: string, port: nat, sharing: seq<Resource>)
      requires Serves(parse, rule, namespace, name, port, sharing)
      ensures rule.namespace == namespace
    {
    }

    /** Neither the name nor the hosts nor the state of a rule matters for whom it serves. */
    lemma ServesWhatever(parse: Parser, a: ApiRule, b: ApiRule, namespace: string, name: string, port: nat, sharing: seq<Resource>)
      requires Serves(parse, a, namespace, name, port, sharing) && a.owners == OwnersOf(sharing)
      requires b.namespace == a.namespace && b.labels == a.labels && b.service == a.service && b.rules == a.rules
      requires b.owners == a.owners || Included(b.owners, a.owners)
      ensures Serves(parse, b, namespace, name, port, sharing)
    {
    }

    lemma FilteredAreSharing(parse: Parser, subs: seq<Resource>, namespace: string, name: string, port: nat)
      ensures Selected(Selected(subs, (s: Resource) => s.namespace == namespace && ForService(parse, s, namespace, name)),
                       (s: Resource) => OnPort(parse, s, port))
              == Sharing(parse, subs, namespace, name, port)
    {
      SelectedTwice(subs, (s: Resource) => s.namespace == namespace && ForService(parse, s, namespace, name), (s: Resource) => OnPort(parse, s, port),
                    (s: Resource) => s.namespace == namespace && ForService(parse, s, namespace, name) && OnPort(parse, s, port));
    }

    /** syncAPIRule.  The address in the status is set only when the rule is ready.  For a subscription that
        lives in the namespace of its service it is the address that EventMesh is told. */
    method SyncAPIRule(s: Resource) returns (outcome: Outcome, skippable: bool, rule: Option<ApiRule>, externalSink: Option<string>)
      requires server.Valid()
      modifies server`apiRules, server`policies, server`faults
      ensures server.Valid()
      ensures server.faults in {old(server.faults), old(server.faults) + 1} && (rule.Some? ==> server.faults == old(server.faults))
      ensures AllServiced(old(server.apiRules)) && rule.None? ==>
                || server.faults > old(server.faults) || parse(s.sink).None?
                || ServiceOf(parse(s.sink).value.host).None? || PortOf(parse(s.sink).value).None?
      ensures rule.Some? ==> (outcome.Pass? <==> rule.value.state == READY && ExternalSinkOf(parse, rule.value, s.sink).Some?)
      ensures externalSink.Some? <==> outcome.Pass?
      ensures skippable <==> parse(s.sink).None? || (rule.Some? && (rule.value.state != "Ready" || outcome.Pass?))
      ensures outcome.Pass? ==> rule.Some? && rule.value.state == "Ready"
      ensures outcome.Pass? ==> rule.Some? && rule.value.state == READY && externalSink == ExternalSinkOf(parse, rule.value, s.sink)
      ensures rule.Some? ==>
                && parse(s.sink).Some? && ServiceOf(parse(s.sink).value.host).Some? && PortOf(parse(s.sink).value).Some?
                && var url := parse(s.sink).value;
                   var (namespace, name), port := ServiceOf(url.host).value, PortOf(url).value;
                   var sharing := Sharing(parse, server.subscriptions, namespace, name, port);
                   && Serves(parse, rule.value, namespace, name, port, sharing)
                   && (externalSink.Some? ==>
                         (externalSink == ExposedUrl(parse, rule.value, s.sink) <==> Wanted(parse, sharing, SinkPath(url))))
                   && (s in server.subscriptions && !s.deleting && s.namespace == namespace && externalSink.Some? ==>
                         externalSink == ExposedUrl(parse, rule.value, s.sink))
    {
      hide ServiceOf, PortOf, SinkPath, HostOf, PathsExact, Serves;
      var url := parse(s.sink);
      if url.None? {
        return Fail(Failed), true, None, None;
      }
      outcome, rule := CreateOrUpdateAPIRule(s, url.value);
      if outcome.Fail? {
        return Fail(Failed), false, None, None;
      }
      var (namespace, name) := ServiceOf(url.value.host).value;
      ghost var port := PortOf(url.value).value;
      ghost var sharing := Sharing(parse, server.subscriptions, namespace, name, port);
      ServesWanted(parse, rule.value, namespace, name, port, sharing, SinkPath(url.value));
      if rule.value.state != READY {
        return Fail(Failed), true, rule, None;
      }
      externalSink := ExternalSinkOf(parse, rule.value, s.sink);
      skippable := externalSink.Some?;
      outcome := if externalSink.Some? then Pass else Fail(Failed);
      if externalSink.Some? {
        AddressesAgreeIff(parse, rule.value, s.sink);
      }
    }

    lemma ServesWanted(parse: Parser, rule: ApiRule, namespace: string, name: string, port: nat, sharing: seq<Resource>, path: string)
      requires Serves(parse, rule, namespace, name, port, sharing)
      ensures Exposes(rule, path) <==> Wanted(parse, sharing, path)
    {
      WantedIsExposed(parse, rule, sharing, path);
    }
  }

  /** For a validated subscription the address in the status is the one that EventMesh is told. */
  lemma ValidatedAddressesAgree(parse: Parser, subs: seq<Resource>, s: Resource, rule: ApiRule, namespace: string, name: string, port: nat)
    requires s in subs && !s.deleting && ValidSink(parse, s.sink, s.namespace)
    requires ServiceOf(parse(s.sink).value.host) == Some((namespace, name)) && PortOf(parse(s.sink).value) == Some(port)
    requires Serves(parse, rule, namespace, name, port, Sharing(parse, subs, namespace, name, port))
    requires ExternalSinkOf(parse, rule, s.sink).Some?
    ensures ExternalSinkOf(parse, rule, s.sink) == ExposedUrl(parse, rule, s.sink)
  {
    hide ServiceOf, PortOf, ValidSink, ExternalSinkOf, ExposedUrl, PathsExact;
    ValidSinkService(parse, s.sink, s.namespace);
    var sharing := Sharing(parse, subs, namespace, name, port);
    ValidSinkParses(parse, s);
    assert s in sharing;
    var path := SinkPath(parse(s.sink).value);
    WantedIsExposed(parse, rule, sharing, path);
    AddressesAgreeIff(parse, rule, s.sink);
  }

  lemma ValidSinkParses(parse: Parser, s: Resource)
    requires ValidSink(parse, s.sink, s.namespace)
    ensures parse(s.sink).Some?
  {
  }
}
