/** The status of a Subscription in the EventMesh reconciler: its conditions, its readiness and how both are
    kept in step. */
module SubscriptionStatuses {
  import opened Outcomes
  import opened Subscriptions
  import opened ListEquality
  import opened EventMeshTypes
  import opened Conditions

  datatype Status = Status(conditions: seq<Condition>, ready: bool, apiRuleName: string, externalSink: string, backend: BackendStatus)

  const NO_STATUS_YET := Status([], false, "", "", NO_STATUS)

  /** The list has the right length and no foreign type, but a type twice: the check for the right types
      takes it for complete. */
  predicate Misjudged(conditions: seq<Condition>) {
    Included(TypesOf(conditions), REQUIRED) && !Distinct(TypesOf(conditions))
  }

  type Table = map<string, Condition>

  ghost predicate Tabled(cs: seq<Condition>, table: Table) {
    && (forall t :: t in table <==> t in TypesOf(cs))
    && (forall t :: t in table ==> First(cs, t) == Some(table[t]))
  }

  /** No type occurs twice, and none is foreign. */
  ghost predicate Suited(current: seq<Condition>, expected: seq<Condition>) {
    Distinct(TypesOf(current)) && forall t :: t in TypesOf(current) ==> t in TypesOf(expected)
  }

  /** The loop over the current conditions: what was seen is taken once, and `remaining` holds the rest. */
  ghost predicate Taking(expected: seq<Condition>, seen: seq<Condition>, remaining: Table, required: seq<Condition>) {
    && (forall t :: t in remaining ==> First(expected, t) == Some(remaining[t]) && t !in TypesOf(required) && t !in TypesOf(seen))
    && (forall t :: t in TypesOf(expected) && t !in remaining ==> t in TypesOf(seen) && First(required, t) == First(seen, t))
    && multiset(TypesOf(required)) + multiset(remaining.Keys) == multiset(TypesOf(expected))
  }

  /** The loop over what remains. */
  ghost predicate Filling(expected: seq<Condition>, current: seq<Condition>, remaining: Table, required: seq<Condition>) {
    && (forall t :: t in remaining ==> First(expected, t) == Some(remaining[t]) && t !in TypesOf(required) && t !in TypesOf(current))
    && (forall t :: t in TypesOf(expected) && t !in remaining ==>
          First(required, t) == if t in TypesOf(current) then First(current, t) else First(expected, t))
    && multiset(TypesOf(required)) + multiset(remaining.Keys) == multiset(TypesOf(expected))
  }

  /** getRequiredConditions.  The missing conditions are appended in no particular order. */
  method GetRequiredConditions(current: seq<Condition>, expected: seq<Condition>) returns (required: seq<Condition>)
    requires Distinct(TypesOf(expected))
    ensures multiset(TypesOf(required)) == multiset(TypesOf(expected))
    ensures forall t :: t in TypesOf(expected) ==>
              First(required, t) == if t in TypesOf(current) then First(current, t) else First(expected, t)
    ensures Suited(current, expected) ==> current <= required
  {
    hide TypesOf, First, Taking, Filling, Tabled, Distinct, Suited;
    var remaining: Table := map[];
    TableStarts();
    for i := 0 to |expected|
      invariant Tabled(expected[..i], remaining)
    {
      TableGrows(expected, i, remaining);
      remaining := remaining[expected[i].conditionType := expected[i]];
    }
    assert expected[..|expected|] == expected;
    required := [];
    TakingStarts(expected, remaining);
    ghost var suited := Suited(current, expected);
    for i := 0 to |current|
      invariant Taking(expected, current[..i], remaining, required)
      invariant suited ==> required == current[..i]
    {
      assert current[..i + 1] == current[..i] + [current[i]];
      TakeOne(expected, current, i, remaining, required);
      if current[i].conditionType in remaining {
        required := required + [current[i]];
        remaining := remaining - {current[i].conditionType};
      }
    }
    assert current[..|current|] == current;
    FillingStarts(expected, current, remaining, required);
    ghost var kept := required;
    while remaining != map[]
      invariant Filling(expected, current, remaining, required)
      invariant kept <= required
      decreases |remaining|
    {
      var t :| t in remaining;
      FillOne(expected, current, remaining, required, t);
      required := required + [remaining[t]];
      remaining := remaining - {t};
    }
    FillingEnds(expected, current, required);
  }

  lemma TableStarts()
    ensures Tabled([], map[])
  {
  }

  lemma TableGrows(cs: seq<Condition>, i: nat, table: Table)
    requires i < |cs| && Distinct(TypesOf(cs)) && Tabled(cs[..i], table)
    ensures Tabled(cs[..i + 1], table[cs[i].conditionType := cs[i]])
  {
    hide TypesOf, First;
    PrefixGrows(cs, i);
    DistinctPrefix(cs, i);
  }

  lemma TakingStarts(expected: seq<Condition>, remaining: Table)
    requires Distinct(TypesOf(expected))
    requires Tabled(expected, remaining)
    ensures Taking(expected, [], remaining, [])
  {
    hide TypesOf, First;
    TypesOfNone();
    DistinctSet(TypesOf(expected));
    assert remaining.Keys == set t | t in TypesOf(expected);
  }

  lemma TakeOne(expected: seq<Condition>, current: seq<Condition>, i: nat, remaining: Table, required: seq<Condition>)
    requires i < |current| && Taking(expected, current[..i], remaining, required)
    ensures var c := current[i];
            if c.conditionType in remaining then Taking(expected, current[..i + 1], remaining - {c.conditionType}, required + [c])
            else Taking(expected, current[..i + 1], remaining, required)
    ensures Suited(current, expected) ==> current[i].conditionType in remaining
  {
    hide TypesOf, First, Taking, Suited;
    if current[i].conditionType in remaining {
      TakeMissing(expected, current, i, remaining, required);
    } else {
      TakeKnown(expected, current, i, remaining, required);
    }
  }

  lemma TakeMissing(expected: seq<Condition>, current: seq<Condition>, i: nat, remaining: Table, required: seq<Condition>)
    requires i < |current| && Taking(expected, current[..i], remaining, required) && current[i].conditionType in remaining
    ensures Taking(expected, current[..i + 1], remaining - {current[i].conditionType}, required + [current[i]])
  {
    hide TypesOf, First;
    PrefixGrows(current, i);
    Appended(required, current[i]);
    RemoveKey(remaining, current[i].conditionType);
  }

  lemma TakeKnown(expected: seq<Condition>, current: seq<Condition>, i: nat, remaining: Table, required: seq<Condition>)
    requires i < |current| && Taking(expected, current[..i], remaining, required) && current[i].conditionType !in remaining
    ensures Taking(expected, current[..i + 1], remaining, required)
    ensures !Suited(current, expected)
  {
    hide TypesOf, First;
    PrefixGrows(current, i);
    DistinctPrefix(current, i);
  }

  lemma FillingStarts(expected: seq<Condition>, current: seq<Condition>, remaining: Table, required: seq<Condition>)
    requires Taking(expected, current, remaining, required)
    ensures Filling(expected, current, remaining, required)
  {
  }

  lemma FillOne(expected: seq<Condition>, current: seq<Condition>, remaining: Table, required: seq<Condition>, t: string)
    requires Filling(expected, current, remaining, required) && t in remaining
    ensures Filling(expected, current, remaining - {t}, required + [remaining[t]])
    ensures |remaining - {t}| < |remaining|
  {
    hide TypesOf, First;
    FirstType(expected, t);
    Appended(required, remaining[t]);
    RemoveKey(remaining, t);
  }

  lemma FillingEnds(expected: seq<Condition>, current: seq<Condition>, required: seq<Condition>)
    requires Filling(expected, current, map[], required)
    ensures multiset(TypesOf(required)) == multiset(TypesOf(expected))
    ensures forall t :: t in TypesOf(expected) ==>
              First(required, t) == if t in TypesOf(current) then First(current, t) else First(expected, t)
  {
    hide TypesOf, First;
    var none: Table := map[];
    assert none.Keys == {};
  }

  lemma PrefixGrows(cs: seq<Condition>, i: nat)
    requires i < |cs|
    ensures TypesOf(cs[..i + 1]) == TypesOf(cs[..i]) + [cs[i].conditionType]
    ensures forall t :: First(cs[..i + 1], t) == if First(cs[..i], t).Some? then First(cs[..i], t)
                                                 else if cs[i].conditionType == t then Some(cs[i]) else None
    ensures forall t :: First(cs[..i], t).Some? <==> t in TypesOf(cs[..i])
    ensures cs[..i + 1] == cs[..i] + [cs[i]] && cs[i].conditionType in TypesOf(cs)
  {
    assert cs[..i + 1][..i] == cs[..i];
    assert TypesOf(cs)[i] == cs[i].conditionType;
  }

  lemma DistinctPrefix(cs: seq<Condition>, i: nat)
    requires i < |cs|
    ensures Distinct(TypesOf(cs)) ==> cs[i].conditionType !in TypesOf(cs[..i])
  {
    assert TypesOf(cs[..i]) == TypesOf(cs)[..i];
    assert TypesOf(cs)[i] == cs[i].conditionType;
  }

  lemma FirstType(cs: seq<Condition>, t: string)
    ensures First(cs, t).Some? ==> First(cs, t).value.conditionType == t
  {
  }

  lemma RemoveKey(m: map<string, Condition>, t: string)
    requires t in m
    ensures multiset((m - {t}).Keys) + multiset{t} == multiset(m.Keys)
    ensures |m - {t}| < |m|
  {
    assert (m - {t}).Keys == m.Keys - {t};
  }

  lemma {:induction false} DistinctSet(a: seq<string>)
    requires Distinct(a)
    ensures multiset(a) == multiset(set x | x in a)
  {
    DistinctCounts(a);
    forall x
      ensures multiset(a)[x] == multiset(set x | x in a)[x]
    {
      assert x in a <==> x in multiset(a);
    }
  }

  /** A status that is reset with nothing but its hashes kept. */
  function Reset(s: Status): (reset: Status)
    ensures reset.conditions == [] && !reset.ready && reset.apiRuleName == "" && reset.externalSink == ""
    ensures reset.backend == BackendStatus([], [], s.backend.hashes, None)
  {
    NO_STATUS_YET.(backend := NO_STATUS.(hashes := s.backend.hashes))
  }

  /** The last ready status. */
  predicate LastReady(statuses: seq<Status>, i: nat)
    requires i < |statuses|
  {
    statuses[i].ready && forall k :: i < k < |statuses| ==> !statuses[k].ready
  }

  /** markAllV1Alpha2SubscriptionsAsNotReady, given what each write is answered: resets the ready ones.  A write
      that fails is skipped, and only the last one decides the outcome. */
  method MarkAllAsNotReady(statuses: seq<Status>, writes: seq<Outcome>) returns (stored: seq<Status>, outcome: Outcome)
    requires |writes| == |statuses|
    ensures |stored| == |statuses|
    ensures forall i :: 0 <= i < |statuses| ==> stored[i] == if statuses[i].ready && writes[i].Pass? then Reset(statuses[i]) else statuses[i]
    ensures forall i :: 0 <= i < |statuses| ==> stored[i].backend.hashes == statuses[i].backend.hashes
    ensures (forall i :: 0 <= i < |statuses| ==> !statuses[i].ready) ==> outcome.Pass?
    ensures forall i :: 0 <= i < |statuses| && LastReady(statuses, i) ==> outcome == writes[i]
  {
    stored, outcome := statuses, Pass;
    for i := 0 to |statuses|
      invariant |stored| == |statuses|
      invariant forall k :: 0 <= k < i ==> stored[k] == if statuses[k].ready && writes[k].Pass? then Reset(statuses[k]) else statuses[k]
      invariant forall k :: i <= k < |statuses| ==> stored[k] == statuses[k]
      invariant (forall k :: 0 <= k < i ==> !statuses[k].ready) ==> outcome.Pass?
      invariant forall k :: 0 <= k < i && statuses[k].ready && (forall m :: k < m < i ==> !statuses[m].ready) ==> outcome == writes[k]
    {
      if !statuses[i].ready {
        continue;
      }
      var desired := NO_STATUS_YET.(ready := false, backend := NO_STATUS.(hashes := statuses[i].backend.hashes));
      outcome := writes[i];
      if outcome.Pass? {
        stored := stored[i := desired];
      }
    }
  }

  lemma InitialCases(c: seq<Condition>)
    ensures RequiredOnce(c) <==> Included(TypesOf(c), REQUIRED) && !Misjudged(c)
    ensures RequiredOnce(c) ==> Distinct(TypesOf(c)) && forall t :: t in TypesOf(c) <==> t in REQUIRED
    ensures RequiredOnce(MakeSubscriptionConditions())
    ensures Misjudged(c) ==> Included(TypesOf(c), REQUIRED)
    ensures c == [] ==> !Included(TypesOf(c), REQUIRED)
  {
    RequiredOnceIff(c);
    MadeTypes();
    if RequiredOnce(c) {
      PermutationMembers(TypesOf(c), REQUIRED);
      PermutationMembers(REQUIRED, TypesOf(c));
    }
  }

  lemma RequiredPrefix(c: seq<Condition>, d: seq<Condition>)
    requires c <= d && RequiredOnce(c) && RequiredOnce(d)
    ensures c == d
  {
    hide Distinct;
    assert |TypesOf(c)| == |multiset(TypesOf(c))| && |TypesOf(d)| == |multiset(TypesOf(d))|;
  }

  /** Each required type has a condition, and the first one of it is true. */
  predicate PresentTrue(c: seq<Condition>) {
    forall t :: t in REQUIRED ==> First(c, t).Some? && First(c, t).value.status == TRUE
  }

  /** The conditions are taken for the right ones and the readiness for theirs, so that nothing is reset. */
  predicate Settled(c: seq<Condition>, ready: bool) {
    Included(TypesOf(c), REQUIRED) && ready == (RequiredOnce(c) && AllTrue(c))
  }

  /** What syncInitialStatus has to find for the readiness that it leaves to agree with the conditions. */
  predicate ReadinessWillAgree(c: seq<Condition>, ready: bool) {
    || RequiredOnce(c) || c == []
    || (if Misjudged(c) then ready || !AllTrue(c) else ready != PresentTrue(c))
  }

  lemma {:induction false} FirstOfDistinct(c: seq<Condition>, i: nat)
    requires i < |c| && Distinct(TypesOf(c))
    ensures First(c, c[i].conditionType) == Some(c[i])
  {
    var n := |c| - 1;
    TypesPrefix(c, n);
    if i < n {
      TypesOfDistinct(c, i, n);
      FirstOfDistinct(c[..n], i);
    } else {
      DistinctPrefix(c, n);
    }
  }

  lemma AllTrueByType(c: seq<Condition>)
    requires RequiredOnce(c)
    ensures AllTrue(c) <==> PresentTrue(c)
  {
    hide First, TypesOf, RequiredOnce;
    InitialCases(c);
    forall i | 0 <= i < |c|
      ensures c[i].conditionType in REQUIRED && First(c, c[i].conditionType) == Some(c[i])
    {
      TypesPrefix(c, i);
      assert TypesOf(c)[i] in TypesOf(c);
      FirstOfDistinct(c, i);
    }
  }

  /** Completing the conditions with unknown ones makes none of them true. */
  lemma CompletedTrueIff(c: seq<Condition>, d: seq<Condition>)
    requires RequiredOnce(d)
    requires forall t :: t in REQUIRED ==> First(d, t) == if t in TypesOf(c) then First(c, t) else First(MakeSubscriptionConditions(), t)
    ensures AllTrue(d) <==> PresentTrue(c)
  {
    hide First, TypesOf, RequiredOnce, AllTrue;
    AllTrueByType(d);
    forall t | t in REQUIRED && t !in TypesOf(c)
      ensures First(d, t).Some? ==> First(d, t).value.status != TRUE
    {
      assert First(MakeSubscriptionConditions(), t).Some? ==> First(MakeSubscriptionConditions(), t).value in MakeSubscriptionConditions();
    }
  }

  /** A list that lacks a type has not all of them true. */
  lemma IncompleteIsNotTrue(c: seq<Condition>)
    requires c == [] || Misjudged(c)
    ensures !PresentTrue(c)
  {
    hide TypesOf, RequiredOnce;
    RequiredOnceIff(c);
    if c == [] {
      TypesOfNone();
      assert REQUIRED[0] in REQUIRED;
    }
  }

  /** One true condition is enough to go wrong: a status that was not ready becomes ready, with the other
      conditions unknown.  And a list that is misjudged may leave a status with true conditions unready. */
  lemma ReadinessIsTurnedAround(c: Condition)
    ensures !ReadinessWillAgree([c], false)
    ensures c.conditionType in REQUIRED && c.status == TRUE ==> !ReadinessWillAgree([c, c, c, c, c], false)
  {
    hide RequiredOnce, PresentTrue;
    InitialCases([c]);
    OneIsNotAll(c);
    if c.conditionType in REQUIRED {
      DuplicatesAreMisjudged(c.conditionType, c);
    }
  }

  lemma OneIsNotAll(c: Condition)
    ensures !PresentTrue([c])
  {
    assert REQUIRED[0] != REQUIRED[1];
    var other := if c.conditionType == REQUIRED[0] then REQUIRED[1] else REQUIRED[0];
    assert TypesOf([c]) == [c.conditionType];
    assert other in REQUIRED && First([c], other).None?;
  }

  type TimeParser = string -> Option<int>

  /** The last delivery failed, as far as the report tells. */
  predicate LastDeliveryFailed(parseTime: TimeParser, report: Report) {
    && report.lastFailedDelivery != ""
    && (parseTime(report.lastFailedDelivery).Some? && report.lastSuccessfulDelivery != "" && parseTime(report.lastSuccessfulDelivery).Some? ==>
          parseTime(report.lastFailedDelivery).value > parseTime(report.lastSuccessfulDelivery).value)
  }

  /** The report tells when deliveries failed and succeeded last, if they did. */
  predicate TimesReadable(parseTime: TimeParser, report: Report) {
    report.lastFailedDelivery != "" ==>
      && parseTime(report.lastFailedDelivery).Some?
      && (report.lastSuccessfulDelivery != "" ==> parseTime(report.lastSuccessfulDelivery).Some?)
  }

  /** checkLastFailedDelivery; a time that cannot be read counts as a failure and is told instead of the reason. */
  method CheckLastFailedDelivery(parseTime: TimeParser, report: Report) returns (failed: bool, unreadable: Option<string>)
    ensures failed <==> LastDeliveryFailed(parseTime, report)
    ensures unreadable.None? <==> TimesReadable(parseTime, report)
  {
    unreadable := None;
    if |report.lastFailedDelivery| == 0 {
      return false, None;
    }
    var failedTime := parseTime(report.lastFailedDelivery);
    var message: string := *;
    if failedTime.None? {
      return true, Some(message);
    }
    if |report.lastSuccessfulDelivery| == 0 {
      return true, None;
    }
    var successfulTime := parseTime(report.lastSuccessfulDelivery);
    if successfulTime.None? {
      return true, Some(message);
    }
    failed := failedTime.value > successfulTime.value;
  }

  /** The webhook condition tells a failure, with its reason if the times can be read. */
  ghost predicate TellsDelivery(webhook: Condition, parseTime: TimeParser, report: Report) {
    && Tells(webhook, "Webhook call status", if LastDeliveryFailed(parseTime, report) then Some(webhook.message) else None)
    && webhook.reason == WEBHOOK_REASON && (webhook.status == "True" ==> webhook.message == "")
    && (webhook.status == "False" && TimesReadable(parseTime, report) ==> webhook.message == report.lastFailedDeliveryReason)
  }

  /** The condition that syncConditionWebhookCallStatus sets. */
  method WebhookCondition(parseTime: TimeParser, report: Report) returns (webhook: Condition)
    ensures TellsDelivery(webhook, parseTime, report) && webhook.conditionType == WEBHOOK_CALL_STATUS
  {
    hide LastDeliveryFailed, TimesReadable;
    var failed, unreadable := CheckLastFailedDelivery(parseTime, report);
    ReadableOrFailed(parseTime, report);
    webhook := Condition(WEBHOOK_CALL_STATUS, TRUE, WEBHOOK_REASON, "");
    if unreadable.Some? {
      webhook := webhook.(status := FALSE, message := unreadable.value);
    } else if failed {
      webhook := webhook.(status := FALSE, message := report.lastFailedDeliveryReason);
    }
  }

  lemma ReadableOrFailed(parseTime: TimeParser, report: Report)
    ensures !TimesReadable(parseTime, report) ==> LastDeliveryFailed(parseTime, report)
  {
  }

  /** The first condition of a type that syncInitialStatus leaves: the present one, or an unknown one. */
  function Kept(c: seq<Condition>, t: string): Option<Condition> {
    if t in TypesOf(c) then First(c, t) else Some(Condition(t, "Unknown", "", ""))
  }

  function StatusFor(isTrue: bool): string {
    if isTrue then "True" else "False"
  }

  /** The conditions after a reconciliation: each tells how its step went, and those of steps that were not
      reached are as syncInitialStatus left them. */
  ghost predicate ConditionsTell(before: seq<Condition>, after: seq<Condition>, validation: Option<string>, apiRule: Option<string>,
                                 synced: Option<string>, reached: bool, passed: bool, active: bool, deliveryFailed: bool) {
    && Shows(after, "Subscription spec valid", StatusFor(validation.None?))
    && (if validation.None? then Shows(after, "APIRule status", StatusFor(apiRule.None?))
        else First(after, "APIRule status") == Kept(before, "APIRule status"))
    && (if reached then Shows(after, "Subscribed", StatusFor(synced.None?)) else First(after, "Subscribed") == Kept(before, "Subscribed"))
    && (if passed then Shows(after, "Subscription active", StatusFor(active)) && Shows(after, "Webhook call status", StatusFor(!deliveryFailed))
        else
          && First(after, "Subscription active") == Kept(before, "Subscription active")
          && First(after, "Webhook call status") == Kept(before, "Webhook call status"))
  }

  /** Of the required types only that of `c` has another first condition, namely `c`. */
  ghost predicate Takes(before: seq<Condition>, c: Condition, after: seq<Condition>) {
    && RequiredOnce(after)
    && forall t :: t in REQUIRED ==> First(after, t) == if t == c.conditionType then Some(c) else First(before, t)
  }

  /** The first conditions are those that syncInitialStatus leaves. */
  ghost predicate Begins(before: seq<Condition>, initial: seq<Condition>) {
    RequiredOnce(initial) && forall t :: t in REQUIRED ==> First(initial, t) == Kept(before, t)
  }

  lemma ItBegins(before: seq<Condition>, initial: seq<Condition>)
    requires RequiredOnce(initial)
    requires forall t :: t in REQUIRED ==>
               First(initial, t) == if t in TypesOf(before) then First(before, t) else First(MakeSubscriptionConditions(), t)
    ensures Begins(before, initial)
  {
    hide First, TypesOf, RequiredOnce;
    forall t | t in REQUIRED
      ensures First(MakeSubscriptionConditions(), t) == Some(Condition(t, "Unknown", "", ""))
    {
      var i :| 0 <= i < |REQUIRED| && REQUIRED[i] == t;
      MadeTypes();
      RequiredDistinct();
      FirstOfDistinct(MakeSubscriptionConditions(), i);
    }
  }

  lemma ReplacedTakes(before: seq<Condition>, c: Condition)
    requires RequiredOnce(before) && c.conditionType in REQUIRED
    ensures Takes(before, c, Replaced(before, c))
  {
    hide First, TypesOf, RequiredOnce, Replaced;
    InitialCases(before);
    ReplacedStaysRequired(before, c);
    forall t | t in REQUIRED
      ensures First(Replaced(before, c), t) == if t == c.conditionType then Some(c) else First(before, t)
    {
      FirstReplaced(before, c, t);
    }
  }

  lemma ApiRuleTakes(before: seq<Condition>, error: Option<string>)
    requires RequiredOnce(before)
    ensures Takes(before, ApiRuleCondition(error), [ApiRuleCondition(error)] + Without(before, API_RULE_STATUS))
  {
    hide First, TypesOf, RequiredOnce, Without;
    ApiRuleStatusKeepsRequired(before, error);
    forall t | t in REQUIRED
      ensures First([ApiRuleCondition(error)] + Without(before, API_RULE_STATUS), t)
              == if t == API_RULE_STATUS then Some(ApiRuleCondition(error)) else First(before, t)
    {
      FirstCons(ApiRuleCondition(error), Without(before, API_RULE_STATUS), t);
      if t != API_RULE_STATUS {
        FirstWithout(before, API_RULE_STATUS, t);
      }
    }
  }

  lemma TellsInvalid(before: seq<Condition>, initial: seq<Condition>, after: seq<Condition>, validation: Option<string>,
                     apiRule: Option<string>, synced: Option<string>, active: bool, deliveryFailed: bool)
    requires validation.Some? && Begins(before, initial) && Takes(initial, SpecValidCondition(validation), after)
    ensures ConditionsTell(before, after, validation, apiRule, synced, false, false, active, deliveryFailed)
  {
    hide First, RequiredOnce, Kept;
    NamesOfTypes();
  }

  lemma TellsRule(before: seq<Condition>, initial: seq<Condition>, valid: seq<Condition>, after: seq<Condition>,
                  apiRule: Option<string>, synced: Option<string>, active: bool, deliveryFailed: bool)
    requires Begins(before, initial) && Takes(initial, SpecValidCondition(None), valid) && Takes(valid, ApiRuleCondition(apiRule), after)
    ensures ConditionsTell(before, after, None, apiRule, synced, false, false, active, deliveryFailed)
  {
    hide First, RequiredOnce, Kept;
    NamesOfTypes();
  }

  lemma TellsSyncFailed(before: seq<Condition>, ruled: seq<Condition>, after: seq<Condition>, apiRule: Option<string>,
                        synced: Option<string>, meshName: string, active: bool, deliveryFailed: bool)
    requires ConditionsTell(before, ruled, None, apiRule, synced, false, false, active, deliveryFailed)
    requires synced.Some? && Takes(ruled, SubscribedCondition(synced, meshName), after)
    ensures ConditionsTell(before, after, None, apiRule, synced, true, false, active, deliveryFailed)
  {
    hide First, RequiredOnce, Kept;
    NamesOfTypes();
  }

  lemma TellsPassed(before: seq<Condition>, ruled: seq<Condition>, subscribed: seq<Condition>, activated: seq<Condition>, after: seq<Condition>,
                    apiRule: Option<string>, active: bool, deliveryFailed: bool, first: Condition, second: Condition, webhook: Condition)
    requires ConditionsTell(before, ruled, None, apiRule, None, false, false, active, deliveryFailed)
    requires Takes(ruled, first, subscribed) && first.conditionType == "Subscribed" && first.status == "True"
    requires Takes(subscribed, second, activated) && second.conditionType == "Subscription active" && second.status == StatusFor(active)
    requires Takes(activated, webhook, after) && webhook.conditionType == "Webhook call status" && webhook.status == StatusFor(!deliveryFailed)
    ensures ConditionsTell(before, after, None, apiRule, None, true, true, active, deliveryFailed)
  {
    hide First, RequiredOnce, Kept;
    NamesOfTypes();
  }

  /** The names of the required types, which are told apart by their lengths and first letters. */
  lemma NamesOfTypes()
    ensures API_RULE_STATUS == "APIRule status" && SUBSCRIBED == "Subscribed" && SUBSCRIPTION_ACTIVE == "Subscription active"
            && WEBHOOK_CALL_STATUS == "Webhook call status" && SPEC_VALID == "Subscription spec valid"
    ensures Distinct(REQUIRED)
    ensures "APIRule status" in REQUIRED && "Subscribed" in REQUIRED && "Subscription active" in REQUIRED
            && "Webhook call status" in REQUIRED && "Subscription spec valid" in REQUIRED
    ensures |"APIRule status"| == 14 && |"Subscribed"| == 10 && |"Subscription active"| == 19 && |"Webhook call status"| == 19
            && |"Subscription spec valid"| == 23 && "Subscription active" != "Webhook call status"
  {
    RequiredDistinct();
    assert REQUIRED[0] == "APIRule status" && REQUIRED[1] == "Subscribed" && REQUIRED[2] == "Subscription active"
           && REQUIRED[3] == "Webhook call status" && REQUIRED[4] == "Subscription spec valid";
  }

  /** The copy of a Subscription that a reconciliation works on. */
  class WorkingCopy {
    var status: Status

    constructor (status: Status)
      ensures this.status == status
    {
      this.status := status;
    }

    /** syncInitialStatus.  The four hashes survive every case of it. */
    method SyncInitialStatus()
      modifies this
      ensures status.backend.hashes == old(status).backend.hashes
      ensures RequiredOnce(status.conditions) <==> !(Misjudged(old(status).conditions) && !old(status).ready)
      ensures RequiredOnce(status.conditions) ==> forall t :: t in REQUIRED ==>
                First(status.conditions, t) == if t in TypesOf(old(status).conditions) then First(old(status).conditions, t)
                                               else First(MakeSubscriptionConditions(), t)
      ensures RequiredOnce(old(status).conditions) ==> status.conditions == old(status).conditions && status.ready == AllTrue(status.conditions)
      ensures !Included(TypesOf(old(status).conditions), REQUIRED) && old(status).conditions != [] ==> status.ready == !old(status).ready
      ensures if Settled(old(status).conditions, old(status).ready) then status == old(status)
              else
                && status.apiRuleName == "" && status.externalSink == ""
                && status.backend == if old(status).conditions == [] then NO_STATUS.(hashes := old(status).backend.hashes) else old(status).backend
      ensures Misjudged(old(status).conditions) ==> if old(status).ready then !status.ready else status == old(status)
      ensures (status.ready == AllTrue(status.conditions)) <==> ReadinessWillAgree(old(status).conditions, old(status).ready)
      ensures old(status).conditions == [] ==> status == Reset(old(status)).(conditions := MakeSubscriptionConditions())
      ensures RequiredOnce(old(status).conditions) && old(status).ready == AllTrue(old(status).conditions) ==> status == old(status)
    {
      hide TypesOf, First, RequiredOnce, Misjudged, MakeSubscriptionConditions, AllTrue;
      ghost var before := status.conditions;
      InitialCases(before);
      MadeTypes();
      var same := ContainSameConditionTypes(status.conditions, MakeSubscriptionConditions());
      var ready := IsReady(status.conditions);
      if same && !((!status.ready && ready) || (status.ready && !ready)) {
        return;
      }
      if |status.conditions| == 0 {
        status := NO_STATUS_YET.(conditions := MakeSubscriptionConditions(), backend := NO_STATUS.(hashes := status.backend.hashes));
        TypesOfNone();
      } else {
        RequiredDistinct();
        var required := GetRequiredConditions(status.conditions, MakeSubscriptionConditions());
        RequiredOnceByTypes(required);
        if RequiredOnce(before) {
          RequiredPrefix(before, required);
        }
        status := status.(conditions := required, ready := !status.ready);
      }
      status := status.(apiRuleName := "", externalSink := "");
      CompletedTrueIff(before, status.conditions);
      if before == [] || Misjudged(before) {
        IncompleteIsNotTrue(before);
      }
    }

    /** replaceStatusCondition: takes the condition over and computes the readiness anew. */
    method ReplaceStatusCondition(c: Condition) returns (changed: bool)
      modifies this
      ensures status.ready == AllTrue(Replaced(old(status).conditions, c))
      ensures Distinct(TypesOf(old(status).conditions)) ==> status.conditions == Replaced(old(status).conditions, c)
      ensures TypesOf(status.conditions) == TypesOf(old(status).conditions)
      ensures status == old(status).(conditions := status.conditions, ready := status.ready)
      ensures !changed ==> status.ready == old(status).ready && status.conditions == old(status).conditions
      ensures Distinct(TypesOf(old(status).conditions)) ==> (changed <==> status != old(status))
    {
      hide TypesOf, EqualByType;
      var isReady := true;
      var desired: seq<Condition> := [];
      for i := 0 to |status.conditions|
        invariant desired == Replaced(status.conditions, c)[..i]
        invariant isReady == AllTrue(desired)
      {
        var cond := status.conditions[i];
        var chosen := if cond.conditionType == c.conditionType then c else cond;
        desired := desired + [chosen];
        if chosen.status != TRUE {
          assert desired[i].status != TRUE;
          isReady := false;
        }
      }
      assert desired == Replaced(status.conditions, c);
      ReplacedTypes(status.conditions, c);
      var equal := ConditionsEquals(status.conditions, desired);
      if equal && status.ready == isReady {
        if Distinct(TypesOf(status.conditions)) {
          ReplacedEqualByType(status.conditions, c);
        }
        return false;
      }
      if Distinct(TypesOf(desired)) {
        EqualByTypeReflexive(desired);
      }
      status := status.(conditions := desired, ready := isReady);
      changed := true;
    }

    /** validateSubscription, given the verdict of the validator. */
    method ValidateSubscription(error: Option<string>)
      modifies this
      ensures RequiredOnce(old(status).conditions) ==> status.conditions == Replaced(old(status).conditions, SpecValidCondition(error))
      ensures status == old(status).(conditions := status.conditions, ready := error.None? && old(status).ready)
    {
      if error.Some? {
        status := status.(ready := false);
      }
      var result := SetCondition(status.conditions, SpecValidCondition(error));
      if RequiredOnce(status.conditions) {
        InitialCases(status.conditions);
        assert REQUIRED[4] == SPEC_VALID;
        hide TypesOf, RequiredOnce, Rebuilt;
        SetConditionReplaces(status.conditions, SpecValidCondition(error), result);
      }
      status := status.(conditions := result);
    }

    method SetApiRuleStatus(error: Option<string>)
      modifies this
      ensures RequiredOnce(old(status).conditions) ==> RequiredOnce(status.conditions)
      ensures status == old(status).(conditions := [ApiRuleCondition(error)] + Without(old(status).conditions, API_RULE_STATUS))
    {
      var result := SetConditionAPIRuleStatus(status.conditions, error);
      if RequiredOnce(status.conditions) {
        ApiRuleStatusKeepsRequired(status.conditions, error);
      }
      status := status.(conditions := result);
    }

    /** syncEventMeshSubscription, given whether there is an API rule and what the backend answered.  Whether
        the activation has timed out is not modelled.  `reached` says that the condition for the subscription
        was synced. */
    method SyncEventMeshSubscription(hasApiRule: bool, synced: Option<string>, meshName: string, parseTime: TimeParser)
      returns (ready: bool, outcome: Outcome, ghost reached: bool, webhook: Condition)
      requires synced.None? ==> status.backend.report.Some?
      modifies this
      ensures TypesOf(status.conditions) == TypesOf(old(status).conditions)
      ensures reached <==> hasApiRule && (synced.Some? || outcome.Pass?)
      ensures outcome.Pass? ==> hasApiRule && synced.None?
      ensures status == old(status).(conditions := status.conditions, ready := status.ready)
      ensures hasApiRule && synced.None? && old(status).backend.report.value.status == "Active" ==> outcome.Pass?
      ensures reached && Distinct(TypesOf(old(status).conditions)) ==> status.ready == AllTrue(status.conditions)
      ensures !reached ==> status == old(status)
      ensures reached && synced.Some? && RequiredOnce(old(status).conditions) ==> !status.ready
      ensures ready <==> outcome.Pass? && status.backend.report.Some? && status.backend.report.value.status == ACTIVE
      ensures reached && RequiredOnce(old(status).conditions) && status.ready ==> ready
      ensures reached && synced.Some? && Distinct(TypesOf(old(status).conditions)) ==>
                status.conditions == Replaced(old(status).conditions, SubscribedCondition(synced, meshName))
      ensures outcome.Pass? && Distinct(TypesOf(old(status).conditions)) ==>
                && TellsDelivery(webhook, parseTime, status.backend.report.value)
                && status.conditions == Replaced(
                     Replaced(Replaced(old(status).conditions, SubscribedCondition(None, meshName)), MeshActiveCondition(ready)), webhook)
    {
      hide TypesOf, RequiredOnce, TellsDelivery;
      reached := false;
      webhook := Condition(WEBHOOK_CALL_STATUS, TRUE, WEBHOOK_REASON, "");
      if !hasApiRule {
        return false, Fail(Failed), false, webhook;
      }
      assert REQUIRED[1] == SUBSCRIBED && REQUIRED[2] == SUBSCRIPTION_ACTIVE;
      ghost var before := status.conditions;
      InitialCases(before);
      if synced.Some? {
        var _ := ReplaceStatusCondition(SubscribedCondition(synced, meshName));
        if RequiredOnce(before) {
          NotAllTrue(before, SubscribedCondition(synced, meshName));
        }
        return false, Fail(Failed), true, webhook;
      }
      var isActive := status.backend.report.Some? && status.backend.report.value.status == ACTIVE;
      if !isActive {
        if * {
          return false, Fail(Failed), false, webhook;
        }
      }
      reached := true;
      var _ := ReplaceStatusCondition(SubscribedCondition(None, meshName));
      var active := MeshActiveCondition(isActive);
      ghost var last := status.conditions;
      var _ := ReplaceStatusCondition(active);
      webhook := WebhookCondition(parseTime, status.backend.report.value);
      if RequiredOnce(before) && !isActive {
        assert SUBSCRIPTION_ACTIVE[0] != WEBHOOK_CALL_STATUS[0];
        NotAllTrueAfter(last, active, webhook);
      }
      var _ := ReplaceStatusCondition(webhook);
      ready, outcome := isActive, Pass;
    }

    /** The statuses of one reconciliation of a Subscription that is not being deleted, given what the
        validator, the API rule and the backend answer.  `backend` is the status that the backend leaves. */
    method Reconcile(validation: Option<string>, hasApiRule: bool, apiRule: Option<string>, skippable: bool,
                     synced: Option<string>, backend: BackendStatus, meshName: string, parseTime: TimeParser)
      returns (outcome: Outcome, ghost reached: bool)
      requires synced.None? ==> backend.report.Some?
      modifies this
      ensures !(Misjudged(old(status).conditions) && !old(status).ready) ==>
                RequiredOnce(status.conditions) && (reached ==> status.ready == AllTrue(status.conditions))
      ensures reached ==> validation.None? && (apiRule.None? || skippable)
      ensures reached <==> validation.None? && (apiRule.None? || skippable) && hasApiRule && (synced.Some? || outcome.Pass?)
      ensures outcome.Pass? ==> reached && synced.None?
      ensures validation.None? && (apiRule.None? || skippable) && hasApiRule && synced.None? && backend.report.value.status == "Active" ==>
                outcome.Pass?
      ensures if validation.None? && (apiRule.None? || skippable) then status.backend == backend
              else status.backend.hashes == old(status).backend.hashes
      ensures if Settled(old(status).conditions, old(status).ready)
              then status.apiRuleName == old(status).apiRuleName && status.externalSink == old(status).externalSink
              else status.apiRuleName == "" && status.externalSink == ""
      ensures !(Misjudged(old(status).conditions) && !old(status).ready) ==>
                ConditionsTell(old(status).conditions, status.conditions, validation, apiRule, synced, reached, outcome.Pass?,
                               backend.report.Some? && backend.report.value.status == "Active",
                               backend.report.Some? && LastDeliveryFailed(parseTime, backend.report.value))
      ensures validation.Some? ==> outcome.Fail? && !status.ready
      ensures validation.None? && apiRule.Some? && !skippable ==> outcome.Fail? && !reached && !AllTrue(status.conditions)
    {
      hide RequiredOnce, Misjudged, AllTrue, ConditionsTell, LastDeliveryFailed, Settled;
      ghost var start, active := status.conditions, backend.report.Some? && backend.report.value.status == "Active";
      ghost var deliveryFailed := backend.report.Some? && LastDeliveryFailed(parseTime, backend.report.value);
      var proceeds;
      ghost var complete;
      proceeds, complete := CheckSpecAndRule(validation, apiRule, skippable, synced, active, deliveryFailed);
      if !proceeds {
        return Fail(Failed), false;
      }
      outcome, reached := ReconcileBackend(hasApiRule, synced, backend, meshName, parseTime, complete, start, apiRule);
    }

    /** The part of Reconcile before that: the initial status, the verdict of the validator and the API rule. */
    method CheckSpecAndRule(validation: Option<string>, apiRule: Option<string>, skippable: bool,
                            ghost synced: Option<string>, ghost active: bool, ghost deliveryFailed: bool)
      returns (proceeds: bool, ghost complete: bool)
      modifies this
      ensures proceeds <==> validation.None? && (apiRule.None? || skippable)
      ensures complete <==> !(Misjudged(old(status).conditions) && !old(status).ready)
      ensures complete ==>
                && RequiredOnce(status.conditions)
                && ConditionsTell(old(status).conditions, status.conditions, validation, apiRule, synced, false, false, active, deliveryFailed)
      ensures status.backend.hashes == old(status).backend.hashes
      ensures if Settled(old(status).conditions, old(status).ready)
              then status.apiRuleName == old(status).apiRuleName && status.externalSink == old(status).externalSink
              else status.apiRuleName == "" && status.externalSink == ""
      ensures validation.Some? ==> !status.ready
      ensures validation.None? && apiRule.Some? ==> !AllTrue(status.conditions)
    {
      hide TypesOf, RequiredOnce, Misjudged, AllTrue, First, Without, Replaced, Begins, Takes, ConditionsTell, Settled;
      ghost var start := status.conditions;
      SyncInitialStatus();
      ghost var initial := status.conditions;
      complete := RequiredOnce(initial);
      ValidateSubscription(validation);
      ghost var valid := status.conditions;
      NamesOfTypes();
      if complete {
        ItBegins(start, initial);
        ReplacedTakes(initial, SpecValidCondition(validation));
        ReplacedStaysRequired(initial, SpecValidCondition(validation));
      }
      if validation.Some? {
        if complete {
          TellsInvalid(start, initial, valid, validation, apiRule, synced, active, deliveryFailed);
        }
        return false, complete;
      }
      SetApiRuleStatus(apiRule);
      if complete {
        ApiRuleTakes(valid, apiRule);
        TellsRule(start, initial, valid, status.conditions, apiRule, synced, active, deliveryFailed);
      }
      if apiRule.Some? {
        ApiRuleFailureIsNotReady(valid, apiRule.value);
      }
      proceeds := apiRule.None? || skippable;
    }

    /** The part of Reconcile that talks to the backend, once the rule is in place or may be missing. */
    method ReconcileBackend(hasApiRule: bool, synced: Option<string>, backend: BackendStatus, meshName: string, parseTime: TimeParser,
                            ghost complete: bool, ghost start: seq<Condition>, ghost apiRule: Option<string>)
      returns (outcome: Outcome, ghost reached: bool)
      requires synced.None? ==> backend.report.Some?
      requires complete ==>
                 RequiredOnce(status.conditions) &&
                 ConditionsTell(start, status.conditions, None, apiRule, synced, false, false,
                                backend.report.Some? && backend.report.value.status == "Active",
                                backend.report.Some? && LastDeliveryFailed(parseTime, backend.report.value))
      modifies this
      ensures reached <==> hasApiRule && (synced.Some? || outcome.Pass?)
      ensures outcome.Pass? ==> reached && synced.None?
      ensures hasApiRule && synced.None? && backend.report.value.status == "Active" ==> outcome.Pass?
      ensures status == old(status).(backend := backend, conditions := status.conditions, ready := status.ready)
      ensures complete ==>
                && RequiredOnce(status.conditions)
                && (reached ==> status.ready == AllTrue(status.conditions))
                && ConditionsTell(start, status.conditions, None, apiRule, synced, reached, outcome.Pass?,
                                  backend.report.Some? && backend.report.value.status == "Active",
                                  backend.report.Some? && LastDeliveryFailed(parseTime, backend.report.value))
    {
      hide TypesOf, RequiredOnce, Misjudged, AllTrue, First, Replaced, Takes, ConditionsTell, LastDeliveryFailed;
      ghost var active := backend.report.Some? && backend.report.value.status == "Active";
      ghost var deliveryFailed := backend.report.Some? && LastDeliveryFailed(parseTime, backend.report.value);
      ghost var ruled := status.conditions;
      InitialCases(ruled);
      NamesOfTypes();
      status := status.(backend := backend);
      var ready, webhook;
      ready, outcome, reached, webhook := SyncEventMeshSubscription(hasApiRule, synced, meshName, parseTime);
      SameTypesRequired(ruled, status.conditions);
      if complete && outcome.Pass? {
        ThreeTaken(ruled, SubscribedCondition(None, meshName), MeshActiveCondition(ready), webhook);
        ghost var subscribed := Replaced(ruled, SubscribedCondition(None, meshName));
        TellsPassed(start, ruled, subscribed, Replaced(subscribed, MeshActiveCondition(ready)), status.conditions, apiRule,
                    active, deliveryFailed, SubscribedCondition(None, meshName), MeshActiveCondition(ready), webhook);
      } else if complete && reached {
        ReplacedTakes(ruled, SubscribedCondition(synced, meshName));
        TellsSyncFailed(start, ruled, status.conditions, apiRule, synced, meshName, active, deliveryFailed);
      }
    }
  }

  lemma ThreeTaken(before: seq<Condition>, a: Condition, b: Condition, c: Condition)
    requires RequiredOnce(before) && a.conditionType in REQUIRED && b.conditionType in REQUIRED && c.conditionType in REQUIRED
    ensures var first := Replaced(before, a);
            var second := Replaced(first, b);
            Takes(before, a, first) && Takes(first, b, second) && Takes(second, c, Replaced(second, c))
  {
    hide RequiredOnce, Takes, Replaced;
    ReplacedTakes(before, a);
    ReplacedStaysRequired(before, a);
    ReplacedTakes(Replaced(before, a), b);
    ReplacedStaysRequired(Replaced(before, a), b);
    ReplacedTakes(Replaced(Replaced(before, a), b), c);
  }

  lemma ReplacedStaysRequired(conditions: seq<Condition>, c: Condition)
    requires RequiredOnce(conditions)
    ensures RequiredOnce(Replaced(conditions, c))
  {
    ReplacedTypes(conditions, c);
  }

  lemma SameTypesRequired(c: seq<Condition>, d: seq<Condition>)
    requires TypesOf(c) == TypesOf(d)
    ensures RequiredOnce(c) == RequiredOnce(d)
  {
  }

  lemma RequiredOnceByTypes(c: seq<Condition>)
    requires multiset(TypesOf(c)) == multiset(TypesOf(MakeSubscriptionConditions()))
    ensures RequiredOnce(c)
  {
    MadeTypes();
  }

  function SubscribedCondition(error: Option<string>, meshName: string): (c: Condition)
    ensures Tells(c, "Subscribed", error)
  {
    match error
    case None => Condition(SUBSCRIBED, TRUE, "EventMesh Subscription created", "EventMesh subscription name is: " + meshName)
    case Some(message) => Condition(SUBSCRIBED, FALSE, "EventMesh Subscription creation failed", message)
  }

  function MeshActiveCondition(isActive: bool): (c: Condition)
    ensures c.conditionType == "Subscription active" && c.status == if isActive then "True" else "False"
  {
    if isActive then Condition(SUBSCRIPTION_ACTIVE, TRUE, "EventMesh Subscription active", "")
    else Condition(SUBSCRIPTION_ACTIVE, FALSE, "EventMesh Subscription not active", "Waiting for subscription to be active")
  }

  const WEBHOOK_REASON := "EventMesh Subscription webhook call no errors status"

  /** What users read in the conditions that the backend sets. */
  lemma BackendSpelledOut(message: string, meshName: string)
    ensures SubscribedCondition(None, meshName)
            == Condition("Subscribed", "True", "EventMesh Subscription created", "EventMesh subscription name is: " + meshName)
    ensures SubscribedCondition(Some(message), meshName)
            == Condition("Subscribed", "False", "EventMesh Subscription creation failed", message)
    ensures MeshActiveCondition(true) == Condition("Subscription active", "True", "EventMesh Subscription active", "")
    ensures MeshActiveCondition(false)
            == Condition("Subscription active", "False", "EventMesh Subscription not active", "Waiting for subscription to be active")
    ensures WEBHOOK_REASON == "EventMesh Subscription webhook call no errors status"
  {
  }

  lemma NotAllTrue(conditions: seq<Condition>, c: Condition)
    requires c.conditionType in TypesOf(conditions) && c.status != TRUE
    ensures !AllTrue(Replaced(conditions, c))
  {
    var i :| 0 <= i < |conditions| && TypesOf(conditions)[i] == c.conditionType;
    assert Replaced(conditions, c)[i] == c;
  }

  lemma NotAllTrueAfter(conditions: seq<Condition>, c: Condition, d: Condition)
    requires c.conditionType in TypesOf(conditions) && c.status != TRUE && c.conditionType != d.conditionType
    ensures !AllTrue(Replaced(Replaced(conditions, c), d))
  {
    var i :| 0 <= i < |conditions| && TypesOf(conditions)[i] == c.conditionType;
    assert Replaced(conditions, c)[i] == c;
    assert Replaced(Replaced(conditions, c), d)[i] == c;
  }

  /** The conditions tell a failure of the API rule, though the readiness is only withdrawn by the next run. */
  lemma ApiRuleFailureIsNotReady(conditions: seq<Condition>, message: string)
    ensures !AllTrue([ApiRuleCondition(Some(message))] + Without(conditions, API_RULE_STATUS))
  {
    assert ([ApiRuleCondition(Some(message))] + Without(conditions, API_RULE_STATUS))[0].status == FALSE;
  }

  /** Conditions that are misjudged stay: five times the same one passes for the five required ones. */
  lemma DuplicatesAreMisjudged(t: string, c: Condition)
    requires t in REQUIRED && c.conditionType == t
    ensures Misjudged([c, c, c, c, c])
    ensures !RequiredOnce([c, c, c, c, c])
  {
    var five := [c, c, c, c, c];
    assert TypesOf(five) == [t, t, t, t, t];
    InitialCases(five);
  }
}
