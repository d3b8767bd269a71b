/** The conditions in the status of a Subscription. */
module Conditions {
  import opened Subscriptions
  import opened ListEquality

  /** Times of transition are not modelled: no comparison looks at them. */
  datatype Condition = Condition(conditionType: string, status: string, reason: string, message: string)

  const TRUE := "True"
  const FALSE := "False"
  const UNKNOWN := "Unknown"
  const NO_CONDITION := Condition("", "", "", "")

  const API_RULE_STATUS := "APIRule status"
  const SUBSCRIBED := "Subscribed"
  const SUBSCRIPTION_ACTIVE := "Subscription active"
  const WEBHOOK_CALL_STATUS := "Webhook call status"
  const SPEC_VALID := "Subscription spec valid"

  const REQUIRED: seq<string> := [API_RULE_STATUS, SUBSCRIBED, SUBSCRIPTION_ACTIVE, WEBHOOK_CALL_STATUS, SPEC_VALID]

  /** MakeSubscriptionConditions: one condition of each required type, all unknown. */
  function MakeSubscriptionConditions(): seq<Condition> {
    seq(|REQUIRED|, i requires 0 <= i < |REQUIRED| => Condition(REQUIRED[i], UNKNOWN, "", ""))
  }

  function TypesOf(conditions: seq<Condition>): (types: seq<string>)
    ensures |types| == |conditions|
  {
    seq(|conditions|, i requires 0 <= i < |conditions| => conditions[i].conditionType)
  }

  /** Each required type occurs exactly once, and no other does. */
  predicate RequiredOnce(conditions: seq<Condition>) {
    multiset(TypesOf(conditions)) == multiset(REQUIRED)
  }

  predicate AllTrue(conditions: seq<Condition>) {
    forall i :: 0 <= i < |conditions| ==> conditions[i].status == TRUE
  }

  /** FindCondition */
  function First(conditions: seq<Condition>, t: string): (first: Option<Condition>)
    ensures first.Some? <==> t in TypesOf(conditions)
    ensures first.Some? ==> first.value in conditions && first.value.conditionType == t
  {
    if conditions == [] then None
    else
      var n := |conditions| - 1;
      var init := First(conditions[..n], t);
      assert TypesOf(conditions) == TypesOf(conditions[..n]) + [conditions[n].conditionType];
      if init.Some? then init else if conditions[n].conditionType == t then Some(conditions[n]) else None
  }

  lemma RequiredDistinct()
    ensures Distinct(REQUIRED)
  {
    assert REQUIRED[0] == API_RULE_STATUS && REQUIRED[1] == SUBSCRIBED && REQUIRED[2] == SUBSCRIPTION_ACTIVE
           && REQUIRED[3] == WEBHOOK_CALL_STATUS && REQUIRED[4] == SPEC_VALID;
    assert |API_RULE_STATUS| == 14 && |SUBSCRIBED| == 10 && |SUBSCRIPTION_ACTIVE| == 19 && |WEBHOOK_CALL_STATUS| == 19 && |SPEC_VALID| == 23;
    assert SUBSCRIPTION_ACTIVE[0] != WEBHOOK_CALL_STATUS[0];
  }

  lemma MadeTypes()
    ensures TypesOf(MakeSubscriptionConditions()) == REQUIRED
  {
  }

  /** Exactly-once can be read off positions. */
  lemma RequiredOnceIff(conditions: seq<Condition>)
    ensures RequiredOnce(conditions) <==> Included(REQUIRED, TypesOf(conditions))
    ensures RequiredOnce(conditions) <==> Distinct(TypesOf(conditions)) && Included(TypesOf(conditions), REQUIRED)
  {
    hide TypesOf;
    var types := TypesOf(conditions);
    RequiredDistinct();
    EqualIffPermutation(REQUIRED, types);
    if Distinct(types) {
      EqualIffPermutation(types, REQUIRED);
    }
    if RequiredOnce(conditions) {
      PermutationMembers(types, REQUIRED);
    }
  }

  method ContainConditionType(conditions: seq<Condition>, conditionType: string) returns (found: bool)
    ensures found <==> conditionType in TypesOf(conditions)
  {
    for i := 0 to |conditions|
      invariant conditionType !in TypesOf(conditions)[..i]
    {
      if conditions[i].conditionType == conditionType {
        assert TypesOf(conditions)[i] == conditionType;
        return true;
      }
    }
    found := false;
  }

  method ContainSameConditionTypes(conditions1: seq<Condition>, conditions2: seq<Condition>) returns (same: bool)
    ensures same <==> Included(TypesOf(conditions1), TypesOf(conditions2))
  {
    if |conditions1| != |conditions2| {
      return false;
    }
    for i := 0 to |conditions1|
      invariant forall k :: 0 <= k < i ==> TypesOf(conditions1)[k] in TypesOf(conditions2)
    {
      var found := ContainConditionType(conditions2, conditions1[i].conditionType);
      if !found {
        assert TypesOf(conditions1)[i] in TypesOf(conditions1);
        return false;
      }
    }
    same := true;
  }

  /** IsReady: the conditions are the required ones and all true. */
  method IsReady(conditions: seq<Condition>) returns (ready: bool)
    ensures ready <==> RequiredOnce(conditions) && AllTrue(conditions)
  {
    hide RequiredOnce, TypesOf, MakeSubscriptionConditions;
    MadeTypes();
    RequiredOnceIff(conditions);
    var same := ContainSameConditionTypes(MakeSubscriptionConditions(), conditions);
    if !same {
      return false;
    }
    for i := 0 to |conditions|
      invariant forall k :: 0 <= k < i ==> conditions[k].status == TRUE
    {
      if conditions[i].status != TRUE {
        return false;
      }
    }
    ready := true;
  }

  // ---- equality by type ----

  /** The table of the conditions by type; of several conditions of one type it holds the last. */
  function ByType(conditions: seq<Condition>): (table: map<string, Condition>)
    ensures forall t :: t in table <==> t in TypesOf(conditions)
    ensures forall t :: t in table ==> table[t].conditionType == t && table[t] in conditions
  {
    if conditions == [] then map[]
    else
      var n := |conditions| - 1;
      assert TypesOf(conditions) == TypesOf(conditions[..n]) + [conditions[n].conditionType];
      ByType(conditions[..n])[conditions[n].conditionType := conditions[n]]
  }

  /** A lookup in a Go map yields the zero condition for a type that is missing. */
  predicate EqualByType(existing: seq<Condition>, expected: seq<Condition>) {
    |existing| == |expected|
    && forall i :: 0 <= i < |expected| ==>
         var t := expected[i].conditionType;
         expected[i] == if t in ByType(existing) then ByType(existing)[t] else NO_CONDITION
  }

  method ConditionsEquals(existing: seq<Condition>, expected: seq<Condition>) returns (equal: bool)
    ensures equal <==> EqualByType(existing, expected)
  {
    if |existing| != |expected| {
      return false;
    }
    var table: map<string, Condition> := map[];
    for i := 0 to |existing|
      invariant table == ByType(existing[..i])
    {
      assert existing[..i + 1][..i] == existing[..i];
      table := table[existing[i].conditionType := existing[i]];
    }
    assert existing[..|existing|] == existing;
    for i := 0 to |expected|
      invariant forall k :: 0 <= k < i ==>
                  expected[k] == if expected[k].conditionType in table then table[expected[k].conditionType] else NO_CONDITION
    {
      var known := if expected[i].conditionType in table then table[expected[i].conditionType] else NO_CONDITION;
      if known != expected[i] {
        return false;
      }
    }
    equal := true;
  }

  lemma TypesPrefix(conditions: seq<Condition>, n: nat)
    requires n <= |conditions|
    ensures TypesOf(conditions[..n]) == TypesOf(conditions)[..n]
    ensures forall i :: 0 <= i < |conditions| ==> TypesOf(conditions)[i] == conditions[i].conditionType
  {
  }

  lemma TypesOfDistinct(conditions: seq<Condition>, i: nat, n: nat)
    requires Distinct(TypesOf(conditions)) && i < n < |conditions|
    ensures Distinct(TypesOf(conditions[..n]))
    ensures conditions[i].conditionType != conditions[n].conditionType
  {
    hide TypesOf;
    TypesPrefix(conditions, n);
  }

  lemma ByTypeUnfolds(conditions: seq<Condition>, n: nat)
    requires n == |conditions| - 1
    ensures ByType(conditions) == ByType(conditions[..n])[conditions[n].conditionType := conditions[n]]
  {
  }

  lemma {:induction false} ByTypeFinds(conditions: seq<Condition>, i: nat)
    requires Distinct(TypesOf(conditions)) && i < |conditions|
    ensures conditions[i].conditionType in ByType(conditions) && ByType(conditions)[conditions[i].conditionType] == conditions[i]
  {
    hide TypesOf, ByType, Distinct;
    var n := |conditions| - 1;
    ByTypeUnfolds(conditions, n);
    if i < n {
      TypesOfDistinct(conditions, i, n);
      ByTypeFinds(conditions[..n], i);
    }
  }

  lemma DistinctTypesDistinct(conditions: seq<Condition>)
    requires Distinct(TypesOf(conditions))
    ensures Distinct(conditions)
  {
    var types := TypesOf(conditions);
    forall i, j | 0 <= i < j < |conditions|
      ensures conditions[i] != conditions[j]
    {
      assert types[i] != types[j];
    }
  }

  lemma EqualByTypeReflexive(conditions: seq<Condition>)
    requires Distinct(TypesOf(conditions))
    ensures EqualByType(conditions, conditions)
  {
    hide TypesOf, Distinct;
    forall i | 0 <= i < |conditions|
      ensures conditions[i].conditionType in ByType(conditions) && ByType(conditions)[conditions[i].conditionType] == conditions[i]
    {
      ByTypeFinds(conditions, i);
    }
  }

  /** For conditions of distinct, non-empty types the comparison by type decides whether the lists are
      permutations of each other. */
  lemma EqualByTypeIffPermutation(existing: seq<Condition>, expected: seq<Condition>)
    requires Distinct(TypesOf(existing)) && Distinct(TypesOf(expected)) && "" !in TypesOf(expected)
    ensures EqualByType(existing, expected) <==> multiset(existing) == multiset(expected)
  {
    DistinctTypesDistinct(expected);
    if EqualByType(existing, expected) {
      forall i | 0 <= i < |expected|
        ensures expected[i] in existing
      {
        assert TypesOf(expected)[i] in TypesOf(expected);
      }
      EqualIffPermutation(expected, existing);
    }
    if multiset(existing) == multiset(expected) {
      PermutationMembers(expected, existing);
      assert |existing| == |expected|;
      forall i | 0 <= i < |expected|
        ensures expected[i].conditionType in ByType(existing) && ByType(existing)[expected[i].conditionType] == expected[i]
      {
        assert expected[i] in expected;
        var j :| 0 <= j < |existing| && existing[j] == expected[i];
        ByTypeFinds(existing, j);
      }
    }
  }

  // ---- setting one condition ----

  function Replaced(conditions: seq<Condition>, c: Condition): (replaced: seq<Condition>)
    ensures |replaced| == |conditions|
  {
    seq(|conditions|, i requires 0 <= i < |conditions| => if conditions[i].conditionType == c.conditionType then c else conditions[i])
  }

  lemma ReplacedTypes(conditions: seq<Condition>, c: Condition)
    ensures TypesOf(Replaced(conditions, c)) == TypesOf(conditions)
  {
  }

  lemma ReplacedEqualByType(conditions: seq<Condition>, c: Condition)
    requires Distinct(TypesOf(conditions)) && EqualByType(conditions, Replaced(conditions, c))
    ensures Replaced(conditions, c) == conditions
  {
    forall i | 0 <= i < |conditions|
      ensures Replaced(conditions, c)[i] == conditions[i]
    {
      ByTypeFinds(conditions, i);
      assert Replaced(conditions, c)[i].conditionType == conditions[i].conditionType;
    }
  }

  /** The list that setCondition builds: a condition equal to the new one is not taken over. */
  function Rebuilt(conditions: seq<Condition>, c: Condition): seq<Condition> {
    if conditions == [] then []
    else
      var n := |conditions| - 1;
      var last := conditions[n];
      Rebuilt(conditions[..n], c) + (if last.conditionType != c.conditionType then [last] else if last != c then [c] else [])
  }

  /** Some condition of the type of `c` is not `c`. */
  predicate Differs(conditions: seq<Condition>, c: Condition) {
    exists i :: 0 <= i < |conditions| && conditions[i].conditionType == c.conditionType && conditions[i] != c
  }

  /** The condition is set, and no other is touched. */
  ghost predicate IsSet(before: seq<Condition>, c: Condition, after: seq<Condition>) {
    && Distinct(TypesOf(after))
    && First(after, c.conditionType) == Some(c)
    && forall t :: t != c.conditionType ==> First(after, t) == First(before, t)
  }

  /** setCondition */
  method SetCondition(conditions: seq<Condition>, c: Condition) returns (result: seq<Condition>)
    ensures result ==
            if c.conditionType !in TypesOf(conditions) then Rebuilt(conditions, c) + [c]
            else if Differs(conditions, c) then Rebuilt(conditions, c)
            else conditions
    ensures Distinct(TypesOf(conditions)) ==> IsSet(conditions, c, result)
  {
    hide IsSet;
    var isFound, isSet := false, false;
    var built: seq<Condition> := [];
    for i := 0 to |conditions|
      invariant built == Rebuilt(conditions[..i], c)
      invariant isFound <==> c.conditionType in TypesOf(conditions)[..i]
      invariant isSet <==> exists k :: 0 <= k < i && conditions[k].conditionType == c.conditionType && conditions[k] != c
    {
      assert conditions[..i + 1][..i] == conditions[..i];
      assert TypesOf(conditions)[..i + 1] == TypesOf(conditions)[..i] + [conditions[i].conditionType];
      if conditions[i].conditionType != c.conditionType {
        built := built + [conditions[i]];
        continue;
      }
      isFound := true;
      if conditions[i] != c {
        isSet := true;
        built := built + [c];
      }
    }
    assert conditions[..|conditions|] == conditions && TypesOf(conditions)[..|conditions|] == TypesOf(conditions);
    if !isFound {
      isSet := true;
      built := built + [c];
    }
    result := if isSet then built else conditions;
    if Distinct(TypesOf(conditions)) {
      if isFound {
        SetConditionReplaces(conditions, c, result);
        ReplacedIsSet(conditions, c);
      } else {
        AppendedIsSet(conditions, c);
      }
    }
  }

  lemma {:induction false} FirstReplaced(conditions: seq<Condition>, c: Condition, t: string)
    ensures First(Replaced(conditions, c), t) == if t == c.conditionType && t in TypesOf(conditions) then Some(c) else First(conditions, t)
  {
    if conditions != [] {
      var n := |conditions| - 1;
      FirstReplaced(conditions[..n], c, t);
      assert Replaced(conditions, c)[..n] == Replaced(conditions[..n], c);
      assert TypesOf(conditions) == TypesOf(conditions[..n]) + [conditions[n].conditionType];
    }
  }

  lemma ReplacedIsSet(conditions: seq<Condition>, c: Condition)
    requires Distinct(TypesOf(conditions)) && c.conditionType in TypesOf(conditions)
    ensures IsSet(conditions, c, Replaced(conditions, c))
  {
    hide First, Replaced, TypesOf;
    ReplacedTypes(conditions, c);
    forall t
      ensures First(Replaced(conditions, c), t) == if t == c.conditionType then Some(c) else First(conditions, t)
    {
      FirstReplaced(conditions, c, t);
    }
  }

  lemma {:induction false} RebuiltKeeps(conditions: seq<Condition>, c: Condition)
    requires c.conditionType !in TypesOf(conditions)
    ensures Rebuilt(conditions, c) == conditions
  {
    if conditions != [] {
      var n := |conditions| - 1;
      assert TypesOf(conditions) == TypesOf(conditions[..n]) + [conditions[n].conditionType];
      RebuiltKeeps(conditions[..n], c);
    }
  }

  lemma AppendedIsSet(conditions: seq<Condition>, c: Condition)
    requires Distinct(TypesOf(conditions)) && c.conditionType !in TypesOf(conditions)
    ensures IsSet(conditions, c, Rebuilt(conditions, c) + [c])
  {
    hide First, TypesOf;
    RebuiltKeeps(conditions, c);
    Appended(conditions, c);
  }

  lemma TypesOfNone()
    ensures TypesOf([]) == []
    ensures forall t :: First([], t) == None
  {
  }

  lemma Appended(cs: seq<Condition>, c: Condition)
    ensures TypesOf(cs + [c]) == TypesOf(cs) + [c.conditionType]
    ensures forall t :: First(cs + [c], t) == if First(cs, t).Some? then First(cs, t) else if c.conditionType == t then Some(c) else None
    ensures forall t :: First(cs, t).Some? <==> t in TypesOf(cs)
  {
    assert (cs + [c])[..|cs|] == cs;
  }


  lemma {:induction false} RebuiltReplaces(conditions: seq<Condition>, c: Condition)
    requires forall i :: 0 <= i < |conditions| ==> conditions[i] != c
    ensures Rebuilt(conditions, c) == Replaced(conditions, c)
  {
    if conditions != [] {
      RebuiltReplaces(conditions[..|conditions| - 1], c);
    }
  }

  /** With the required conditions in place, setting one replaces it and touches no other. */
  lemma SetConditionReplaces(conditions: seq<Condition>, c: Condition, result: seq<Condition>)
    requires Distinct(TypesOf(conditions)) && c.conditionType in TypesOf(conditions)
    requires result == if Differs(conditions, c) then Rebuilt(conditions, c) else conditions
    ensures result == Replaced(conditions, c)
  {
    if Differs(conditions, c) {
      var i :| 0 <= i < |conditions| && conditions[i].conditionType == c.conditionType && conditions[i] != c;
      var types := TypesOf(conditions);
      forall j | 0 <= j < |conditions|
        ensures conditions[j] != c
      {
        assert types[i] == c.conditionType;
        assert j != i ==> types[j] != types[i];
      }
      RebuiltReplaces(conditions, c);
    }
  }

  function Without(conditions: seq<Condition>, t: string): seq<Condition> {
    if conditions == [] then []
    else
      var n := |conditions| - 1;
      Without(conditions[..n], t) + (if conditions[n].conditionType == t then [] else [conditions[n]])
  }

  lemma WithoutNone(t: string)
    ensures Without([], t) == []
  {
  }

  lemma WithoutGrows(conditions: seq<Condition>, i: nat, t: string)
    requires i < |conditions|
    ensures Without(conditions[..i + 1], t) == Without(conditions[..i], t) + if conditions[i].conditionType == t then [] else [conditions[i]]
  {
    assert conditions[..i + 1][..i] == conditions[..i];
  }

  /** SetConditionAPIRuleStatus: the condition comes first, and the others follow. */
  method SetConditionAPIRuleStatus(conditions: seq<Condition>, error: Option<string>) returns (result: seq<Condition>)
    ensures result == [ApiRuleCondition(error)] + Without(conditions, API_RULE_STATUS)
    ensures forall c: Condition :: c.conditionType != API_RULE_STATUS ==> (c in result <==> c in conditions)
  {
    hide Without;
    WithoutKeeps(conditions, API_RULE_STATUS);
    result := [ApiRuleCondition(error)];
    WithoutNone(API_RULE_STATUS);
    for i := 0 to |conditions|
      invariant result == [ApiRuleCondition(error)] + Without(conditions[..i], API_RULE_STATUS)
    {
      WithoutGrows(conditions, i, API_RULE_STATUS);
      if conditions[i].conditionType == API_RULE_STATUS {
        continue;
      }
      result := result + [conditions[i]];
    }
    assert conditions[..|conditions|] == conditions;
  }

  /** The condition is of the given type, true without an error and false with one, which it tells. */
  predicate Tells(c: Condition, t: string, error: Option<string>) {
    c.conditionType == t && c.status == (if error.None? then "True" else "False") && (error.Some? ==> c.message == error.value)
  }

  /** The first condition of the type has the status. */
  predicate Shows(conditions: seq<Condition>, t: string, status: string) {
    First(conditions, t).Some? && First(conditions, t).value.status == status
  }

  function ApiRuleCondition(error: Option<string>): (c: Condition)
    ensures Tells(c, "APIRule status", error)
  {
    match error
    case None => Condition(API_RULE_STATUS, TRUE, "APIRule status ready", "")
    case Some(message) => Condition(API_RULE_STATUS, FALSE, "APIRule status not ready", message)
  }

  lemma TypesAppend(init: seq<Condition>, last: Condition)
    ensures TypesOf(init + [last]) == TypesOf(init) + [last.conditionType]
  {
  }

  lemma {:induction false} WithoutTypes(conditions: seq<Condition>, t: string)
    ensures multiset(TypesOf(Without(conditions, t))) == multiset(TypesOf(conditions))[t := 0]
  {
    if conditions == [] {
    } else {
      hide TypesOf;
      var n := |conditions| - 1;
      var init, last := conditions[..n], conditions[n];
      WithoutTypes(init, t);
      TypesAppend(init, last);
      assert conditions == init + [last];
      if last.conditionType != t {
        TypesAppend(Without(init, t), last);
      } else {
        assert Without(init, t) + [] == Without(init, t);
      }
    }
  }

  lemma {:induction false} WithoutKeeps(conditions: seq<Condition>, t: string)
    ensures forall c :: c in Without(conditions, t) <==> c in conditions && c.conditionType != t
  {
    if conditions != [] {
      var n := |conditions| - 1;
      WithoutKeeps(conditions[..n], t);
      assert conditions == conditions[..n] + [conditions[n]];
    }
  }

  lemma {:induction false} FirstCons(c: Condition, rest: seq<Condition>, t: string)
    ensures First([c] + rest, t) == if c.conditionType == t then Some(c) else First(rest, t)
  {
    if rest == [] {
      assert [c] + rest == [c];
    } else {
      var n := |rest| - 1;
      FirstCons(c, rest[..n], t);
      assert ([c] + rest)[..n + 1] == [c] + rest[..n];
    }
  }

  lemma {:induction false} FirstWithout(conditions: seq<Condition>, removed: string, t: string)
    requires t != removed
    ensures First(Without(conditions, removed), t) == First(conditions, t)
  {
    if conditions != [] {
      var n := |conditions| - 1;
      var init := Without(conditions[..n], removed);
      FirstWithout(conditions[..n], removed, t);
      if conditions[n].conditionType != removed {
        assert (init + [conditions[n]])[..|init|] == init;
      } else {
        assert init + [] == init;
      }
    }
  }

  lemma PutBack(m: multiset<string>, t: string)
    requires m[t] == 1
    ensures multiset{t} + m[t := 0] == m
  {
  }

  lemma RequiredCount(t: string)
    requires t in REQUIRED
    ensures multiset(REQUIRED)[t] == 1
  {
    RequiredDistinct();
    DistinctCounts(REQUIRED);
    assert t in multiset(REQUIRED);
  }

  lemma ApiRuleStatusKeepsRequired(conditions: seq<Condition>, error: Option<string>)
    requires RequiredOnce(conditions)
    ensures RequiredOnce([ApiRuleCondition(error)] + Without(conditions, API_RULE_STATUS))
  {
    hide Without;
    var others := Without(conditions, API_RULE_STATUS);
    WithoutTypes(conditions, API_RULE_STATUS);
    assert TypesOf([ApiRuleCondition(error)] + others) == [API_RULE_STATUS] + TypesOf(others);
    assert REQUIRED[0] == API_RULE_STATUS;
    RequiredCount(API_RULE_STATUS);
    PutBack(multiset(REQUIRED), API_RULE_STATUS);
  }

  function SpecValidCondition(error: Option<string>): (c: Condition)
    ensures Tells(c, "Subscription spec valid", error)
  {
    match error
    case None => Condition(SPEC_VALID, TRUE, "Subscription spec has no validation errors", "")
    case Some(message) => Condition(SPEC_VALID, FALSE, "Subscription spec has validation errors", message)
  }

  /** What users read in the two conditions. */
  lemma SpelledOut(message: string)
    ensures ApiRuleCondition(None) == Condition("APIRule status", "True", "APIRule status ready", "")
    ensures ApiRuleCondition(Some(message)) == Condition("APIRule status", "False", "APIRule status not ready", message)
    ensures SpecValidCondition(None) == Condition("Subscription spec valid", "True", "Subscription spec has no validation errors", "")
    ensures SpecValidCondition(Some(message))
            == Condition("Subscription spec valid", "False", "Subscription spec has validation errors", message)
  {
  }
}
