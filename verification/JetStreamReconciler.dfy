/** The reconciler of Subscriptions for the JetStream backend. */
module JetStreamReconciler {
  import opened Outcomes
  import opened Subscriptions
  import opened Identifiers
  import opened JetStreamSubjects
  import opened JetStreamStates
  import opened JetStreams
  import opened JetStreamRuns
  import opened ListEquality
  import opened Conditions

  datatype JetStreamType = JetStreamType(originalType: string, consumerName: ConsumerName)

  /** The verdict of the validator; a sink whose service is missing is told apart from other faults. */
  datatype Verdict = ValidSpec | InvalidSpec(error: string) | InvalidSink(error: string) {
    function Error(): Option<string> {
      if ValidSpec? then None else Some(error)
    }
  }

  /** The copy of a Subscription that a reconciliation works on; `sub` holds the spec and Status.Types. */
  class WorkingCopy {
    var sub: Subscription
    var ready: bool
    var conditions: seq<Condition>
    var backendTypes: seq<JetStreamType>
    var finalizer: bool

    constructor (sub: Subscription, ready: bool, conditions: seq<Condition>, backendTypes: seq<JetStreamType>, finalizer: bool)
    {
      this.sub, this.ready, this.conditions, this.backendTypes, this.finalizer := sub, ready, conditions, backendTypes, finalizer;
    }
  }

  function ActiveCondition(error: Option<string>): (c: Condition)
    ensures Tells(c, "Subscription active", error)
  {
    match error
    case None => Condition(SUBSCRIPTION_ACTIVE, TRUE, "NATS Subscription active", "")
    case Some(message) => Condition(SUBSCRIPTION_ACTIVE, FALSE, "NATS Subscription not active", message)
  }

  lemma ActiveSpelledOut(message: string)
    ensures ActiveCondition(None) == Condition("Subscription active", "True", "NATS Subscription active", "")
    ensures ActiveCondition(Some(message)) == Condition("Subscription active", "False", "NATS Subscription not active", message)
  {
  }

  function BackendTypes(config: Config, sub: Subscription): seq<JetStreamType>
    requires |StatusSubjects(config, sub)| == |sub.types|
  {
    seq(|sub.types|, i requires 0 <= i < |sub.types| => JetStreamType(sub.types[i], NewIdentifier(sub, StatusSubjects(config, sub)[i]).consumerName))
  }

  lemma {:induction false} UniqueLength(items: seq<string>)
    ensures |Unique(items)| <= |items|
    ensures |Unique(items)| == |items| <==> Distinct(items)
  {
    if items != [] {
      var n := |items| - 1;
      assert items == items[..n] + [items[n]];
      UniqueLength(items[..n]);
      UniqueMembers(items[..n]);
    }
  }

  lemma OneSet(end: seq<Condition>, c: Condition)
    requires IsSet([], c, end)
    ensures First(end, c.conditionType) == Some(c)
  {
  }

  lemma BothSet(start: seq<Condition>, checked: seq<Condition>, end: seq<Condition>, a: Condition, b: Condition)
    requires a.conditionType != b.conditionType
    requires Distinct(TypesOf(start)) ==> IsSet(start, a, checked)
    requires Distinct(TypesOf(checked)) ==> IsSet(checked, b, end)
    ensures Distinct(TypesOf(start)) ==> First(end, a.conditionType) == Some(a) && First(end, b.conditionType) == Some(b)
  {
    hide TypesOf, First, Distinct;
  }

  class Reconciler {
    const backend: JetStream

    constructor (backend: JetStream)
      ensures this.backend == backend
    {
      this.backend := backend;
    }

    /** Some key that a sync of `sub` wants is blocked. */
    ghost predicate KeysBlocked(sub: Subscription, s: State) {
      SomeBlocked(s, Wanted(KeyPrefix(sub), StatusSubjects(backend.config, sub)))
    }

    /** The first of them is not stored at all. */
    ghost predicate KeyMissing(sub: Subscription, s: State) {
      MissingFirst(s, KeyPrefix(sub), StatusSubjects(backend.config, sub))
    }

    /** GetBackendJetStreamTypes, which pairs the types of the spec with the subjects by position.  It fails
        if and only if a type is repeated. */
    method GetBackendJetStreamTypes(sub: Subscription, subjects: seq<string>) returns (outcome: Outcome, types: seq<JetStreamType>)
      requires subjects == StatusSubjects(backend.config, sub) && sub.statusTypes == CleanEventTypes(sub)
      ensures outcome.Pass? <==> Distinct(sub.types)
      ensures outcome.Pass? ==> |subjects| == |sub.types| && types == BackendTypes(backend.config, sub)
    {
      hide NewIdentifier, Subject, Subjects, Unique;
      UniqueLength(sub.types);
      types := [];
      if |subjects| != |sub.types| {
        return Fail(Failed), types;
      }
      for i := 0 to |sub.types|
        invariant types == BackendTypes(backend.config, sub)[..i]
      {
        types := types + [JetStreamType(sub.types[i], NewIdentifier(sub, subjects[i]).consumerName)];
      }
      outcome := Pass;
    }

    method SyncEventTypes(copy: WorkingCopy) returns (outcome: Outcome)
      modifies copy
      ensures copy.sub == WithTypesSynced(old(copy.sub)) && copy.ready == old(copy.ready) && copy.conditions == old(copy.conditions)
      ensures outcome.Pass? <==> Distinct(copy.sub.types)
      ensures outcome.Pass? ==> |StatusSubjects(backend.config, copy.sub)| == |copy.sub.types|
      ensures outcome.Pass? ==> copy.backendTypes == BackendTypes(backend.config, copy.sub)
    {
      var clean := GetCleanEventTypes(copy.sub);
      copy.sub := copy.sub.(statusTypes := clean);
      assert CleanEventTypes(copy.sub) == clean;
      var types;
      outcome, types := GetBackendJetStreamTypes(copy.sub, StatusSubjects(backend.config, copy.sub));
      if outcome.Pass? {
        copy.backendTypes := types;
      }
    }

    method SetStatus(copy: WorkingCopy, error: Option<string>)
      modifies copy
      ensures copy.sub == old(copy.sub) && copy.backendTypes == old(copy.backendTypes) && copy.finalizer == old(copy.finalizer)
      ensures copy.ready == error.None?
      ensures Distinct(TypesOf(old(copy.conditions))) ==> IsSet(old(copy.conditions), ActiveCondition(error), copy.conditions)
    {
      copy.ready := error.None?;
      copy.conditions := SetCondition(copy.conditions, ActiveCondition(error));
    }

    /** validateSubscription, given the verdict: an invalid Subscription loses what its status says. */
    method ValidateSubscription(copy: WorkingCopy, verdict: Verdict)
      modifies copy
      ensures copy.finalizer == old(copy.finalizer)
      ensures verdict.ValidSpec? ==> copy.sub == old(copy.sub) && copy.ready == old(copy.ready) && copy.backendTypes == old(copy.backendTypes)
      ensures !verdict.ValidSpec? ==> copy.sub == old(copy.sub).(statusTypes := []) && !copy.ready && copy.backendTypes == []
      ensures Distinct(TypesOf(old(copy.conditions))) || !verdict.ValidSpec? ==>
                IsSet(if verdict.ValidSpec? then old(copy.conditions) else [], SpecValidCondition(verdict.Error()), copy.conditions)
    {
      if !verdict.ValidSpec? {
        copy.ready, copy.sub, copy.backendTypes, copy.conditions := false, copy.sub.(statusTypes := []), [], [];
      }
      copy.conditions := SetCondition(copy.conditions, SpecValidCondition(verdict.Error()));
    }

    /** The part of Reconcile after validation.  A missing subscriber is no error: the run is repeated later. */
    method SyncWithBackend(copy: WorkingCopy) returns (outcome: Outcome, repeat: bool, ghost error: Option<string>)
      requires backend.Valid() && copy.sub.NamesValid()
      modifies copy, backend, backend.server
      ensures backend.Valid() && copy.sub == WithTypesSynced(old(copy.sub))
      ensures copy.ready <==> error.None?
      ensures copy.ready ==> outcome.Pass? && !repeat && Distinct(copy.sub.types)
      ensures copy.ready ==> SyncStep(backend.config, copy.sub, old(backend.Now()), Pass, backend.Now())
      ensures backend.server.faults >= old(backend.server.faults)
      ensures copy.ready <==>
                Distinct(copy.sub.types) && backend.server.faults == old(backend.server.faults) && !KeysBlocked(copy.sub, old(backend.Now()))
      ensures repeat <==>
                Distinct(copy.sub.types) && backend.server.faults == old(backend.server.faults) && KeyMissing(copy.sub, old(backend.Now()))
      ensures outcome.Pass? <==> copy.ready || repeat
      ensures !Distinct(old(copy.sub.types)) ==> outcome.Fail? && backend.Now() == old(backend.Now())
      ensures Distinct(TypesOf(old(copy.conditions))) ==> IsSet(old(copy.conditions), ActiveCondition(error), copy.conditions)
    {
      hide SyncStep, StatusSubjects, TypesOf, IsSet, ActiveCondition, CleanEventTypes, BackendTypes, Distinct;
      hide SomeBlocked, MissingFirst, Wanted, KeyPrefix;
      repeat := false;
      outcome := SyncEventTypes(copy);
      if outcome.Fail? {
        error := Some("length of JetStream subjects do not match with eventTypes from spec");
        SetStatus(copy, Some("length of JetStream subjects do not match with eventTypes from spec"));
        return;
      }
      outcome := backend.SyncSubscription(copy.sub);
      if outcome.Fail? {
        error := Some("failed to sync");
        SetStatus(copy, Some("failed to sync"));
        repeat := outcome.error.MissingSubscription?;
        if repeat {
          outcome := Pass;
        }
        return;
      }
      error := None;
      SetStatus(copy, None);
    }

    /** A reconciliation of a Subscription that is not being deleted and has its finalizer. */
    method Reconcile(copy: WorkingCopy, verdict: Verdict) returns (outcome: Outcome, repeat: bool, ghost error: Option<string>)
      requires backend.Valid() && copy.sub.NamesValid()
      modifies copy, backend, backend.server
      ensures backend.Valid()
      ensures copy.sub == if verdict.ValidSpec? then WithTypesSynced(old(copy.sub)) else old(copy.sub).(statusTypes := [])
      ensures copy.ready <==> verdict.ValidSpec? && error.None?
      ensures copy.ready ==> outcome.Pass? && !repeat && Distinct(copy.sub.types)
      ensures copy.ready ==> SyncStep(backend.config, copy.sub, old(backend.Now()), Pass, backend.Now())
      ensures backend.server.faults >= old(backend.server.faults)
      ensures verdict.ValidSpec? ==>
                (copy.ready <==>
                  Distinct(copy.sub.types) && backend.server.faults == old(backend.server.faults) && !KeysBlocked(copy.sub, old(backend.Now())))
      ensures repeat <==>
                && verdict.ValidSpec? && Distinct(copy.sub.types)
                && backend.server.faults == old(backend.server.faults) && KeyMissing(copy.sub, old(backend.Now()))
      ensures copy.ready && SEPARATOR !in backend.config.subjectPrefix && copy.sub.typeMatching == Standard ==>
                ConvergedFor(backend.Now(), backend.config, copy.sub)
      ensures outcome.Pass? <==> copy.ready || repeat
      ensures verdict.InvalidSpec? || (verdict.ValidSpec? && !Distinct(old(copy.sub.types))) ==> outcome.Fail? && backend.Now() == old(backend.Now())
      ensures verdict.InvalidSink? && backend.server.faults == old(backend.server.faults) ==>
                PauseStep(copy.sub, old(backend.Now()), Pass, backend.Now())
      ensures verdict.InvalidSink? ==> outcome.Fail? && exists paused :: PauseStep(copy.sub, old(backend.Now()), paused, backend.Now())
      ensures !verdict.ValidSpec? ==> copy.backendTypes == [] && First(copy.conditions, SPEC_VALID) == Some(SpecValidCondition(verdict.Error()))
      ensures verdict.ValidSpec? && Distinct(TypesOf(old(copy.conditions))) ==>
                && First(copy.conditions, SPEC_VALID) == Some(SpecValidCondition(None))
                && First(copy.conditions, SUBSCRIPTION_ACTIVE) == Some(ActiveCondition(error))
    {
      hide SyncStep, PauseStep, ConvergedFor, TypesOf, First, IsSet, CleanEventTypes, Distinct, KeysBlocked, KeyMissing;
      repeat, error := false, None;
      ghost var start, before := copy.conditions, backend.Now();
      ValidateSubscription(copy, verdict);
      ghost var checked := copy.conditions;
      if !verdict.ValidSpec? {
        OneSet(checked, SpecValidCondition(verdict.Error()));
        if verdict.InvalidSink? {
          outcome := backend.DeleteSubscriptionsOnly(copy.sub);
          assert PauseStep(copy.sub, before, outcome, backend.Now());
        }
        return Fail(Failed), false, None;
      }
      outcome, repeat, error := SyncWithBackend(copy);
      assert |SPEC_VALID| != |SUBSCRIPTION_ACTIVE|;
      BothSet(start, checked, copy.conditions, SpecValidCondition(None), ActiveCondition(error));
      if copy.ready && SEPARATOR !in backend.config.subjectPrefix && copy.sub.typeMatching == Standard {
        StandardSyncConverges(backend.config, old(copy.sub), before, backend.Now());
      }
    }

    /** handleSubscriptionDeletion: the finalizer goes only after the backend has cleaned up.  `update` is what
        the API server answers to its removal. */
    method HandleSubscriptionDeletion(copy: WorkingCopy, update: Outcome) returns (outcome: Outcome)
      requires backend.Valid() && copy.sub.NamesValid()
      modifies copy, backend, backend.server
      ensures backend.Valid() && copy.sub == old(copy.sub) && copy.backendTypes == old(copy.backendTypes)
      ensures !old(copy.finalizer) ==> outcome.Pass? && !copy.finalizer && backend.Now() == old(backend.Now())
      ensures old(copy.finalizer) ==> exists deleted ::
                && DeleteStep(backend.config, copy.sub, old(backend.Now()), deleted, backend.Now()) && (!copy.finalizer ==> deleted.Pass?)
                && (deleted.Pass? <==> backend.server.faults == old(backend.server.faults))
      ensures outcome.Pass? <==> !copy.finalizer
      ensures old(copy.finalizer) ==> (outcome.Pass? <==> backend.server.faults == old(backend.server.faults) && update.Pass?)
      ensures if old(copy.finalizer) && backend.server.faults != old(backend.server.faults)
              then
                !copy.ready && (Distinct(TypesOf(old(copy.conditions))) ==> Shows(copy.conditions, "Subscription active", "False"))
              else copy.ready == old(copy.ready) && copy.conditions == old(copy.conditions)
    {
      hide DeleteStep, Rebuilt, Replaced;
      if !copy.finalizer {
        return Pass;
      }
      ghost var before := backend.Now();
      outcome := backend.DeleteSubscription(copy.sub);
      assert DeleteStep(backend.config, copy.sub, before, outcome, backend.Now());
      if outcome.Fail? {
        SetStatus(copy, Some("failed to delete"));
        return;
      }
      outcome := update;
      if outcome.Fail? {
        return;
      }
      copy.finalizer := false;
    }
  }
}
