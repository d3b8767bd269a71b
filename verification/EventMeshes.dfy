/** The EventMesh backend. */
module EventMeshes {
  import opened Outcomes
  import opened Subscriptions
  import opened Sinks
  import opened EventMeshTypes
  import opened EventMeshConversion
  import opened EventMeshServers
  import opened EventMeshStates

  /** Entries under other names are left alone. */
  ghost predicate Elsewhere(before: Entries, after: Entries, name: string) {
    forall other :: other != name ==> EntryOf(after, other) == EntryOf(before, other)
  }

  /** The report that a status knows of; none is an empty one. */
  function Known(status: BackendStatus): Report {
    if status.report.Some? then status.report.value else Report("", "", "", "", "")
  }

  /** How often a subscription was created that was there, and how often one that delivers was given other
      credentials. */
  ghost function Mishaps(server: EventMeshServer): (nat, nat)
    reads server
  {
    (server.conflicts, server.hotUpdates)
  }

  ghost function StateOf(server: EventMeshServer, kymaSub: KymaSubscription, name: string): State
    reads server, kymaSub
  {
    State(kymaSub.status.hashes, EntryOf(server.entries, name))
  }

  function CleanTypesOf(infos: seq<EventTypeInfo>): seq<EventType> {
    seq(|infos|, i requires 0 <= i < |infos| => EventType(infos[i].originalType, infos[i].cleanType))
  }

  function MeshTypesOf(infos: seq<EventTypeInfo>): seq<MeshType> {
    seq(|infos|, i requires 0 <= i < |infos| => MeshType(infos[i].originalType, infos[i].processedType))
  }

  method StatusTypes(infos: seq<EventTypeInfo>) returns (cleanTypes: seq<EventType>, meshTypes: seq<MeshType>)
    ensures cleanTypes == CleanTypesOf(infos) && meshTypes == MeshTypesOf(infos)
  {
    cleanTypes, meshTypes := [], [];
    for i := 0 to |infos|
      invariant cleanTypes == CleanTypesOf(infos)[..i] && meshTypes == MeshTypesOf(infos)[..i]
    {
      cleanTypes := cleanTypes + [EventType(infos[i].originalType, infos[i].cleanType)];
      meshTypes := meshTypes + [MeshType(infos[i].originalType, infos[i].processedType)];
    }
  }

  /** The entry of a converged state is the one that the spec asks for, field by field. */
  lemma ConvergedAsSpecified(s: Subscription, settings: Settings, apiRule: ApiRule, state: State)
    requires ProcessedTypes(s, settings.prefix).Some?
    requires Desired(s, settings, ProcessedTypes(s, settings.prefix).value, apiRule).Some?
    requires Converged(state, Desired(s, settings, ProcessedTypes(s, settings.prefix).value, apiRule).value)
    ensures state.entry.Some? && AsSpecified(s, settings, apiRule, state.entry.value)
  {
    DesiredAsSpecified(s, settings, apiRule);
    hide Desired, ProcessedTypes, AsSpecified;
    ReportDoesNotMatter(s, settings, apiRule, Desired(s, settings, ProcessedTypes(s, settings.prefix).value, apiRule).value, state.entry.value);
  }

  class EventMesh {
    const server: EventMeshServer
    const settings: Settings
    /** The feature flag for patching credentials instead of re-creating the subscription. */
    const webhookAuth: bool

    constructor (server: EventMeshServer, settings: Settings, webhookAuth: bool)
      ensures this.server == server && this.settings == settings && this.webhookAuth == webhookAuth
    {
      this.server, this.settings, this.webhookAuth := server, settings, webhookAuth;
    }

    /** What a run has to register for `kymaSub`; None when the event types or the sink are unusable. */
    ghost function Target(kymaSub: KymaSubscription, apiRule: ApiRule): Option<MeshSubscription> {
      match ProcessedTypes(kymaSub.spec, settings.prefix)
      case None => None
      case Some(infos) => Desired(kymaSub.spec, settings, infos, apiRule)
    }

    method SyncSubscription(kymaSub: KymaSubscription, apiRule: ApiRule) returns (outcome: Outcome, changed: bool)
      requires server.Valid()
      modifies server, kymaSub
      ensures server.Valid() && Mishaps(server) == old(Mishaps(server))
      ensures var target := Target(kymaSub, apiRule);
              if target.None? then outcome.Fail? && server.entries == old(server.entries) && kymaSub.status == old(kymaSub.status)
              else
                var name := target.value.name;
                && SyncStep(webhookAuth, old(StateOf(server, kymaSub, name)), StateOf(server, kymaSub, name), target.value, outcome.Pass?)
                && Elsewhere(old(server.entries), server.entries, name)
                && (PlanOf(webhookAuth, old(StateOf(server, kymaSub, name)), target.value).Keep? ==> server.writes == old(server.writes))
      ensures server.faults == old(server.faults) + if outcome.Pass? || Target(kymaSub, apiRule).None? then 0 else 1
      ensures outcome.Pass? ==>
                var infos := ProcessedTypes(kymaSub.spec, settings.prefix).value;
                kymaSub.status.types == CleanTypesOf(infos) && kymaSub.status.meshTypes == MeshTypesOf(infos) && kymaSub.status.report.Some?
      ensures outcome.Pass? ==>
                var target := Target(kymaSub, apiRule).value;
                PlanOf(webhookAuth, old(StateOf(server, kymaSub, target.name)), target).Recreate? ==>
                  target.name in server.entries && AsSpecified(kymaSub.spec, settings, apiRule, server.entries[target.name])
      ensures outcome.Fail? ==> !changed && kymaSub.status.(types := old(kymaSub.status).types) == old(kymaSub.status)
                                && (kymaSub.status.types == old(kymaSub.status).types || kymaSub.status.types == [])
      ensures outcome.Pass? ==>
                var target := Target(kymaSub, apiRule).value;
                var before, after := old(StateOf(server, kymaSub, target.name)), StateOf(server, kymaSub, target.name);
                && kymaSub.status.report == Some((if PlanOf(webhookAuth, before, target).Recreate? then after else before).entry.value.report)
                && (changed <==>
                    || Modified(webhookAuth, before.hashes, target) || (before.entry.Some? && !Accepted(before))
                    || kymaSub.status.report.value != Known(old(kymaSub.status)))
    {
      hide ProcessedTypes, Desired, CleanTypesOf, MeshTypesOf, SyncStep, Modified, Accepted, PlanOf, AsSpecified;
      changed := false;
      var infos := GetProcessedEventTypes(kymaSub.spec, settings.prefix);
      if infos.None? {
        return Fail(Failed), false;
      }
      var target := ConvertKymaSubToEventMeshSub(kymaSub.spec, settings, infos.value, apiRule);
      if target.None? {
        return Fail(Failed), false;
      }
      DesiredAsSpecified(kymaSub.spec, settings, apiRule);
      ghost var before := StateOf(server, kymaSub, target.value.name);
      outcome, changed := SyncDesired(target.value, infos.value, kymaSub);
      ghost var after := StateOf(server, kymaSub, target.value.name);
      if outcome.Pass? && PlanOf(webhookAuth, before, target.value).Recreate? {
        RecreatedIsRegistered(webhookAuth, before, after, target.value);
        ReportDoesNotMatter(kymaSub.spec, settings, apiRule, target.value, after.entry.value);
      }
    }

    /** The rest of SyncSubscription, for the desired subscription and the event types of its status. */
    method SyncDesired(desired: MeshSubscription, infos: seq<EventTypeInfo>, kymaSub: KymaSubscription)
      returns (outcome: Outcome, changed: bool)
      requires server.Valid() && desired.report == NO_REPORT
      modifies server, kymaSub
      ensures server.Valid() && Mishaps(server) == old(Mishaps(server)) && Elsewhere(old(server.entries), server.entries, desired.name)
      ensures server.faults == old(server.faults) + if outcome.Pass? then 0 else 1
      ensures var before, after := old(StateOf(server, kymaSub, desired.name)), StateOf(server, kymaSub, desired.name);
              && SyncStep(webhookAuth, before, after, desired, outcome.Pass?)
              && (PlanOf(webhookAuth, before, desired).Keep? ==> server.writes == old(server.writes))
              && (outcome.Pass? ==>
                    && kymaSub.status.report == Some((if PlanOf(webhookAuth, before, desired).Recreate? then after else before).entry.value.report)
                    && (changed <==>
                        || Modified(webhookAuth, before.hashes, desired) || (before.entry.Some? && !Accepted(before))
                        || kymaSub.status.report.value != Known(old(kymaSub.status))))
      ensures outcome.Pass? ==> kymaSub.status.types == CleanTypesOf(infos) && kymaSub.status.meshTypes == MeshTypesOf(infos)
      ensures outcome.Fail? ==> !changed && kymaSub.status.(types := old(kymaSub.status).types) == old(kymaSub.status)
                                && (kymaSub.status.types == old(kymaSub.status).types || kymaSub.status.types == [])
    {
      hide CleanTypesOf, MeshTypesOf;
      changed := false;
      var kymaModified, serverModified := false, false;
      outcome, kymaModified := HandleKymaSubModified(desired, kymaSub);
      if outcome.Fail? {
        return;
      }
      var found: Option<MeshSubscription> := None;
      if !kymaModified {
        outcome, found := GetSubscriptionIgnoreNotFound(desired.name);
        if outcome.Fail? {
          return;
        }
      }
      if found.Some? {
        outcome, serverModified := HandleEventMeshSubModified(found.value, kymaSub);
        if outcome.Fail? {
          return;
        }
        if webhookAuth && !serverModified {
          outcome := HandleWebhookAuthChange(desired, kymaSub);
          if outcome.Fail? {
            return;
          }
        }
      }
      if kymaModified || serverModified || found.None? {
        outcome, found := HandleCreateEventMeshSub(desired, kymaSub);
        if outcome.Fail? {
          return;
        }
      }
      var updated := HandleKymaSubStatusUpdate(found.value, desired, kymaSub, infos);
      changed := kymaModified || serverModified || updated;
      outcome := Pass;
    }

    /** Deletes what was registered for an older spec. */
    method HandleKymaSubModified(desired: MeshSubscription, kymaSub: KymaSubscription) returns (outcome: Outcome, modified: bool)
      requires server.Valid()
      modifies server
      ensures server.Valid() && Mishaps(server) == old(Mishaps(server)) && Elsewhere(old(server.entries), server.entries, desired.name)
      ensures EntryOf(server.entries, desired.name) in {old(EntryOf(server.entries, desired.name)), None}
      ensures server.faults == old(server.faults) + if outcome.Pass? then 0 else 1
      ensures outcome.Fail? ==> Modified(webhookAuth, kymaSub.status.hashes, desired)
      ensures outcome.Pass? ==> modified == Modified(webhookAuth, kymaSub.status.hashes, desired)
      ensures outcome.Pass? && modified ==> desired.name !in server.entries
      ensures outcome.Pass? && !modified ==> server.entries == old(server.entries) && server.writes == old(server.writes)
    {
      var hash := if webhookAuth then kymaSub.status.hashes.local else kymaSub.status.hashes.ev2;
      modified := IsModified(webhookAuth, desired, hash);
      if modified {
        outcome := Delete(desired.name);
      } else {
        outcome := Pass;
      }
    }

    /** Deletes what somebody else has changed on the server. */
    method HandleEventMeshSubModified(found: MeshSubscription, kymaSub: KymaSubscription) returns (outcome: Outcome, modified: bool)
      requires server.Valid()
      modifies server
      ensures server.Valid() && Mishaps(server) == old(Mishaps(server)) && Elsewhere(old(server.entries), server.entries, found.name)
      ensures EntryOf(server.entries, found.name) in {old(EntryOf(server.entries, found.name)), None}
      ensures server.faults == old(server.faults) + if outcome.Pass? then 0 else 1
      ensures outcome.Fail? ==> SubscriptionHash(Cleaned(found)) != kymaSub.status.hashes.server
      ensures outcome.Pass? ==> modified == (SubscriptionHash(Cleaned(found)) != kymaSub.status.hashes.server)
      ensures outcome.Pass? && modified ==> found.name !in server.entries
      ensures outcome.Pass? && !modified ==> server.entries == old(server.entries) && server.writes == old(server.writes)
    {
      var cleaned := GetCleanedEventMeshSubscription(found);
      modified := IsModified(webhookAuth, cleaned, kymaSub.status.hashes.server);
      if modified {
        outcome := Delete(found.name);
      } else {
        outcome := Pass;
      }
    }

    /** Creates the subscription and reads it back.  There must be none of its name. */
    method HandleCreateEventMeshSub(desired: MeshSubscription, kymaSub: KymaSubscription)
      returns (outcome: Outcome, created: Option<MeshSubscription>)
      requires server.Valid() && desired.name !in server.entries && desired.report == NO_REPORT
      modifies server, kymaSub
      ensures server.Valid() && Mishaps(server) == old(Mishaps(server)) && Elsewhere(old(server.entries), server.entries, desired.name)
      ensures kymaSub.status == old(kymaSub.status).(types := [])
      ensures EntryOf(server.entries, desired.name) == None || Registered(EntryOf(server.entries, desired.name), desired)
      ensures server.faults == old(server.faults) + if outcome.Pass? then 0 else 1
      ensures outcome.Pass? ==> created.Some? && created == EntryOf(server.entries, desired.name)
    {
      kymaSub.status := kymaSub.status.(types := []);
      created := None;
      var reply := server.Create(desired);
      if reply.Unanswered? || (reply.code > ACCEPTED && reply.code != CONFLICT) {
        return Fail(Failed), None;
      }
      reply, created := server.Get(desired.name);
      outcome := if reply == Status(OK) then Pass else Fail(Failed);
    }

    /** Replaces the credentials of the entry: pauses, updates and resumes it, unless the hash tells that
        they are in place. */
    method HandleWebhookAuthChange(desired: MeshSubscription, kymaSub: KymaSubscription) returns (outcome: Outcome)
      requires server.Valid() && desired.name in server.entries
      modifies server
      ensures server.Valid() && Mishaps(server) == old(Mishaps(server)) && Elsewhere(old(server.entries), server.entries, desired.name)
      ensures server.faults == old(server.faults) + if outcome.Pass? then 0 else 1
      ensures var before, after := old(EntryOf(server.entries, desired.name)), EntryOf(server.entries, desired.name);
              var plan := if AuthHash(desired.webhookAuth) == kymaSub.status.hashes.auth then Keep else Patch;
              && (if outcome.Pass? then Completed(plan, before, after, desired) else Interrupted(plan, before, after, desired))
              && (plan.Keep? ==> server.writes == old(server.writes))
    {
      if AuthHash(desired.webhookAuth) == kymaSub.status.hashes.auth {
        return Pass;
      }
      var reply := server.UpdateState(desired.name, PAUSED);
      if reply == Status(NOT_FOUND) {
        return Pass;
      }
      if reply != Status(ACCEPTED) {
        return Fail(Failed);
      }
      reply := server.Update(desired.name, desired.webhookAuth);
      if reply == Status(NOT_FOUND) {
        return Pass;
      }
      if reply != Status(NO_CONTENT) {
        return Fail(Failed);
      }
      reply := server.UpdateState(desired.name, ACTIVE);
      if reply == Status(NOT_FOUND) {
        return Pass;
      }
      outcome := if reply == Status(ACCEPTED) then Pass else Fail(Failed);
    }

    method HandleKymaSubStatusUpdate(found: MeshSubscription, desired: MeshSubscription, kymaSub: KymaSubscription, infos: seq<EventTypeInfo>)
      returns (changed: bool)
      modifies kymaSub
      ensures kymaSub.status == BackendStatus(
                CleanTypesOf(infos), MeshTypesOf(infos),
                HashesOf(desired).(server := SubscriptionHash(Cleaned(found))), Some(found.report))
      ensures changed <==> found.report != Known(old(kymaSub.status))
    {
      var types, meshTypes := StatusTypes(infos);
      var cleanedLocal := GetCleanedEventMeshSubscription(desired);
      var cleanedServer := GetCleanedEventMeshSubscription(found);
      var hashes := Hashes(SubscriptionHash(desired), SubscriptionHash(cleanedServer), SubscriptionHash(cleanedLocal), AuthHash(desired.webhookAuth));
      kymaSub.status := kymaSub.status.(types := types, meshTypes := meshTypes, hashes := hashes);
      changed := SetEmsSubscriptionStatus(kymaSub, found.report);
    }

    /** Copies the report field by field. */
    method SetEmsSubscriptionStatus(kymaSub: KymaSubscription, report: Report) returns (changed: bool)
      modifies kymaSub
      ensures kymaSub.status == old(kymaSub.status).(report := Some(report))
      ensures changed <==> report != Known(old(kymaSub.status))
    {
      changed := false;
      var known := if kymaSub.status.report.Some? then kymaSub.status.report.value else NO_REPORT;
      if known.status != report.status {
        known, changed := known.(status := report.status), true;
      }
      if known.statusReason != report.statusReason {
        known, changed := known.(statusReason := report.statusReason), true;
      }
      if known.lastSuccessfulDelivery != report.lastSuccessfulDelivery {
        known, changed := known.(lastSuccessfulDelivery := report.lastSuccessfulDelivery), true;
      }
      if known.lastFailedDelivery != report.lastFailedDelivery {
        known, changed := known.(lastFailedDelivery := report.lastFailedDelivery), true;
      }
      if known.lastFailedDeliveryReason != report.lastFailedDeliveryReason {
        known, changed := known.(lastFailedDeliveryReason := report.lastFailedDeliveryReason), true;
      }
      kymaSub.status := kymaSub.status.(report := Some(known));
    }

    method GetSubscriptionIgnoreNotFound(name: string) returns (outcome: Outcome, found: Option<MeshSubscription>)
      requires server.Valid()
      modifies server`faults
      ensures server.Valid()
      ensures server.faults == old(server.faults) + if outcome.Pass? then 0 else 1
      ensures outcome.Pass? ==> found == EntryOf(server.entries, name)
    {
      var reply;
      reply, found := server.Get(name);
      outcome := if reply == Status(OK) || reply == Status(NOT_FOUND) then Pass else Fail(Failed);
    }

    /** Deleting what does not exist is no error. */
    method Delete(name: string) returns (outcome: Outcome)
      requires server.Valid()
      modifies server
      ensures server.Valid() && Mishaps(server) == old(Mishaps(server)) && Elsewhere(old(server.entries), server.entries, name)
      ensures EntryOf(server.entries, name) in {old(EntryOf(server.entries, name)), None}
      ensures server.faults == old(server.faults) + if outcome.Pass? then 0 else 1
      ensures outcome.Pass? ==> name !in server.entries
    {
      var reply := server.Delete(name);
      outcome := if reply == Status(NO_CONTENT) || reply == Status(NOT_FOUND) then Pass else Fail(Failed);
    }

    method DeleteSubscription(kymaSub: KymaSubscription) returns (outcome: Outcome)
      requires server.Valid()
      modifies server
      ensures server.Valid() && Mishaps(server) == old(Mishaps(server))
      ensures server.faults == old(server.faults) + if outcome.Pass? then 0 else 1
      ensures var name := settings.nameOf(kymaSub.spec.name, kymaSub.spec.namespace);
              && Elsewhere(old(server.entries), server.entries, name)
              && EntryOf(server.entries, name) in {old(EntryOf(server.entries, name)), None}
              && (outcome.Pass? ==> name !in server.entries)
              && EnvironmentStep(old(StateOf(server, kymaSub, name)), StateOf(server, kymaSub, name))
    {
      outcome := Delete(settings.nameOf(kymaSub.spec.name, kymaSub.spec.namespace));
    }
  }
}
