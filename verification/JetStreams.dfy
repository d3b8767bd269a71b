/** The JetStream backend: subscriber and sink tables kept in step with the consumers on a server. */
module JetStreams {
  import opened Strings
  import opened Subscriptions
  import opened Identifiers
  import opened JetStreamSubjects
  import opened NatsServers
  import opened Outcomes
  import opened JetStreamStates

  class JetStream {
    const config: Config
    const server: NatsServer
    var subscriptions: map<Identifier, Subscriber>
    var sinks: map<string, string>

    ghost function Now(): State
      reads this, server
    {
      State(subscriptions, sinks, server.consumers, server.writes)
    }

    ghost predicate Valid()
      reads this, server
    {
      server.Valid() && Invariant(Now())
    }

    /** A restarted handler knows no subscriptions, whatever the server still holds. */
    constructor (config: Config, server: NatsServer)
      requires server.Valid() && NamesAgree(server.consumers)
      ensures Valid() && this.config == config && this.server == server
      ensures subscriptions == map[] && sinks == map[]
    {
      this.config, this.server := config, server;
      subscriptions, sinks := map[], map[];
    }

    /** checkJetStreamConnection, with the reconnection attempt in it. */
    method CheckConnection() returns (outcome: Outcome)
      modifies server`faults
      ensures outcome in {Pass, Fail(Failed)} && server.faults == old(server.faults) + if outcome.Pass? then 0 else 1
    {
      outcome := server.Connect();
    }

    /** GetJetStreamSubject for one event type of a status. */
    function SubjectOf(sub: Subscription, eventType: EventType): string {
      Subject(config.subjectPrefix, sub.source, eventType.cleanType, sub.typeMatching)
    }

    method SyncSubscription(sub: Subscription) returns (outcome: Outcome)
      requires Valid() && sub.NamesValid()
      modifies this, server
      ensures Valid()
      ensures SyncStep(config, sub, old(Now()), outcome, Now())
      ensures server.faults >= old(server.faults) && SyncEnds(config, sub, old(Now()), outcome, server.faults - old(server.faults), Now())
    {
      hide Invariant, KeyPrefix, AttachAllStep, SyncStep, Wanted, Own, SomeBlocked, Cleaning, SameBlocks, MissingFirst;
      ghost var pre := Now();
      var prefix := KeyPrefix(sub);
      outcome := CheckConnection();
      if outcome.Fail? {
        NothingCleaned(pre, Own(pre, prefix), Wanted(prefix, StatusSubjects(config, sub)));
        SyncAborted(config, sub, pre, outcome, pre);
        return;
      }
      outcome := SyncEventTypes(sub);
      ghost var mid := Now();
      if outcome.Fail? {
        SyncAborted(config, sub, pre, outcome, mid);
        return;
      }
      if prefix !in sinks || sinks[prefix] != sub.sink {
        sinks := sinks[prefix := sub.sink];
      }
      assert Now() == mid.(sinks := mid.sinks[prefix := sub.sink]);
      StoringSinkKeepsInvariant(mid, Now());
      WantedConsumersExist(config, sub, mid, Now());
      OwnAndWantedBelow(pre, prefix, StatusSubjects(config, sub));
      CleaningKeepsBlocked(Own(pre, prefix), Wanted(prefix, StatusSubjects(config, sub)), pre, mid);
      ghost var stored, faults := Now(), server.faults;
      SameBlocked(mid, stored, Wanted(prefix, StatusSubjects(config, sub)));
      SameBlocksTransitive(pre, mid, stored, Wanted(prefix, StatusSubjects(config, sub)));
      outcome := SyncConsumersAndSubscriptions(sub);
      SameBlocksCount(prefix, StatusSubjects(config, sub), pre, stored, outcome, server.faults - faults, Now());
      SyncComposed(config, sub, pre, mid, outcome, Now());
    }

    /** syncSubscriptionEventTypes. */
    method SyncEventTypes(sub: Subscription) returns (outcome: Outcome)
      requires Valid() && sub.NamesValid()
      modifies this, server
      ensures Valid()
      ensures outcome in {Pass, Fail(Failed)} && server.faults == old(server.faults) + if outcome.Pass? then 0 else 1
      ensures CleanStep(KeyPrefix(sub), StatusSubjects(config, sub), old(Now()), outcome, Now())
    {
      hide SubjectIn, Associated, KeyPrefix, Own, Wanted, Shrunk, Cleaning, Ordinary, HasConsumer, HasConsumerIfValid, CleanKeyStep, Invariant;
      ghost var pre := Now();
      var prefix := KeyPrefix(sub);
      ghost var own, wanted := Own(pre, prefix), Wanted(prefix, StatusSubjects(config, sub));
      NothingCleaned(pre, own, wanted);
      WantedWellFormed(prefix, StatusSubjects(config, sub));
      KeysWellFormed(pre);
      var pending := subscriptions.Keys;
      while pending != {}
        invariant server.faults == old(server.faults)
        invariant Valid()
        invariant pending <= subscriptions.Keys
        invariant forall k :: k in pending ==> subscriptions[k] == pre.subscriptions[k]
        invariant Cleaning(pre, Now(), own, wanted)
        invariant CleanedSoFar(Now(), own, wanted, pending)
        invariant (forall k :: k in own ==> k in wanted && HasConsumer(pre, k)) ==> Now() == pre
      {
        var key :| key in pending;
        ghost var left := pending;
        pending := pending - {key};
        if Associated(key, prefix) {
          ghost var mid := Now();
          outcome := SyncEventType(key, sub);
          CleaningExtends(pre, mid, Now(), own, wanted, key, outcome);
          OneKeyCleaned(key, wanted, mid, outcome, Now());
          if outcome.Fail? {
            return;
          }
          CleanedSoFarExtends(mid, Now(), own, wanted, left, key);
        }
      }
      NothingLeftToClean(prefix, StatusSubjects(config, sub), pre, Now());
      outcome := Pass;
    }

    /** syncSubscriptionEventType with cleanupUnnecessaryJetStreamSubscribers. */
    method SyncEventType(key: Identifier, sub: Subscription) returns (outcome: Outcome)
      requires Valid() && sub.NamesValid()
      requires key in subscriptions && Associated(key, KeyPrefix(sub))
      modifies this`subscriptions, server
      ensures Valid()
      ensures outcome in {Pass, Fail(Failed)} && server.faults == old(server.faults) + if outcome.Pass? then 0 else 1
      ensures CleanKeyStep(key, Wanted(KeyPrefix(sub), StatusSubjects(config, sub)), old(Now()), outcome, Now())
    {
      hide Invariant, SubjectIn, KeyPrefix, Associated, Wanted, Subject, Ordinary, Shrunk, CleanKeyStep, DeleteKeyStep;
      ghost var pre := Now();
      var subjects := StatusSubjects(config, sub);
      ghost var wanted := Wanted(KeyPrefix(sub), subjects);
      KeysWellFormed(pre);
      OwnKeyWanted(sub, subjects, key);
      var inSub := SubscriptionExists(key, sub);
      if !subscriptions[key].valid && inSub {
        KeyUntouched(key, wanted, pre, Pass);
        return Pass;
      }
      var reply := server.ConsumerInfo(key.consumerName);
      match reply {
        case Unavailable =>
          outcome := Fail(Failed);
          KeyUntouched(key, wanted, pre, outcome);
        case NotFound =>
          outcome := server.DeleteConsumer(key.consumerName);
          if outcome.Pass? {
            subscriptions := subscriptions - {key};
          }
          assert server.consumers == pre.consumers;
          KeyWithoutConsumer(key, wanted, pre, outcome, Now());
          ShrinkingKeepsInvariant(pre, Now());
        case Found(consumer) =>
          if consumer.filterSubject !in subjects {
            outcome := DeleteFromJetStream(key);
            UnwantedKeyDeleted(key, wanted, pre, outcome, Now());
          } else {
            outcome := Pass;
            KeyUntouched(key, wanted, pre, outcome);
          }
      }
    }

    /** runtimeSubscriptionExistsInKymaSub. */
    method SubscriptionExists(key: Identifier, sub: Subscription) returns (found: bool)
      requires key.WellFormed()
      ensures found <==> key in Wanted(KeyPrefix(sub), StatusSubjects(config, sub))
    {
      ghost var subjects := StatusSubjects(config, sub);
      for i := 0 to |sub.statusTypes|
        invariant forall j :: 0 <= j < i ==> IdentifierFor(KeyPrefix(sub), subjects[j]) != key
      {
        var id := NewIdentifier(sub, SubjectOf(sub, sub.statusTypes[i]));
        if key.consumerName == id.consumerName {
          assert id == IdentifierFor(KeyPrefix(sub), subjects[i]);
          return true;
        }
      }
      found := false;
    }

    /** deleteSubscriptionFromJetStream. */
    method DeleteFromJetStream(key: Identifier) returns (outcome: Outcome)
      requires Valid() && key in subscriptions
      modifies this`subscriptions, server
      ensures Valid()
      ensures outcome in {Pass, Fail(Failed)} && server.faults == old(server.faults) + if outcome.Pass? then 0 else 1
      ensures DeleteKeyStep(key, old(Now()), outcome, Now())
    {
      hide Invariant, Shrunk, SameExcept, OnlyDetached, Detached;
      ghost var pre := Now();
      outcome := Detach(key);
      ghost var mid := Now();
      if outcome.Pass? {
        hide DetachKeyStep, DeleteKeyStep;
        outcome := server.DeleteConsumer(key.consumerName);
        if outcome.Pass? {
          subscriptions := subscriptions - {key};
        }
        DetachedKeyDeleted(key, pre, mid, outcome, Now());
      }
      ShrinkingKeepsInvariant(pre, Now());
    }

    /** The Unsubscribe call of deleteSubscriptionFromJetStream and deleteSubscriptionFromJetStreamOnly. */
    method Detach(key: Identifier) returns (outcome: Outcome)
      requires Valid() && key in subscriptions
      modifies this`subscriptions, server
      ensures server.Valid()
      ensures outcome in {Pass, Fail(Failed)} && server.faults == old(server.faults) + if outcome.Pass? then 0 else 1
      ensures DetachKeyStep(key, old(Now()), outcome, Now())
    {
      hide Invariant;
      ghost var pre := Now();
      outcome := Pass;
      if subscriptions[key].valid {
        hide Shrunk;
        outcome := server.Unsubscribe(key.consumerName);
        if outcome.Pass? {
          subscriptions := subscriptions[key := subscriptions[key].(valid := false)];
        }
        KeyDetached(key, pre, outcome, Now());
      }
    }

    /** syncConsumerAndSubscription. */
    method SyncConsumersAndSubscriptions(sub: Subscription) returns (outcome: Outcome)
      requires Valid() && sub.NamesValid()
      requires KeyPrefix(sub) in sinks
      requires forall k :: k in Wanted(KeyPrefix(sub), StatusSubjects(config, sub)) ==> HasConsumerIfValid(Now(), k)
      modifies this`subscriptions, server
      ensures Valid()
      ensures AttachAllStep(Wanted(KeyPrefix(sub), StatusSubjects(config, sub)), sub.MaxInFlight(config.defaultMaxInFlight),
                            old(Now()), outcome, Now())
      ensures server.faults >= old(server.faults) && AttachAllEnds(KeyPrefix(sub), StatusSubjects(config, sub), old(Now()), outcome,
                                                                      server.faults - old(server.faults), Now())
    {
      hide Invariant, KeyPrefix, Subject, Wanted, IdentifierFor, AttachProgress, AttachStep, AttachAllStep, Renewed;
      hide EndsProgress, AttachEnds, AttachAllEnds;
      ghost var pre, prefix := Now(), KeyPrefix(sub);
      ghost var subjects, max := StatusSubjects(config, sub), sub.MaxInFlight(config.defaultMaxInFlight);
      ghost var faults := server.faults;
      AttachProgressStarts(prefix, subjects, max, pre);
      EndsProgressStarts(prefix, subjects, pre);
      for i := 0 to |sub.statusTypes|
        invariant Valid() && sinks == pre.sinks
        invariant AttachProgress(prefix, subjects, i, max, pre, Now())
        invariant server.faults == faults && EndsProgress(prefix, subjects, i, pre, Now())
      {
        ghost var mid := Now();
        AttachProgressGives(prefix, subjects, i, max, pre, mid);
        outcome := SyncConsumer(sub, sub.statusTypes[i]);
        AttachProgressSteps(prefix, subjects, i, max, pre, mid, outcome, Now());
        EndsProgressSteps(prefix, subjects, i, max, pre, mid, outcome, server.faults - faults, Now());
        PassHasNoFaults(IdentifierFor(prefix, subjects[i]), mid, outcome, server.faults - faults, Now());
        if outcome.Fail? {
          return;
        }
      }
      AttachProgressEnds(prefix, subjects, max, pre, Now());
      EndsProgressEnds(prefix, subjects, pre, Now());
      outcome := Pass;
    }

    /** The body of the loop in syncConsumerAndSubscription. */
    method SyncConsumer(sub: Subscription, eventType: EventType) returns (outcome: Outcome)
      requires Valid() && sub.NamesValid()
      requires KeyPrefix(sub) in sinks
      requires HasConsumerIfValid(Now(), NewIdentifier(sub, SubjectOf(sub, eventType)))
      modifies this`subscriptions, server
      ensures Valid()
      ensures AttachStep(NewIdentifier(sub, SubjectOf(sub, eventType)), sub.MaxInFlight(config.defaultMaxInFlight), old(Now()), outcome, Now())
      ensures Renewed(old(Now()), Now())
      ensures server.faults >= old(server.faults) && AttachEnds(NewIdentifier(sub, SubjectOf(sub, eventType)), old(Now()), outcome,
                                                                   server.faults - old(server.faults), Now())
    {
      hide SubjectIn, Strings.LastIndex, Identifier.NamespacedName, Subject, Renewed;
      ghost var pre := Now();
      var subject, max := SubjectOf(sub, eventType), sub.MaxInFlight(config.defaultMaxInFlight);
      var key := NewIdentifier(sub, subject);
      SubjectRoundTrip(sub, subject);
      outcome := AttachConsumer(key, subject, max);
      AttachingKeepsInvariant(sub, subject, pre, Now());
      AttachedIsRenewed(key, pre, Now());
    }

    method AttachConsumer(key: Identifier, subject: string, max: int) returns (outcome: Outcome)
      requires server.Valid()
      requires HasConsumerIfValid(Now(), key) && BoundIfValid(Now(), key)
      requires subject == SubjectIn(key.namespacedSubjectName) && FiltersOn(Now(), key, subject)
      modifies this`subscriptions, server
      ensures server.Valid()
      ensures AttachStep(key, max, old(Now()), outcome, Now())
      ensures server.faults >= old(server.faults) && AttachEnds(key, old(Now()), outcome, server.faults - old(server.faults), Now())
      ensures BoundIfValid(Now(), key) && FiltersOn(Now(), key, subject)
    {
      hide SubjectIn, Ordinary;
      var reply := GetOrCreateConsumer(key, subject, max);
      if !reply.Found? {
        return Fail(Failed);
      }
      outcome := EnsureSubscriber(key, reply.consumer);
      if outcome.Fail? {
        return;
      }
      outcome := SyncMaxInFlight(key.consumerName, reply.consumer, max);
    }

    /** syncConsumerMaxInFlight. */
    method SyncMaxInFlight(name: ConsumerName, info: Consumer, max: int) returns (outcome: Outcome)
      requires server.Valid() && name in server.consumers && server.consumers[name].(pushBound := info.pushBound) == info
      modifies server
      ensures server.Valid()
      ensures outcome in {Pass, Fail(Failed)} && server.faults == old(server.faults) + if outcome.Pass? then 0 else 1
      ensures var before, now := old(server.consumers), server.consumers;
              && SameExcept(before, now, {name}) && name in now
              && (now[name] == before[name] || now[name] == before[name].(maxAckPending := max))
              && (outcome.Pass? ==> now[name].maxAckPending == max)
              && (info.maxAckPending == max ==> now == before && server.writes == old(server.writes))
    {
      outcome := Pass;
      if info.maxAckPending != max {
        outcome := server.UpdateConsumer(name, info.filterSubject, max);
      }
    }

    /** Creates a subscriber if there is none, and binds a new one in place of an invalid one. */
    method EnsureSubscriber(key: Identifier, info: Consumer) returns (outcome: Outcome)
      requires server.Valid()
      requires key.consumerName in server.consumers && server.consumers[key.consumerName] == info
      requires BoundIfValid(Now(), key)
      modifies this`subscriptions, server
      ensures server.Valid()
      ensures var now, pre := Now(), old(Now());
              && SameExcept(pre.subscriptions, now.subscriptions, {key})
              && SameExcept(pre.consumers, now.consumers, {key.consumerName})
              && key.consumerName in now.consumers && now.consumers[key.consumerName].(pushBound := info.pushBound) == info
              && BoundIfValid(now, key)
              && (outcome.Pass? ==> key in now.subscriptions && now.subscriptions[key].valid)
              && (key in pre.subscriptions && pre.subscriptions[key].valid ==> now == pre)
      ensures server.faults >= old(server.faults) && AttachEnds(key, old(Now()), outcome, server.faults - old(server.faults), Now())
    {
      hide SubjectIn, Ordinary;
      var existed := key in subscriptions;
      var invalid := existed && !subscriptions[key].valid;
      if !existed && !info.pushBound {
        outcome := Bind(key);
        if outcome.Fail? {
          return;
        }
      }
      if key !in subscriptions {
        return Fail(MissingSubscription);
      }
      outcome := Pass;
      if invalid {
        outcome := Bind(key);
      }
    }

    method GetOrCreateConsumer(key: Identifier, subject: string, max: int) returns (reply: ConsumerReply)
      requires server.Valid()
      modifies server
      ensures server.Valid()
      ensures !reply.NotFound? && server.faults == old(server.faults) + if reply.Found? then 0 else 1
      ensures SameExcept(old(server.consumers), server.consumers, {key.consumerName})
      ensures key.consumerName in old(server.consumers) ==> server.consumers == old(server.consumers) && server.writes == old(server.writes)
      ensures key.consumerName in server.consumers && key.consumerName !in old(server.consumers) ==>
                server.consumers[key.consumerName].filterSubject == subject && !server.consumers[key.consumerName].pushBound
      ensures reply.Found? ==> key.consumerName in server.consumers && reply.consumer == server.consumers[key.consumerName]
    {
      reply := server.ConsumerInfo(key.consumerName);
      if reply.NotFound? {
        reply := server.AddConsumer(key.consumerName, subject, max);
      }
    }

    /** createNATSSubscription and bindInvalidSubscriptions. */
    method Bind(key: Identifier) returns (outcome: Outcome)
      requires server.Valid()
      modifies this`subscriptions, server
      ensures server.Valid()
      ensures var now, pre := Now(), old(Now());
              && SameExcept(pre.consumers, now.consumers, {key.consumerName})
              && (key.consumerName in now.consumers <==> key.consumerName in pre.consumers)
              && (key.consumerName in pre.consumers ==>
                  now.consumers[key.consumerName] == pre.consumers[key.consumerName]
                  || now.consumers[key.consumerName] == pre.consumers[key.consumerName].(pushBound := true))
              && (outcome.Fail? ==> now.subscriptions == pre.subscriptions)
              && (outcome.Fail? && server.faults == old(server.faults) ==> now.consumers == pre.consumers)
              && (outcome.Pass? <==> key.consumerName in pre.consumers && !pre.consumers[key.consumerName].pushBound
                                     && server.faults == old(server.faults))
      ensures server.faults in {old(server.faults), old(server.faults) + 1} && (outcome.Fail? ==> outcome.error.Failed?)
      ensures var now, pre := Now(), old(Now());
              (outcome.Pass? ==>
                  && key.consumerName in now.consumers
                  && now.subscriptions == pre.subscriptions[key := Subscriber(true, now.consumers[key.consumerName].uid)])
    {
      var reply := server.Subscribe(key.consumerName);
      if !reply.Found? {
        return Fail(Failed);
      }
      subscriptions := subscriptions[key := Subscriber(true, reply.consumer.uid)];
      outcome := Pass;
    }

    method DeleteSubscription(sub: Subscription) returns (outcome: Outcome)
      requires Valid() && sub.NamesValid()
      modifies this, server
      ensures Valid()
      ensures outcome in {Pass, Fail(Failed)} && server.faults == old(server.faults) + if outcome.Pass? then 0 else 1
      ensures DeleteStep(config, sub, old(Now()), outcome, Now())
    {
      hide KeyPrefix, Own, Wanted, Invariant, Shrunk, Deleting, DeletedNames, StatusSubjects, Names;
      ghost var pre := Now();
      var prefix := KeyPrefix(sub);
      ghost var own, names := Own(pre, prefix), DeletedNames(config, sub, pre);
      outcome := CheckConnection();
      if outcome.Fail? {
        NothingDeleted(own, names, pre);
        return;
      }
      NamesToDelete(config, sub, pre);
      outcome := DeleteSubscribers(sub, names);
      SinksStay(own, names, pre, Now());
      if outcome.Fail? {
        return;
      }
      ghost var mid := Now();
      outcome := DeleteStatusConsumers(sub);
      ConsumersDeleted(config, sub, pre, mid, Now());
      if outcome.Fail? {
        return;
      }
      mid := Now();
      sinks := sinks - {prefix};
      DroppingSinkKeepsInvariant(mid, Now(), prefix);
      DeletionEnds(config, sub, pre, mid, Now());
      outcome := Pass;
    }

    /** The second loop of DeleteSubscription: the consumers named by the status, in case the table was
        lost in a restart. */
    method DeleteStatusConsumers(sub: Subscription) returns (outcome: Outcome)
      requires Valid() && sub.NamesValid()
      modifies server
      ensures Valid()
      ensures outcome in {Pass, Fail(Failed)} && server.faults == old(server.faults) + if outcome.Pass? then 0 else 1
      ensures var pre, names := old(Now()), Names(Wanted(KeyPrefix(sub), StatusSubjects(config, sub)));
              && Shrunk(pre, Now())
              && (forall name :: name in server.consumers ==> name in pre.consumers && server.consumers[name] == pre.consumers[name])
              && (forall name :: name in pre.consumers && name !in names ==> name in server.consumers)
              && (outcome.Pass? ==> server.consumers.Keys !! names)
    {
      hide SubjectIn, KeyPrefix, Own, Invariant, Wanted, IdentifierFor, Subject, Shrunk;
      ghost var pre := Now();
      ghost var prefix, subjects := KeyPrefix(sub), StatusSubjects(config, sub);
      for i := 0 to |sub.statusTypes|
        invariant server.faults == old(server.faults)
        invariant server.Valid() && subscriptions == pre.subscriptions && sinks == pre.sinks
        invariant forall name :: name in server.consumers ==> name in pre.consumers && server.consumers[name] == pre.consumers[name]
        invariant forall name :: name in pre.consumers && name !in Names(Wanted(prefix, subjects)) ==> name in server.consumers
        invariant forall j :: 0 <= j < i ==> IdentifierFor(prefix, subjects[j]).consumerName !in server.consumers
      {
        var id := NewIdentifier(sub, SubjectOf(sub, sub.statusTypes[i]));
        WantedMember(prefix, subjects, i);
        outcome := server.DeleteConsumer(id.consumerName);
        if outcome.Fail? {
          FewerConsumers(pre, Now());
          ShrinkingKeepsInvariant(pre, Now());
          return;
        }
      }
      WantedNamesGone(prefix, subjects, server.consumers);
      FewerConsumers(pre, Now());
      ShrinkingKeepsInvariant(pre, Now());
      outcome := Pass;
    }

    /** The first loop of DeleteSubscription. */
    method DeleteSubscribers(sub: Subscription, ghost names: set<ConsumerName>) returns (outcome: Outcome)
      requires Valid() && sub.NamesValid()
      requires Names(Own(Now(), KeyPrefix(sub))) <= names
      modifies this`subscriptions, server
      ensures Valid()
      ensures Deleting(Own(old(Now()), KeyPrefix(sub)), names, old(Now()), Now())
      ensures outcome in {Pass, Fail(Failed)} && server.faults == old(server.faults) + if outcome.Pass? then 0 else 1
      ensures outcome.Pass? ==> Own(Now(), KeyPrefix(sub)) == {}
    {
      hide SubjectIn, Strings.LastIndex, Associated, KeyPrefix, Own;
      ghost var pre := Now();
      var prefix := KeyPrefix(sub);
      ghost var own := Own(pre, prefix);
      var pending := subscriptions.Keys;
      while pending != {}
        invariant server.faults == old(server.faults)
        invariant Valid()
        invariant pending <= subscriptions.Keys
        invariant Deleting(own, names, pre, Now())
        invariant forall k :: k in own && k in subscriptions ==> k in pending
      {
        var key :| key in pending;
        ghost var left := pending;
        pending := pending - {key};
        if Associated(key, prefix) {
          ghost var mid := Now();
          assert key in own;
          outcome := DeleteFromJetStream(key);
          DeletingExtends(own, names, key, pre, mid, outcome, Now());
          if outcome.Fail? {
            return;
          }
        }
      }
      outcome := Pass;
    }

    method DeleteSubscriptionsOnly(sub: Subscription) returns (outcome: Outcome)
      requires Valid() && sub.NamesValid()
      modifies this, server
      ensures Valid()
      ensures outcome in {Pass, Fail(Failed)} && server.faults == old(server.faults) + if outcome.Pass? then 0 else 1
      ensures PauseStep(sub, old(Now()), outcome, Now())
    {
      hide SubjectIn, Associated, KeyPrefix, Own, Pausing, PauseKeyStep, PausedSoFar, Invariant;
      ghost var pre := Now();
      var prefix := KeyPrefix(sub);
      ghost var own := Own(pre, prefix);
      NothingPaused(own, pre);
      KeysWellFormed(pre);
      outcome := CheckConnection();
      if outcome.Fail? {
        return;
      }
      var pending := subscriptions.Keys;
      while pending != {}
        invariant server.faults == old(server.faults)
        invariant Valid()
        invariant pending <= subscriptions.Keys
        invariant forall k :: k in pending ==> subscriptions[k] == pre.subscriptions[k]
        invariant Pausing(own, pre, Now())
        invariant PausedSoFar(own, pending, pre, Now())
      {
        var key :| key in pending;
        ghost var left := pending;
        pending := pending - {key};
        if Associated(key, prefix) {
          assert key in own;
          ghost var mid := Now();
          outcome := DeleteFromJetStreamOnly(key);
          PausingExtends(own, key, pre, mid, outcome, Now());
          if outcome.Fail? {
            return;
          }
          PausedSoFarExtends(own, left, key, pre, mid, Now());
        } else {
          NotPaused(own, left, key, pre, Now());
        }
      }
      AllPaused(prefix, pre, Now());
      outcome := Pass;
    }

    /** deleteSubscriptionFromJetStreamOnly. */
    method DeleteFromJetStreamOnly(key: Identifier) returns (outcome: Outcome)
      requires Valid() && key in subscriptions
      modifies this`subscriptions, server
      ensures Valid()
      ensures outcome in {Pass, Fail(Failed)} && server.faults == old(server.faults) + if outcome.Pass? then 0 else 1
      ensures PauseKeyStep(key, old(Now()), outcome, Now())
    {
      hide Invariant;
      ghost var pre := Now();
      outcome := Detach(key);
      if outcome.Pass? {
        subscriptions := subscriptions - {key};
      }
      ShrinkingKeepsInvariant(pre, Now());
    }

    /** DeleteInvalidConsumers, over the consumers listed at its start. */
    method DeleteInvalidConsumers(subs: seq<Subscription>) returns (outcome: Outcome)
      requires Valid()
      modifies server
      ensures Valid()
      ensures outcome in {Pass, Fail(Failed)} && server.faults == old(server.faults) + if outcome.Pass? then 0 else 1
      ensures PurgeStep(config, subs, old(Now()), outcome, Now())
    {
      hide Invariant, UsedBySome;
      ghost var pre := Now();
      var listed := server.consumers;
      var pending := listed.Keys;
      while pending != {}
        invariant server.faults == old(server.faults)
        invariant server.Valid() && subscriptions == pre.subscriptions && sinks == pre.sinks
        invariant pending <= server.consumers.Keys
        invariant forall name :: name in server.consumers ==> name in listed && server.consumers[name] == listed[name]
        invariant forall name :: name in listed && Kept(config, subs, listed, name) ==> name in server.consumers
        invariant forall name :: name in server.consumers && name !in pending ==> Kept(config, subs, listed, name)
      {
        var name :| name in pending;
        pending := pending - {name};
        if !listed[name].pushBound {
          var used := IsConsumerUsed(name, subs);
          if !used {
            outcome := server.DeleteConsumer(name);
            if outcome.Fail? {
              ShrinkingKeepsInvariant(pre, Now());
              return;
            }
          }
        }
      }
      ShrinkingKeepsInvariant(pre, Now());
      outcome := Pass;
    }

    /** isConsumerUsedByKymaSub. */
    method IsConsumerUsed(name: ConsumerName, subs: seq<Subscription>) returns (used: bool)
      ensures used <==> UsedBySome(config, subs, name)
    {
      hide Subject, Subjects, CleanEventTypes, KeyPrefix, IdentifierFor, UsedBy, NamedIn;
      for i := 0 to |subs|
        invariant forall j :: 0 <= j < i ==> !UsedBy(config, subs[j], name)
      {
        var subjects := Subjects(config.subjectPrefix, subs[i], CleanEventTypes(subs[i]));
        UsedByMeans(config, subs[i], name);
        for t := 0 to |subjects|
          invariant !NamedIn(KeyPrefix(subs[i]), subjects, t, name)
        {
          NamedInGrows(KeyPrefix(subs[i]), subjects, t, name);
          if name == NewIdentifier(subs[i], subjects[t]).consumerName {
            assert UsedBy(config, subs[i], name);
            return true;
          }
        }
      }
      used := false;
    }
  }
}
