/** What the JetStream backend guarantees over whole runs. */
module JetStreamRuns {
  import opened Strings
  import opened Subscriptions
  import opened Identifiers
  import opened JetStreamSubjects
  import opened NatsServers
  import opened Numerals
  import opened Outcomes
  import opened JetStreamStates

  datatype Action =
    | Sync(sub: Subscription)
    | Delete(sub: Subscription)
    | DeleteOnly(sub: Subscription)
    | DeleteInvalid(subs: seq<Subscription>)
    | Environment

  /** One step of a run: a call of an operation, successful or not, with what its method guarantees, or
      something that happens in between. */
  ghost predicate Step(config: Config, pre: State, action: Action, outcome: Outcome, post: State) {
    match action
    case Sync(sub) => sub.NamesValid() && SyncStep(config, sub, pre, outcome, post)
    case Delete(sub) => sub.NamesValid() && DeleteStep(config, sub, pre, outcome, post)
    case DeleteOnly(sub) => sub.NamesValid() && PauseStep(sub, pre, outcome, post)
    case DeleteInvalid(subs) => PurgeStep(config, subs, pre, outcome, post)
    case Environment => EnvironmentStep(pre, post)
  }

  datatype Event = Event(action: Action, outcome: Outcome)

  ghost predicate Run(config: Config, states: seq<State>, events: seq<Event>) {
    && |states| == |events| + 1
    && forall i :: 0 <= i < |events| ==> Step(config, states[i], events[i].action, events[i].outcome, states[i + 1])
  }

  lemma StepKeepsInvariant(config: Config, pre: State, action: Action, outcome: Outcome, post: State)
    requires Invariant(pre) && Step(config, pre, action, outcome, post)
    ensures Invariant(post)
  {
    hide SubjectIn, LastIndex, KeyPrefix, Associated, UsedBySome, SyncStep, DeleteStep;
    match action {
      case Sync(sub) => SyncKeepsInvariant(config, sub, pre, outcome, post);
      case Delete(sub) => DeleteKeepsInvariant(config, sub, pre, outcome, post);
      case DeleteOnly(_) => ShrinkingKeepsInvariant(pre, post);
      case DeleteInvalid(_) => ShrinkingKeepsInvariant(pre, post);
      case Environment =>
    }
  }

  /** The invariant holds after every prefix of every run, whatever fails and whatever happens outside. */
  lemma {:induction false} InvariantOverRuns(config: Config, states: seq<State>, events: seq<Event>, n: nat)
    requires Run(config, states, events) && n < |states|
    requires Invariant(states[0])
    ensures Invariant(states[n])
  {
    hide Invariant, Step;
    if n > 0 {
      InvariantOverRuns(config, states, events, n - 1);
      StepKeepsInvariant(config, states[n - 1], events[n - 1].action, events[n - 1].outcome, states[n]);
    }
  }

  /** A callback looks its sink up under the key prefix of the subscription it was created for. */
  lemma CallbackFindsSink(config: Config, states: seq<State>, events: seq<Event>, n: nat, sub: Subscription, subject: string)
    requires Run(config, states, events) && n < |states|
    requires Invariant(states[0])
    requires sub.NamesValid() && SEPARATOR !in subject
    requires NewIdentifier(sub, subject) in states[n].subscriptions
    ensures KeyPrefix(sub) in states[n].sinks
  {
    InvariantOverRuns(config, states, events, n);
    SubjectRoundTrip(sub, subject);
    NamespacedNameRoundTrip(KeyPrefix(sub), subject);
  }

  /** A successful SyncSubscription converges, from wherever the run has got to, exactly when no
      subject of the status has a slash. */
  lemma SyncConvergesIffSlashFree(config: Config, sub: Subscription, pre: State, post: State)
    requires sub.NamesValid() && SyncStep(config, sub, pre, Pass, post)
    ensures ConvergedFor(post, config, sub) <==> SlashFree(StatusSubjects(config, sub))
  {
    hide LastIndex, SubjectIn;
    if ConvergedFor(post, config, sub) {
      ConvergedIsSlashFree(config, sub, post);
    }
  }

  /** After a successful sync every consumer of the status admits as many messages as the config asks for. */
  lemma ConfiguredLimitIsApplied(config: Config, sub: Subscription, pre: State, post: State, i: nat, n: int)
    requires sub.NamesValid() && SyncStep(config, sub, pre, Pass, post) && SlashFree(StatusSubjects(config, sub))
    requires i < |sub.statusTypes| && LimitAsked(sub.config, config.defaultMaxInFlight, n)
    ensures var name := NewIdentifier(sub, StatusSubjects(config, sub)[i]).consumerName;
            name in post.consumers && post.consumers[name].maxAckPending == n
  {
    hide SyncStep, KeyPrefix, LimitAsked, Subscription.MaxInFlight, SubjectIn, Own, SlashFree;
    SyncConvergesIffSlashFree(config, sub, pre, post);
    WantedMember(KeyPrefix(sub), StatusSubjects(config, sub), i);
    MaxInFlightIsAsked(sub, config.defaultMaxInFlight);
    OneLimitAsked(sub.config, config.defaultMaxInFlight, sub.MaxInFlight(config.defaultMaxInFlight), n);
  }

  /** If no call fails, a sync succeeds if and only if no wanted key is blocked, and converges if and only if
      moreover no subject has a slash. */
  lemma CleanSyncConvergesIff(config: Config, sub: Subscription, pre: State, outcome: Outcome, post: State)
    requires sub.NamesValid() && SyncStep(config, sub, pre, outcome, post) && SyncEnds(config, sub, pre, outcome, 0, post)
    ensures var blocked, free := SomeBlocked(pre, Wanted(KeyPrefix(sub), StatusSubjects(config, sub))), SlashFree(StatusSubjects(config, sub));
            && (outcome.Pass? <==> !blocked)
            && (ConvergedFor(post, config, sub) <==> free && !blocked)
  {
    hide SyncStep, Wanted, KeyPrefix, StatusSubjects, SlashFree, Own;
    if outcome.Pass? {
      SyncConvergesIffSlashFree(config, sub, pre, post);
    } else {
      var k :| k in Wanted(KeyPrefix(sub), StatusSubjects(config, sub)) && Blocked(post, k);
      assert !Attached(post, k, sub.MaxInFlight(config.defaultMaxInFlight));
    }
  }

  /** A restart blocks the keys whose consumers are still attached, until the server notices that their
      client is gone. */
  lemma RestartBlocks(config: Config, sub: Subscription, s: State, k: Identifier)
    requires ConvergedFor(s, config, sub) && k in Wanted(KeyPrefix(sub), StatusSubjects(config, sub)) && s.consumers[k.consumerName].pushBound
    ensures var restarted := s.(subscriptions := map[], sinks := map[]);
            && EnvironmentStep(s, restarted)
            && SomeBlocked(restarted, Wanted(KeyPrefix(sub), StatusSubjects(config, sub)))
  {
    hide Wanted, KeyPrefix, StatusSubjects, Own, SubjectIn;
    assert Blocked(s.(subscriptions := map[], sinks := map[]), k);
  }

  /** Pausing blocks no key, so that a sync in which no call fails brings the subscription back. */
  lemma PauseThenCleanSyncRecovers(config: Config, sub: Subscription, pre: State, paused: State, outcome: Outcome, post: State)
    requires sub.NamesValid() && PauseStep(sub, pre, Pass, paused)
    requires SyncStep(config, sub, paused, outcome, post) && SyncEnds(config, sub, paused, outcome, 0, post)
    requires !SomeBlocked(pre, Wanted(KeyPrefix(sub), StatusSubjects(config, sub)))
    ensures outcome.Pass? && (ConvergedFor(post, config, sub) <==> SlashFree(StatusSubjects(config, sub)))
  {
    hide SyncStep, PauseStep, StatusSubjects, SlashFree, ConvergedFor, SyncEnds, KeyPrefix;
    var wanted := Wanted(KeyPrefix(sub), StatusSubjects(config, sub));
    forall k | k in wanted
      ensures !Blocked(paused, k)
    {
      PauseBlocksNothing(sub, k, pre, paused);
    }
    CleanSyncConvergesIff(config, sub, paused, outcome, post);
  }

  lemma PauseBlocksNothing(sub: Subscription, k: Identifier, pre: State, paused: State)
    requires PauseStep(sub, pre, Pass, paused) && k.WellFormed() && !Blocked(pre, k)
    ensures !Blocked(paused, k)
  {
    hide Associated, KeyPrefix, SubjectIn, Shrunk;
  }

  /** A state in which the one subject of a status is attached. */
  function AttachedState(config: Config, sub: Subscription, subject: string): State {
    var key := NewIdentifier(sub, subject);
    State(map[key := Subscriber(true, 0)], map[KeyPrefix(sub) := sub.sink],
          map[key.consumerName := Consumer(subject, sub.MaxInFlight(config.defaultMaxInFlight), true, 0)], 0)
  }

  /** With a slash a successful sync is stuck: everything is attached, nothing is left to do, and yet the
      subscription has not converged, because its key is filed under the name of no subscription. */
  lemma SlashedSubjectIsStuck(config: Config, sub: Subscription, subject: string)
    requires sub.NamesValid() && StatusSubjects(config, sub) == [subject] && SEPARATOR in subject
    ensures var s, key := AttachedState(config, sub, subject), NewIdentifier(sub, subject);
            && Invariant(s) && Attached(s, key, sub.MaxInFlight(config.defaultMaxInFlight))
            && SyncStep(config, sub, s, Pass, s) && !ConvergedFor(s, config, sub)
  {
    hide SubjectIn, LastIndex, KeyPrefix, StatusSubjects;
    var s := AttachedState(config, sub, subject);
    SubjectRoundTrip(sub, subject);
    assert subject in StatusSubjects(config, sub);
    if ConvergedFor(s, config, sub) {
      ConvergedIsSlashFree(config, sub, s);
    }
    NothingShrunk(s);
    ShrunkIsRenewed(s, s);
  }

  /** In exact mode a type brings its slash into the subject. */
  lemma ExactTypeBringsSlash(config: Config, sub: Subscription, t: string)
    requires sub.typeMatching == Exact && sub.statusTypes == [EventType(t, t)] && SEPARATOR in t
    ensures StatusSubjects(config, sub) == [config.subjectPrefix + "." + t] && SEPARATOR in config.subjectPrefix + "." + t
  {
    var i :| 0 <= i < |t| && t[i] == SEPARATOR;
    assert (config.subjectPrefix + "." + t)[|config.subjectPrefix| + 1 + i] == SEPARATOR;
  }

  /** What convergence means for the types of the status: each has its own valid subscriber on a consumer
      that filters on its subject with the limit that the config asks for, and the subscription has no other key. */
  lemma ConvergedMeans(config: Config, sub: Subscription, s: State)
    requires sub.NamesValid() && Invariant(s) && ConvergedFor(s, config, sub)
    ensures forall i :: 0 <= i < |sub.statusTypes| ==>
      var subject := StatusSubjects(config, sub)[i];
      var k := NewIdentifier(sub, subject);
      && k in s.subscriptions && s.subscriptions[k].valid
      && k.consumerName in s.consumers
      && s.consumers[k.consumerName].uid == s.subscriptions[k].boundTo
      && s.consumers[k.consumerName].filterSubject == subject
      && s.consumers[k.consumerName].maxAckPending == sub.MaxInFlight(config.defaultMaxInFlight)
      && LimitAsked(sub.config, config.defaultMaxInFlight, s.consumers[k.consumerName].maxAckPending)
    ensures forall k :: k in s.subscriptions && Associated(k, KeyPrefix(sub)) ==>
      exists i :: 0 <= i < |sub.statusTypes| && k == NewIdentifier(sub, StatusSubjects(config, sub)[i])
  {
    hide LastIndex, SubjectIn, Subject, LimitAsked, Subscription.MaxInFlight;
    MaxInFlightIsAsked(sub, config.defaultMaxInFlight);
    var subjects := StatusSubjects(config, sub);
    forall i | 0 <= i < |subjects|
      ensures NewIdentifier(sub, subjects[i]) in Wanted(KeyPrefix(sub), subjects)
      ensures SubjectIn(NewIdentifier(sub, subjects[i]).namespacedSubjectName) == subjects[i]
    {
      WantedMember(KeyPrefix(sub), subjects, i);
      SubjectRoundTrip(sub, subjects[i]);
    }
    forall k | k in s.subscriptions && Associated(k, KeyPrefix(sub))
      ensures exists i :: 0 <= i < |sub.statusTypes| && k == NewIdentifier(sub, StatusSubjects(config, sub)[i])
    {
      assert k in Own(s, KeyPrefix(sub));
    }
  }

  /** Synchronising again changes nothing and asks the server to change nothing, even if a call fails. */
  lemma SecondSyncIsIdle(config: Config, sub: Subscription, pre: State, mid: State, outcome: Outcome, post: State)
    requires SlashFree(StatusSubjects(config, sub))
    requires SyncStep(config, sub, pre, Pass, mid) && SyncStep(config, sub, mid, outcome, post)
    ensures post == mid
  {
    hide ConvergedFor, Isolated, Retained;
  }

  /** Pausing loses no consumer, from any state and whatever fails: DeleteSubscriptionsOnly followed by
      SyncSubscription keeps every consumer but those of keys that are no longer wanted.  After a pause that
      succeeded no key is left to be unwanted, so that every consumer is kept; and if the sync succeeds too,
      every subscriber of a slash-free subject is back. */
  lemma PauseThenSyncKeepsConsumers(config: Config, sub: Subscription, pre: State, pause: Outcome, paused: State, sync: Outcome, post: State)
    requires sub.NamesValid()
    requires PauseStep(sub, pre, pause, paused) && SyncStep(config, sub, paused, sync, post)
    ensures forall name :: name !in Names(Own(pre, KeyPrefix(sub)) - Wanted(KeyPrefix(sub), StatusSubjects(config, sub))) ==>
              Retained(pre.consumers, post.consumers, name)
    ensures pause.Pass? ==> Own(paused, KeyPrefix(sub)) == {} && forall name :: Retained(pre.consumers, post.consumers, name)
    ensures sync.Pass? ==> (ConvergedFor(post, config, sub) <==> SlashFree(StatusSubjects(config, sub)))
  {
    hide SyncStep, PauseStep, ConvergedFor, KeyPrefix, Own, Wanted, Names, StatusSubjects, SlashFree, Retained;
    if sync.Pass? {
      SyncConvergesIffSlashFree(config, sub, paused, post);
    }
    PauseRetains(sub, pre, pause, paused);
    SyncRetains(config, sub, paused, sync, post);
    var prefix, subjects := KeyPrefix(sub), StatusSubjects(config, sub);
    NamesShrink(Own(paused, prefix), Own(pre, prefix), Wanted(prefix, subjects));
    forall name | name !in Names(Own(paused, prefix) - Wanted(prefix, subjects))
      ensures Retained(pre.consumers, post.consumers, name)
    {
      RetainedTransitive(pre.consumers, paused.consumers, post.consumers, name);
    }
    if pause.Pass? {
      NothingOwned(paused, prefix, subjects);
    }
  }

  lemma RetainedTransitive(a: Consumers, b: Consumers, c: Consumers, name: ConsumerName)
    requires Retained(a, b, name) && Retained(b, c, name)
    ensures Retained(a, c, name)
  {
  }

  lemma NamesShrink(less: set<Identifier>, more: set<Identifier>, wanted: set<Identifier>)
    requires less <= more
    ensures Names(less - wanted) <= Names(more - wanted)
  {
  }

  lemma SyncRetains(config: Config, sub: Subscription, pre: State, outcome: Outcome, post: State)
    requires SyncStep(config, sub, pre, outcome, post)
    ensures forall name :: name !in Names(Own(pre, KeyPrefix(sub)) - Wanted(KeyPrefix(sub), StatusSubjects(config, sub))) ==>
              Retained(pre.consumers, post.consumers, name)
  {
    hide Own, Wanted, KeyPrefix, StatusSubjects, ConvergedFor, Isolated, Names, Retained, Renewed;
  }

  lemma ConvergedIsSlashFree(config: Config, sub: Subscription, s: State)
    requires sub.NamesValid() && ConvergedFor(s, config, sub)
    ensures SlashFree(StatusSubjects(config, sub))
  {
    hide LastIndex, SubjectIn;
    var subjects := StatusSubjects(config, sub);
    forall i | 0 <= i < |subjects|
      ensures SEPARATOR !in subjects[i]
    {
      WantedMember(KeyPrefix(sub), subjects, i);
      OwnIsOrdinary(sub, s, subjects[i]);
    }
  }

  lemma PauseRetains(sub: Subscription, pre: State, outcome: Outcome, post: State)
    requires PauseStep(sub, pre, outcome, post)
    ensures Own(post, KeyPrefix(sub)) <= Own(pre, KeyPrefix(sub))
    ensures outcome.Pass? ==> Own(post, KeyPrefix(sub)) == {}
    ensures forall name :: Retained(pre.consumers, post.consumers, name)
  {
    hide Own, KeyPrefix;
    forall name
      ensures Retained(pre.consumers, post.consumers, name)
    {
      if name in Names(Own(pre, KeyPrefix(sub))) {
        assert OnlyDetached(pre.consumers, post.consumers, name);
      }
    }
  }

  lemma NothingOwned(s: State, prefix: string, subjects: seq<string>)
    requires Own(s, prefix) == {}
    ensures Names(Own(s, prefix) - Wanted(prefix, subjects)) == {}
  {
    hide Own, Wanted;
  }

  /** No operation on one subscription touches a key, a consumer or the sink of another. */
  lemma OtherSubscriptionsUntouched(config: Config, pre: State, action: Action, outcome: Outcome, post: State, other: Subscription)
    requires action.Sync? || action.Delete? || action.DeleteOnly?
    requires Step(config, pre, action, outcome, post)
    requires other.NamesValid() && (other.namespace != action.sub.namespace || other.name != action.sub.name)
    ensures forall k: Identifier :: Below(k.namespacedSubjectName, KeyPrefix(other)) ==> Same(pre.subscriptions, post.subscriptions, k)
    ensures forall name: ConsumerName :: ConsumerBelow(name, KeyPrefix(other)) ==> Same(pre.consumers, post.consumers, name)
    ensures Same(pre.sinks, post.sinks, KeyPrefix(other))
  {
    var sub := action.sub;
    StepIsIsolated(config, pre, action, outcome, post);
    hide Step, Isolated, Same, Below, KeyPrefix;
    forall full: string | Below(full, KeyPrefix(other))
      ensures !Below(full, KeyPrefix(sub))
    {
      if Below(full, KeyPrefix(sub)) {
        PrefixesDisjoint(full, sub, other);
      }
    }
    PrefixesDiffer(sub, other);
    IsolatedOutside(pre, post, KeyPrefix(sub), KeyPrefix(other));
  }

  lemma PrefixesDiffer(a: Subscription, b: Subscription)
    requires a.NamesValid() && b.NamesValid() && (a.namespace != b.namespace || a.name != b.name)
    ensures KeyPrefix(a) != KeyPrefix(b)
  {
    if KeyPrefix(a) == KeyPrefix(b) {
      PrefixesDisjoint(KeyPrefix(a) + [SEPARATOR], a, b);
    }
  }

  lemma IsolatedOutside(pre: State, post: State, prefix: string, other: string)
    requires Isolated(pre, post, prefix) && prefix != other
    requires forall full: string :: Below(full, other) ==> !Below(full, prefix)
    ensures forall k: Identifier :: Below(k.namespacedSubjectName, other) ==> Same(pre.subscriptions, post.subscriptions, k)
    ensures forall name: ConsumerName :: ConsumerBelow(name, other) ==> Same(pre.consumers, post.consumers, name)
    ensures Same(pre.sinks, post.sinks, other)
  {
    hide Below, Same;
  }

  lemma StepIsIsolated(config: Config, pre: State, action: Action, outcome: Outcome, post: State)
    requires action.Sync? || action.Delete? || action.DeleteOnly?
    requires Step(config, pre, action, outcome, post)
    ensures Isolated(pre, post, KeyPrefix(action.sub))
  {
    var prefix, subjects := KeyPrefix(action.sub), StatusSubjects(config, action.sub);
    OwnAndWantedBelow(pre, prefix, subjects);
    hide Own, Wanted, KeyPrefix, ConsumerBelow, Below, Shrunk, Isolated, StatusSubjects;
    var own, wanted := Own(pre, prefix), Wanted(prefix, subjects);
    match action {
      case Sync(_) =>
      case Delete(_) =>
        ChangesBelowAreIsolated(own, Names(own) + Names(wanted), prefix, pre, post);
      case DeleteOnly(_) =>
        ShrunkKeepsSinks(pre, post);
        ChangesBelowAreIsolated(own, Names(own), prefix, pre, post);
    }
  }

  lemma ChangesBelowAreIsolated(own: set<Identifier>, names: set<ConsumerName>, prefix: string, pre: State, post: State)
    requires SameExcept(pre.subscriptions, post.subscriptions, own) && SameExcept(pre.consumers, post.consumers, names)
    requires post.sinks == pre.sinks || post.sinks == pre.sinks - {prefix}
    requires forall k :: k in own ==> Below(k.namespacedSubjectName, prefix)
    requires forall name :: name in names ==> ConsumerBelow(name, prefix)
    ensures Isolated(pre, post, prefix)
  {
    hide Below, ConsumerBelow;
  }

  lemma ConvergenceIsLocal(prefix: string, subjects: seq<string>, sink: string, max: int, pre: State, post: State)
    requires Converged(pre, prefix, subjects, sink, max)
    requires forall k: Identifier :: Below(k.namespacedSubjectName, prefix) ==> Same(pre.subscriptions, post.subscriptions, k)
    requires forall name: ConsumerName :: ConsumerBelow(name, prefix) ==> Same(pre.consumers, post.consumers, name)
    requires Same(pre.sinks, post.sinks, prefix)
    ensures Converged(post, prefix, subjects, sink, max)
  {
    OwnAndWantedBelow(pre, prefix, subjects);
    OwnAndWantedBelow(post, prefix, subjects);
    hide Below, Associated, IdentifierFor, SubjectIn;
    forall k
      ensures k in Own(post, prefix) <==> k in Own(pre, prefix)
    {
      if Below(k.namespacedSubjectName, prefix) {
        assert Same(pre.subscriptions, post.subscriptions, k);
      }
    }
    forall k | k in Wanted(prefix, subjects)
      ensures Attached(post, k, max)
    {
      assert Same(pre.subscriptions, post.subscriptions, k) && Same(pre.consumers, post.consumers, k.consumerName);
    }
  }

  ghost predicate ActsOnOther(action: Action, sub: Subscription) {
    && (action.Sync? || action.Delete? || action.DeleteOnly?)
    && (action.sub.namespace != sub.namespace || action.sub.name != sub.name)
  }

  /** Once a subscription has converged it stays so through every run of operations on other
      subscriptions, whether they succeed or fail. */
  lemma {:induction false} ConvergenceSurvivesOthers(config: Config, states: seq<State>, events: seq<Event>, n: nat, sub: Subscription)
    requires Run(config, states, events) && n < |states|
    requires forall i :: 0 <= i < n ==> ActsOnOther(events[i].action, sub)
    requires sub.NamesValid() && ConvergedFor(states[0], config, sub)
    ensures ConvergedFor(states[n], config, sub)
  {
    hide Step, Converged, KeyPrefix, StatusSubjects, Below, ConsumerBelow;
    if n > 0 {
      ConvergenceSurvivesOthers(config, states, events, n - 1, sub);
      OtherSubscriptionsUntouched(config, states[n - 1], events[n - 1].action, events[n - 1].outcome, states[n], sub);
      ConvergenceIsLocal(KeyPrefix(sub), StatusSubjects(config, sub), sub.sink, sub.MaxInFlight(config.defaultMaxInFlight), states[n - 1], states[n]);
    }
  }

  /** In standard mode the status that syncEventTypes fills makes every successful sync converge. */
  lemma StandardSyncConverges(config: Config, sub: Subscription, pre: State, post: State)
    requires SEPARATOR !in config.subjectPrefix && sub.NamesValid() && sub.typeMatching == Standard
    requires SyncStep(config, WithTypesSynced(sub), pre, Pass, post)
    ensures ConvergedFor(post, config, WithTypesSynced(sub))
  {
    hide Isolated, Retained, Converged;
    var synced := WithTypesSynced(sub);
    assert CleanEventTypes(synced) == synced.statusTypes;
    StandardSubjectsSlashFree(config.subjectPrefix, synced);
  }

  // ---------------------------------------------------------------- deletion

  /** The state that DeleteSubscription aims at: the subscription's keys, the consumers they and the
      status name, and the sink are gone, and nothing else changed. */
  ghost predicate DeletedFrom(config: Config, sub: Subscription, pre: State, post: State) {
    var prefix := KeyPrefix(sub);
    && post.subscriptions == pre.subscriptions - Own(pre, prefix)
    && post.consumers == pre.consumers - DeletedNames(config, sub, pre)
    && post.sinks == pre.sinks - {prefix}
  }

  /** A series of calls of DeleteSubscription of which only the last one succeeds. */
  ghost predicate DeletionAttempts(config: Config, sub: Subscription, states: seq<State>) {
    && |states| >= 2
    && forall i :: 0 <= i < |states| - 1 ==>
        DeleteStep(config, sub, states[i], if i == |states| - 2 then Pass else Fail(Failed), states[i + 1])
  }

  /** However often DeleteSubscription fails, and wherever, retrying it to success reaches the state that
      an undisturbed call would have reached. */
  lemma {:induction false} DeletionCompletes(config: Config, sub: Subscription, states: seq<State>)
    requires DeletionAttempts(config, sub, states)
    ensures DeletedFrom(config, sub, states[0], states[|states| - 1])
    decreases |states|
  {
    if |states| == 2 {
      DeletionSucceeds(config, sub, states[0], states[1]);
    } else {
      var rest := states[1..];
      assert DeletionAttempts(config, sub, rest);
      DeletionCompletes(config, sub, rest);
      DeletionRetried(config, sub, states[0], states[1], states[|states| - 1]);
    }
  }

  lemma DeletionSucceeds(config: Config, sub: Subscription, pre: State, post: State)
    requires DeleteStep(config, sub, pre, Pass, post)
    ensures DeletedFrom(config, sub, pre, post)
  {
    hide SubjectIn, LastIndex, KeyPrefix, Associated, Wanted;
    var own, names := Own(pre, KeyPrefix(sub)), DeletedNames(config, sub, pre);
    assert forall k :: k in own && k in post.subscriptions ==> k in Own(post, KeyPrefix(sub));
    assert post.subscriptions == pre.subscriptions - own;
    assert post.consumers == pre.consumers - names;
  }

  lemma DeletionRetried(config: Config, sub: Subscription, pre: State, mid: State, post: State)
    requires DeleteStep(config, sub, pre, Fail(Failed), mid) && DeletedFrom(config, sub, mid, post)
    ensures DeletedFrom(config, sub, pre, post)
  {
    hide SubjectIn, LastIndex, KeyPrefix, Associated, Wanted;
    var own, names := Own(pre, KeyPrefix(sub)), DeletedNames(config, sub, pre);
    assert Own(mid, KeyPrefix(sub)) <= own;
    assert DeletedNames(config, sub, mid) <= names;
    assert post.subscriptions == pre.subscriptions - own;
    forall name | name in names - DeletedNames(config, sub, mid)
      ensures name !in mid.consumers
    {
      var k :| k in own && k.consumerName == name;
      assert k !in mid.subscriptions;
    }
    assert post.consumers == pre.consumers - names;
  }

  /** What may happen between the attempts: anything outside, purges and operations on other subscriptions. */
  ghost predicate DeletesOrLeaves(action: Action, sub: Subscription) {
    action == Delete(sub) || action.Environment? || action.DeleteInvalid? || ActsOnOther(action, sub)
  }

  /** No restart loses the key, which is what finds its consumer. */
  ghost predicate NeverLost(states: seq<State>, events: seq<Event>, k: Identifier)
    requires |states| == |events| + 1
  {
    forall i :: 0 <= i < |events| && events[i].action.Environment? ==> k in states[i].subscriptions ==> k in states[i + 1].subscriptions
  }

  /** A deletion that is retried to success amid all that leaves no key, no sink and no consumer that the
      status names; and no consumer of a key that there was at the beginning, unless a restart lost the key. */
  lemma DeletionCompletesAmidOthers(config: Config, states: seq<State>, events: seq<Event>, sub: Subscription)
    requires Run(config, states, events) && sub.NamesValid() && events != []
    requires forall i :: 0 <= i < |events| ==> DeletesOrLeaves(events[i].action, sub)
    requires events[|events| - 1] == Event(Delete(sub), Pass)
    ensures var prefix, last := KeyPrefix(sub), states[|events|];
            && Own(last, prefix) == {} && prefix !in last.sinks
            && last.consumers.Keys !! Names(Wanted(prefix, StatusSubjects(config, sub)))
            && forall k :: k in Own(states[0], prefix) && NeverLost(states, events, k) ==> k.consumerName !in last.consumers
  {
    hide KeyPrefix, Own, Wanted, StatusSubjects, Deleting, NeverLost, DeletesOrLeaves;
    var n := |events| - 1;
    assert Step(config, states[n], events[n].action, events[n].outcome, states[n + 1]);
    forall k | k in Own(states[0], KeyPrefix(sub)) && NeverLost(states, events, k)
      ensures k.consumerName !in states[|events|].consumers
    {
      KeyOrConsumerGone(config, states, events, sub, k, |events|);
      NotOwned(states[|events|], KeyPrefix(sub), k);
    }
  }

  lemma NotOwned(s: State, prefix: string, k: Identifier)
    requires Own(s, prefix) == {} && k.WellFormed() && Associated(k, prefix)
    ensures k !in s.subscriptions
  {
    hide Associated;
    assert k !in Own(s, prefix);
  }

  lemma {:induction false} KeyOrConsumerGone(config: Config, states: seq<State>, events: seq<Event>, sub: Subscription, k: Identifier, n: nat)
    requires Run(config, states, events) && sub.NamesValid() && n <= |events|
    requires forall i :: 0 <= i < |events| ==> DeletesOrLeaves(events[i].action, sub)
    requires k.WellFormed() && Associated(k, KeyPrefix(sub)) && k in states[0].subscriptions && NeverLost(states, events, k)
    ensures k in states[n].subscriptions || k.consumerName !in states[n].consumers
  {
    hide Step, Associated, KeyPrefix, DeletesOrLeaves;
    if n > 0 {
      KeyOrConsumerGone(config, states, events, sub, k, n - 1);
      StepKeepsKeyOrDropsConsumer(config, states[n - 1], events[n - 1].action, events[n - 1].outcome, states[n], sub, k);
    }
  }

  lemma StepKeepsKeyOrDropsConsumer(config: Config, pre: State, action: Action, outcome: Outcome, post: State, sub: Subscription, k: Identifier)
    requires Step(config, pre, action, outcome, post) && sub.NamesValid() && DeletesOrLeaves(action, sub)
    requires k.WellFormed() && Associated(k, KeyPrefix(sub))
    requires action.Environment? ==> k in pre.subscriptions ==> k in post.subscriptions
    requires k in pre.subscriptions || k.consumerName !in pre.consumers
    ensures k in post.subscriptions || k.consumerName !in post.consumers
  {
    hide SubjectIn, LastIndex, KeyPrefix, Associated, Wanted, UsedBySome, Below;
    if action == Delete(sub) {
      assert k in pre.subscriptions ==> k in Own(pre, KeyPrefix(sub));
    } else if ActsOnOther(action, sub) {
      hide Step;
      AssociatedShape(k, KeyPrefix(sub));
      OtherSubscriptionsUntouched(config, pre, action, outcome, post, sub);
      assert ConsumerBelow(k.consumerName, KeyPrefix(sub));
      assert Same(pre.subscriptions, post.subscriptions, k) && Same(pre.consumers, post.consumers, k.consumerName);
    }
  }

  /** A successful deletion leaves a key of the subscription behind exactly when its subject has a slash; the
      callback of such a key then looks in vain for the sink. */
  lemma DeletionLeavesSlashedKeys(config: Config, sub: Subscription, subject: string, pre: State, post: State)
    requires sub.NamesValid() && DeleteStep(config, sub, pre, Pass, post)
    requires NewIdentifier(sub, subject) in pre.subscriptions
    ensures NewIdentifier(sub, subject) in post.subscriptions <==> SEPARATOR in subject
    ensures KeyPrefix(sub) !in post.sinks
  {
    hide SubjectIn, LastIndex, Wanted, Associated, KeyPrefix, Shrunk;
    OwnIsOrdinary(sub, pre, subject);
    OwnIsOrdinary(sub, post, subject);
  }

  // ---------------------------------------------------------------- dangling consumers

  /** DeleteInvalidConsumers keeps exactly the consumers that are attached or that a later sync of a
      listed subscription looks up. */
  lemma PurgeIsExact(config: Config, subs: seq<Subscription>, pre: State, post: State, name: ConsumerName)
    requires PurgeStep(config, subs, pre, Pass, post)
    ensures name in post.consumers <==>
      name in pre.consumers && (pre.consumers[name].pushBound || UsedBySome(config, subs, name))
  {
    hide UsedBySome;
  }

  /** So a subscription that is listed stays converged when its status types were synced from its spec. */
  lemma PurgeKeepsConverged(config: Config, subs: seq<Subscription>, i: nat, pre: State, outcome: Outcome, post: State)
    requires i < |subs| && subs[i] == WithTypesSynced(subs[i])
    requires PurgeStep(config, subs, pre, outcome, post) && ConvergedFor(pre, config, subs[i])
    ensures ConvergedFor(post, config, subs[i])
  {
    hide LastIndex, SubjectIn, IdentifierFor, WithTypesSynced, Associated;
    var prefix, subjects := KeyPrefix(subs[i]), StatusSubjects(config, subs[i]);
    assert Own(pre, prefix) == Own(post, prefix);
    forall k | k in Wanted(prefix, subjects)
      ensures k.consumerName in post.consumers
    {
      assert UsedBy(config, subs[i], k.consumerName);
    }
  }
}
