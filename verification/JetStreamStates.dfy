/** Snapshots of the JetStream backend and its server, and what each operation may do to them.  The
    methods of JetStreams.JetStream are proved to stay within these relations, and JetStreamRuns
    reasons about sequences of them. */
module JetStreamStates {
  import opened Strings
  import opened Subscriptions
  import opened Identifiers
  import opened JetStreamSubjects
  import opened NatsServers
  import opened Outcomes

  datatype Config = Config(subjectPrefix: string, defaultMaxInFlight: int)

  /** A client-side subscriber: `valid` is IsValid of the nats.go subscription, `boundTo` the uid of the
      consumer that it was bound to. */
  datatype Subscriber = Subscriber(valid: bool, boundTo: nat)

  datatype State = State(
    subscriptions: map<Identifier, Subscriber>,
    sinks: map<string, string>,
    consumers: Consumers,
    writes: nat)

  /** What holds in every reachable state: keys carry the digest of their name, every consumer filters on
      the subject it is named after, a valid subscriber is never left on an earlier consumer of the same
      name, and every key has a sink for its callbacks.  The last two are promised for keys whose subject
      has no slash: the others are filed under the namespaced name of no subscription, so that no
      operation looks after them (see NamespacedNameRoundTrip). */
  ghost predicate Invariant(s: State) {
    && (forall k :: k in s.subscriptions ==> k.WellFormed())
    && NamesAgree(s.consumers)
    && (forall k :: k in s.subscriptions ==> BoundIfValid(s, k))
    && (forall k :: k in s.subscriptions && Ordinary(k) && k.WellFormed() ==> k.NamespacedName() in s.sinks)
  }

  ghost predicate NamesAgree(consumers: Consumers) {
    forall name :: name in consumers && name.Digest? ==> consumers[name].filterSubject == SubjectIn(name.of)
  }

  predicate Ordinary(k: Identifier) {
    SEPARATOR !in SubjectIn(k.namespacedSubjectName)
  }

  ghost predicate BoundToCurrent(s: State, k: Identifier)
    requires k in s.subscriptions
  {
    k.consumerName in s.consumers ==> s.subscriptions[k].boundTo == s.consumers[k.consumerName].uid
  }

  /** Subscriptions and consumers went away or were detached, and nothing else happened to them. */
  ghost predicate Shrunk(pre: State, post: State) {
    && post.sinks == pre.sinks
    && (forall k :: k in post.subscriptions ==> k in pre.subscriptions && Weakened(pre.subscriptions[k], post.subscriptions[k]))
    && (forall name :: name in post.consumers ==> name in pre.consumers && SameConsumer(pre.consumers[name], post.consumers[name]))
  }

  ghost predicate Weakened(pre: Subscriber, post: Subscriber) {
    post.boundTo == pre.boundTo && (post.valid ==> pre.valid)
  }

  ghost predicate SameConsumer(pre: Consumer, post: Consumer) {
    post.uid == pre.uid && post.filterSubject == pre.filterSubject
  }

  /** Every consumer is an earlier one or filters on the subject it is named after, and every valid subscriber
      is an earlier one whose consumer was kept, or is bound to the current consumer. */
  ghost predicate Renewed(pre: State, post: State) {
    && (forall name :: name in post.consumers ==> KeptConsumer(pre, post, name) || NamedAfterSubject(post, name))
    && (forall k :: k in post.subscriptions && k.WellFormed() && Ordinary(k) && post.subscriptions[k].valid ==>
          || BoundToCurrent(post, k)
          || (k in pre.subscriptions && Weakened(pre.subscriptions[k], post.subscriptions[k])
              && (k.consumerName in post.consumers ==> KeptConsumer(pre, post, k.consumerName))))
  }

  ghost predicate KeptConsumer(pre: State, post: State, name: ConsumerName) {
    name in pre.consumers && name in post.consumers && SameConsumer(pre.consumers[name], post.consumers[name])
  }

  ghost predicate NamedAfterSubject(s: State, name: ConsumerName) {
    name in s.consumers && name.Digest? && s.consumers[name].filterSubject == SubjectIn(name.of)
  }

  lemma RenewedTransitive(a: State, b: State, c: State)
    requires Renewed(a, b) && Renewed(b, c)
    ensures Renewed(a, c)
  {
    hide SubjectIn, Ordinary, Identifier.WellFormed;
  }

  lemma ShrunkIsRenewed(pre: State, post: State)
    requires Shrunk(pre, post)
    ensures Renewed(pre, post)
  {
    hide SubjectIn, Ordinary, Identifier.WellFormed;
  }

  lemma ShrunkTransitive(a: State, b: State, c: State)
    requires Shrunk(a, b) && Shrunk(b, c)
    ensures Shrunk(a, c)
  {
  }

  lemma ShrinkingKeepsInvariant(pre: State, post: State)
    requires Invariant(pre) && Shrunk(pre, post)
    ensures Invariant(post)
  {
    hide SubjectIn, LastIndex;
  }

  /** The subjects of a subscription's status. */
  function StatusSubjects(config: Config, sub: Subscription): seq<string> {
    Subjects(config.subjectPrefix, sub, sub.statusTypes)
  }

  predicate SlashFree(subjects: seq<string>) {
    forall s :: s in subjects ==> SEPARATOR !in s
  }

  /** The identifiers that a subscription's status calls for. */
  ghost function Wanted(prefix: string, subjects: seq<string>): set<Identifier> {
    set i | 0 <= i < |subjects| :: IdentifierFor(prefix, subjects[i])
  }

  ghost function Names(ids: set<Identifier>): set<ConsumerName> {
    set k | k in ids :: k.consumerName
  }

  /** The keys that belong to a subscription. */
  ghost function Own(s: State, prefix: string): (own: set<Identifier>)
    ensures forall k :: k in own <==> k in s.subscriptions && k.WellFormed() && Associated(k, prefix)
  {
    set k | k in s.subscriptions && k.WellFormed() && Associated(k, prefix)
  }

  /** A key of the subscription is wanted exactly when the subject in it is one of the status. */
  lemma OwnKeyWanted(sub: Subscription, subjects: seq<string>, k: Identifier)
    requires sub.NamesValid() && k.WellFormed() && Associated(k, KeyPrefix(sub))
    ensures SubjectIn(k.namespacedSubjectName) in subjects <==> k in Wanted(KeyPrefix(sub), subjects)
  {
    AssociatedShape(k, KeyPrefix(sub));
    var subject :| k == IdentifierFor(KeyPrefix(sub), subject);
    SubjectRoundTrip(sub, subject);
    if k in Wanted(KeyPrefix(sub), subjects) {
      var i :| 0 <= i < |subjects| && k == IdentifierFor(KeyPrefix(sub), subjects[i]);
      IdentifierInjective(KeyPrefix(sub), subject, subjects[i]);
    }
  }

  /** A subscription's keys are the stored ones among its identifiers without a slash in the subject. */
  lemma OwnIsOrdinary(sub: Subscription, s: State, subject: string)
    requires sub.NamesValid()
    ensures var k := NewIdentifier(sub, subject);
            && (Ordinary(k) <==> SEPARATOR !in subject)
            && (k in Own(s, KeyPrefix(sub)) <==> k in s.subscriptions && Ordinary(k))
  {
    SubjectRoundTrip(sub, subject);
    NamespacedNameRoundTrip(KeyPrefix(sub), subject);
  }

  /** The goal of SyncSubscription: exactly one valid subscriber per wanted identifier, each bound to a
      consumer with the subject and the configured limit. */
  ghost predicate Converged(s: State, prefix: string, subjects: seq<string>, sink: string, max: int) {
    && Own(s, prefix) == Wanted(prefix, subjects)
    && (forall k :: k in Wanted(prefix, subjects) ==> Attached(s, k, max))
    && prefix in s.sinks && s.sinks[prefix] == sink
  }

  ghost predicate Attached(s: State, k: Identifier, max: int) {
    && k in s.subscriptions && s.subscriptions[k].valid
    && k.consumerName in s.consumers && BoundToCurrent(s, k)
    && s.consumers[k.consumerName].filterSubject == SubjectIn(k.namespacedSubjectName)
    && s.consumers[k.consumerName].maxAckPending == max
  }

  ghost predicate ConvergedFor(s: State, config: Config, sub: Subscription) {
    Converged(s, KeyPrefix(sub), StatusSubjects(config, sub), sub.sink, sub.MaxInFlight(config.defaultMaxInFlight))
  }

  /** Everything that is not filed below `prefix` is untouched. */
  ghost predicate Isolated(pre: State, post: State, prefix: string) {
    && (forall k: Identifier :: !Below(k.namespacedSubjectName, prefix) ==> Same(pre.subscriptions, post.subscriptions, k))
    && (forall name: ConsumerName :: !ConsumerBelow(name, prefix) ==> Same(pre.consumers, post.consumers, name))
    && (forall p: string :: p != prefix ==> Same(pre.sinks, post.sinks, p))
  }

  ghost predicate Same<K, V>(pre: map<K, V>, post: map<K, V>, k: K) {
    (k in pre <==> k in post) && (k in pre ==> pre[k] == post[k])
  }

  ghost predicate SameExcept<K, V>(pre: map<K, V>, post: map<K, V>, ks: set<K>) {
    && (forall k :: k in pre && k !in ks ==> k in post && post[k] == pre[k])
    && (forall k :: k in post && k !in ks ==> k in pre)
  }

  /** The consumer is still there: not deleted, and not deleted and created again. */
  ghost predicate Retained(pre: Consumers, post: Consumers, name: ConsumerName) {
    name in pre ==> name in post && SameConsumer(pre[name], post[name])
  }

  /** syncSubscriptionEventTypes: drops the subscriptions that are not wanted and those whose consumer is gone. */
  ghost predicate CleanStep(prefix: string, subjects: seq<string>, pre: State, outcome: Outcome, post: State) {
    var own, wanted := Own(pre, prefix), Wanted(prefix, subjects);
    && Cleaning(pre, post, own, wanted)
    && (outcome.Pass? ==> forall k :: k in Own(post, prefix) ==> k in wanted && HasConsumerIfValid(post, k))
    && ((forall k :: k in own ==> k in wanted && HasConsumer(pre, k)) ==> post == pre)
  }

  ghost predicate Cleaning(pre: State, post: State, own: set<Identifier>, wanted: set<Identifier>) {
    && Shrunk(pre, post)
    && SameExcept(pre.subscriptions, post.subscriptions, own)
    && SameExcept(pre.consumers, post.consumers, Names(own - wanted))
    && (forall k :: k in wanted && HasConsumer(pre, k) ==> HasConsumer(post, k))
    && (forall k :: k in wanted && k in pre.subscriptions && !pre.subscriptions[k].valid ==> k in post.subscriptions)
  }

  ghost predicate HasConsumer(s: State, k: Identifier) {
    k in s.subscriptions && s.subscriptions[k].valid && k.consumerName in s.consumers
  }

  ghost predicate HasConsumerIfValid(s: State, k: Identifier) {
    k in s.subscriptions && Ordinary(k) && s.subscriptions[k].valid ==> k.consumerName in s.consumers
  }

  /** One key of syncSubscriptionEventTypes. */
  ghost predicate CleanKeyStep(key: Identifier, wanted: set<Identifier>, pre: State, outcome: Outcome, post: State) {
    && Shrunk(pre, post)
    && SameExcept(pre.subscriptions, post.subscriptions, {key})
    && SameExcept(pre.consumers, post.consumers, {key.consumerName})
    && (key in wanted ==> post.consumers == pre.consumers)
    && (outcome.Pass? && key in post.subscriptions ==> key in wanted && HasConsumerIfValid(post, key))
    && (key in wanted && HasConsumer(pre, key) ==> post == pre)
    && (key in wanted && key in pre.subscriptions && !pre.subscriptions[key].valid ==> post == pre)
  }

  lemma KeyUntouched(key: Identifier, wanted: set<Identifier>, s: State, outcome: Outcome)
    requires outcome.Pass? ==> key in wanted && HasConsumerIfValid(s, key)
    ensures CleanKeyStep(key, wanted, s, outcome, s)
  {
  }

  /** The consumer of the key was missing; a deletion that failed is no reason to forget the key. */
  lemma KeyWithoutConsumer(key: Identifier, wanted: set<Identifier>, pre: State, outcome: Outcome, post: State)
    requires key in wanted ==> key in pre.subscriptions && pre.subscriptions[key].valid
    requires key.consumerName !in pre.consumers
    requires post == pre.(writes := post.writes, subscriptions := if outcome.Pass? then pre.subscriptions - {key} else pre.subscriptions)
    ensures Shrunk(pre, post) && CleanKeyStep(key, wanted, pre, outcome, post)
  {
  }

  lemma UnwantedKeyDeleted(key: Identifier, wanted: set<Identifier>, pre: State, outcome: Outcome, post: State)
    requires key !in wanted && DeleteKeyStep(key, pre, outcome, post)
    ensures CleanKeyStep(key, wanted, pre, outcome, post)
  {
  }

  lemma KeysWellFormed(s: State)
    requires Invariant(s)
    ensures (forall k :: k in s.subscriptions ==> k.WellFormed()) && NamesAgree(s.consumers)
  {
  }

  lemma NothingLeftToClean(prefix: string, subjects: seq<string>, pre: State, post: State)
    requires var own, wanted := Own(pre, prefix), Wanted(prefix, subjects);
             && Cleaning(pre, post, own, wanted)
             && (forall k :: k in post.subscriptions && k in own ==> k in wanted && HasConsumerIfValid(post, k))
             && ((forall k :: k in own ==> k in wanted && HasConsumer(pre, k)) ==> post == pre)
    ensures CleanStep(prefix, subjects, pre, Pass, post)
  {
    hide Associated, Wanted, Ordinary;
  }

  lemma NothingCleaned(s: State, own: set<Identifier>, wanted: set<Identifier>)
    ensures Cleaning(s, s, own, wanted)
  {
  }

  lemma OneKeyCleaned(key: Identifier, wanted: set<Identifier>, pre: State, outcome: Outcome, post: State)
    requires CleanKeyStep(key, wanted, pre, outcome, post)
    ensures SameExcept(pre.subscriptions, post.subscriptions, {key})
    ensures key in wanted && HasConsumer(pre, key) ==> post == pre
  {
  }

  lemma WantedWellFormed(prefix: string, subjects: seq<string>)
    ensures forall k :: k in Wanted(prefix, subjects) ==> k.WellFormed()
  {
  }

  lemma CleaningExtends(pre: State, mid: State, post: State, own: set<Identifier>, wanted: set<Identifier>, key: Identifier, outcome: Outcome)
    requires Cleaning(pre, mid, own, wanted) && forall k :: k in own || k in wanted ==> k.WellFormed()
    requires key in own && CleanKeyStep(key, wanted, mid, outcome, post)
    ensures Cleaning(pre, post, own, wanted)
  {
    hide SubjectIn, Ordinary, Shrunk, HasConsumerIfValid;
    KeyCleaningShrinks(key, wanted, mid, outcome, post);
    ShrunkTransitive(pre, mid, post);
    if key !in wanted {
      assert key.consumerName in Names(own - wanted);
    }
    forall k | k in wanted && HasConsumer(pre, k)
      ensures HasConsumer(post, k)
    {
      ConsumerStays(key, wanted, mid, outcome, post, k);
    }
    forall k | k in wanted && k in pre.subscriptions && !pre.subscriptions[k].valid
      ensures k in post.subscriptions
    {
      InvalidStays(key, wanted, pre, mid, outcome, post, k);
    }
  }

  lemma InvalidStays(key: Identifier, wanted: set<Identifier>, pre: State, mid: State, outcome: Outcome, post: State, k: Identifier)
    requires Shrunk(pre, mid) && CleanKeyStep(key, wanted, mid, outcome, post)
    requires k in wanted && k in pre.subscriptions && k in mid.subscriptions && !pre.subscriptions[k].valid
    ensures k in post.subscriptions
  {
    hide SubjectIn, Ordinary, HasConsumerIfValid, HasConsumer;
  }

  lemma KeyCleaningShrinks(key: Identifier, wanted: set<Identifier>, pre: State, outcome: Outcome, post: State)
    requires CleanKeyStep(key, wanted, pre, outcome, post)
    ensures Shrunk(pre, post)
  {
  }

  lemma ConsumerStays(key: Identifier, wanted: set<Identifier>, pre: State, outcome: Outcome, post: State, k: Identifier)
    requires CleanKeyStep(key, wanted, pre, outcome, post)
    requires k in wanted && k.WellFormed() && key.WellFormed() && HasConsumer(pre, k)
    ensures HasConsumer(post, k)
  {
    hide SubjectIn, Ordinary, Shrunk, HasConsumerIfValid;
  }

  /** The loop of syncSubscriptionEventTypes has dealt with every key of the subscription but the pending ones. */
  ghost predicate CleanedSoFar(s: State, own: set<Identifier>, wanted: set<Identifier>, pending: set<Identifier>) {
    forall k :: k in s.subscriptions && k in own && k !in pending ==> k in wanted && HasConsumerIfValid(s, k)
  }

  lemma CleanedSoFarExtends(mid: State, post: State, own: set<Identifier>, wanted: set<Identifier>, pending: set<Identifier>, key: Identifier)
    requires (forall k :: k in own ==> k.WellFormed()) && key in own
    requires CleanedSoFar(mid, own, wanted, pending) && CleanKeyStep(key, wanted, mid, Pass, post)
    ensures CleanedSoFar(post, own, wanted, pending - {key})
  {
    hide Ordinary, SubjectIn;
  }

  ghost predicate BoundIfValid(s: State, k: Identifier) {
    k in s.subscriptions && Ordinary(k) && s.subscriptions[k].valid ==> BoundToCurrent(s, k)
  }

  ghost predicate FiltersOn(s: State, k: Identifier, subject: string) {
    k.consumerName in s.consumers ==> s.consumers[k.consumerName].filterSubject == subject
  }

  /** One event type of syncConsumerAndSubscription. */
  ghost predicate AttachStep(key: Identifier, max: int, pre: State, outcome: Outcome, post: State) {
    && post.sinks == pre.sinks
    && SameExcept(pre.subscriptions, post.subscriptions, {key})
    && SameExcept(pre.consumers, post.consumers, {key.consumerName})
    && Retained(pre.consumers, post.consumers, key.consumerName)
    && HasConsumerIfValid(post, key)
    && (outcome.Pass? && Ordinary(key) ==> Attached(post, key, max))
    && (Attached(pre, key, max) ==> post == pre)
  }

  /** The Unsubscribe call of deleteSubscriptionFromJetStream and deleteSubscriptionFromJetStreamOnly. */
  ghost predicate DetachKeyStep(key: Identifier, pre: State, outcome: Outcome, post: State)
    requires key in pre.subscriptions
  {
    && Shrunk(pre, post)
    && SameExcept(pre.subscriptions, post.subscriptions, {key}) && key in post.subscriptions
    && SameExcept(pre.consumers, post.consumers, {key.consumerName})
    && OnlyDetached(pre.consumers, post.consumers, key.consumerName)
    && (outcome.Pass? && pre.subscriptions[key].valid ==> Detached(post, key.consumerName))
  }

  /** The key has no valid subscriber, and its consumer takes none: another client is attached to it. */
  ghost predicate Blocked(s: State, k: Identifier) {
    && k.consumerName in s.consumers && s.consumers[k.consumerName].pushBound
    && !(k in s.subscriptions && s.subscriptions[k].valid)
  }

  /** The key is blocked and not stored at all, which the caller is told apart. */
  ghost predicate Missing(s: State, k: Identifier) {
    Blocked(s, k) && k !in s.subscriptions
  }

  ghost predicate SomeBlocked(s: State, wanted: set<Identifier>) {
    exists k :: k in wanted && Blocked(s, k)
  }

  /** Of the keys for the subjects, the first that is blocked is missing. */
  ghost predicate MissingFirst(s: State, prefix: string, subjects: seq<string>) {
    exists i :: 0 <= i < |subjects| && MissingAt(s, prefix, subjects, i)
  }

  ghost predicate MissingAt(s: State, prefix: string, subjects: seq<string>, i: nat)
    requires i < |subjects|
  {
    Missing(s, IdentifierFor(prefix, subjects[i])) && forall j :: 0 <= j < i ==> !Blocked(s, IdentifierFor(prefix, subjects[j]))
  }

  ghost predicate SameBlocks(s: State, t: State, wanted: set<Identifier>) {
    forall k :: k in wanted ==> (Blocked(t, k) <==> Blocked(s, k)) && (Missing(t, k) <==> Missing(s, k))
  }

  /** How one event type of syncConsumerAndSubscription ends when `faults` of its calls fail. */
  ghost predicate AttachEnds(key: Identifier, pre: State, outcome: Outcome, faults: nat, post: State) {
    && faults <= 1
    && (outcome.Pass? <==> faults == 0 && !Blocked(pre, key))
    && (outcome.Pass? ==> !Blocked(post, key))
    && (outcome.Fail? && faults == 0 ==> Blocked(post, key))
    && (outcome == Fail(MissingSubscription) <==> faults == 0 && Missing(pre, key))
  }

  /** How a run for all wanted keys ends: it passes if and only if no call fails and no key is blocked, and
      without a failing call a blocked key stays blocked.  Missing keys are told apart. */
  ghost predicate AttachAllEnds(prefix: string, subjects: seq<string>, pre: State, outcome: Outcome, faults: nat, post: State) {
    && faults <= 1
    && (outcome.Pass? <==> faults == 0 && !SomeBlocked(pre, Wanted(prefix, subjects)))
    && (outcome.Fail? && faults == 0 ==> SomeBlocked(post, Wanted(prefix, subjects)))
    && (outcome == Fail(MissingSubscription) <==> faults == 0 && MissingFirst(pre, prefix, subjects))
  }

  ghost predicate SyncEnds(config: Config, sub: Subscription, pre: State, outcome: Outcome, faults: nat, post: State) {
    AttachAllEnds(KeyPrefix(sub), StatusSubjects(config, sub), pre, outcome, faults, post)
  }

  /** The first `n` keys were not blocked, and every wanted key is blocked if it was. */
  ghost predicate EndsProgress(prefix: string, subjects: seq<string>, n: nat, pre: State, now: State)
    requires n <= |subjects|
  {
    && (forall j :: 0 <= j < n ==> !Blocked(pre, IdentifierFor(prefix, subjects[j])))
    && SameBlocks(pre, now, Wanted(prefix, subjects))
  }

  lemma EndsProgressStarts(prefix: string, subjects: seq<string>, s: State)
    ensures EndsProgress(prefix, subjects, 0, s, s)
  {
  }

  lemma PassHasNoFaults(key: Identifier, pre: State, outcome: Outcome, faults: nat, post: State)
    requires AttachEnds(key, pre, outcome, faults, post)
    ensures outcome.Pass? ==> faults == 0
  {
  }

  lemma EndsProgressSteps(prefix: string, subjects: seq<string>, n: nat, max: int, pre: State, mid: State, outcome: Outcome, faults: nat, post: State)
    requires n < |subjects| && EndsProgress(prefix, subjects, n, pre, mid)
    requires var key := IdentifierFor(prefix, subjects[n]);
             AttachStep(key, max, mid, outcome, post) && AttachEnds(key, mid, outcome, faults, post)
    ensures outcome.Pass? ==> EndsProgress(prefix, subjects, n + 1, pre, post)
    ensures outcome.Fail? ==> AttachAllEnds(prefix, subjects, pre, outcome, faults, post)
  {
    hide IdentifierFor, Wanted, AttachStep, Blocked, Missing, MissingFirst;
    var wanted, key := Wanted(prefix, subjects), IdentifierFor(prefix, subjects[n]);
    WantedMember(prefix, subjects, n);
    MissingIsBlocked(pre, key);
    MissingIsBlocked(mid, key);
    MissingIsBlocked(post, key);
    forall k | k in wanted && k != key
      ensures (Blocked(post, k) <==> Blocked(mid, k)) && (Missing(post, k) <==> Missing(mid, k))
    {
      WantedNamesDiffer(prefix, subjects, k, key);
      OtherStaysBlocked(key, k, max, mid, outcome, post);
    }
    if Blocked(pre, key) {
      FirstBlocked(pre, prefix, subjects, n);
    }
    if MissingFirst(pre, prefix, subjects) {
      MissingFirstIsBlocked(pre, prefix, subjects, n);
    }
  }

  lemma MissingIsBlocked(s: State, k: Identifier)
    ensures Missing(s, k) ==> Blocked(s, k)
  {
  }

  /** If the first `n` keys are not blocked but the next one is, that is the one that counts. */
  lemma FirstBlocked(s: State, prefix: string, subjects: seq<string>, n: nat)
    requires n < |subjects| && Blocked(s, IdentifierFor(prefix, subjects[n]))
    requires forall j :: 0 <= j < n ==> !Blocked(s, IdentifierFor(prefix, subjects[j]))
    ensures MissingFirst(s, prefix, subjects) <==> Missing(s, IdentifierFor(prefix, subjects[n]))
  {
    hide IdentifierFor, Blocked;
    if MissingFirst(s, prefix, subjects) {
      var i :| 0 <= i < |subjects| && MissingAt(s, prefix, subjects, i);
      assert i == n;
    }
    if Missing(s, IdentifierFor(prefix, subjects[n])) {
      assert MissingAt(s, prefix, subjects, n);
    }
  }

  lemma MissingFirstIsBlocked(s: State, prefix: string, subjects: seq<string>, n: nat)
    requires n < |subjects| && MissingFirst(s, prefix, subjects)
    ensures SomeBlocked(s, Wanted(prefix, subjects))
  {
    hide IdentifierFor, Blocked, Wanted;
    var i :| 0 <= i < |subjects| && MissingAt(s, prefix, subjects, i);
    WantedMember(prefix, subjects, i);
  }

  lemma OtherStaysBlocked(key: Identifier, k: Identifier, max: int, pre: State, outcome: Outcome, post: State)
    requires AttachStep(key, max, pre, outcome, post) && k.consumerName != key.consumerName
    ensures (Blocked(post, k) <==> Blocked(pre, k)) && (Missing(post, k) <==> Missing(pre, k))
  {
    hide Attached, HasConsumerIfValid, Retained;
  }

  lemma EndsProgressEnds(prefix: string, subjects: seq<string>, pre: State, post: State)
    requires EndsProgress(prefix, subjects, |subjects|, pre, post)
    ensures AttachAllEnds(prefix, subjects, pre, Pass, 0, post)
  {
    hide Blocked, IdentifierFor, Missing;
    if MissingFirst(pre, prefix, subjects) {
      var i :| 0 <= i < |subjects| && MissingAt(pre, prefix, subjects, i);
      MissingIsBlocked(pre, IdentifierFor(prefix, subjects[i]));
    }
  }

  lemma SameBlocked(s: State, t: State, wanted: set<Identifier>)
    requires t.subscriptions == s.subscriptions && t.consumers == s.consumers
    ensures SameBlocks(s, t, wanted)
  {
  }

  lemma SameBlocksCount(prefix: string, subjects: seq<string>, s: State, t: State, outcome: Outcome, faults: nat, post: State)
    requires SameBlocks(s, t, Wanted(prefix, subjects)) && AttachAllEnds(prefix, subjects, t, outcome, faults, post)
    ensures AttachAllEnds(prefix, subjects, s, outcome, faults, post)
  {
    hide Blocked, Missing, IdentifierFor, Wanted;
    forall i | 0 <= i < |subjects|
      ensures IdentifierFor(prefix, subjects[i]) in Wanted(prefix, subjects)
    {
      WantedMember(prefix, subjects, i);
    }
    assert forall i :: 0 <= i < |subjects| ==> (MissingAt(s, prefix, subjects, i) <==> MissingAt(t, prefix, subjects, i));
  }

  lemma SameBlocksTransitive(a: State, b: State, c: State, wanted: set<Identifier>)
    requires SameBlocks(a, b, wanted) && SameBlocks(b, c, wanted)
    ensures SameBlocks(a, c, wanted)
  {
    hide Blocked, Missing;
  }

  /** Cleaning up blocks and frees no wanted key. */
  lemma CleaningKeepsBlocked(own: set<Identifier>, wanted: set<Identifier>, pre: State, post: State)
    requires Cleaning(pre, post, own, wanted) && forall k :: k in own || k in wanted ==> k.WellFormed()
    ensures SameBlocks(pre, post, wanted)
  {
    forall k | k in wanted
      ensures (Blocked(post, k) <==> Blocked(pre, k)) && (Missing(post, k) <==> Missing(pre, k))
    {
      assert k.consumerName !in Names(own - wanted);
    }
  }

  lemma AttachingKeepsInvariant(sub: Subscription, subject: string, pre: State, post: State)
    requires sub.NamesValid() && KeyPrefix(sub) in pre.sinks && post.sinks == pre.sinks
    requires var key := NewIdentifier(sub, subject);
             && SameExcept(pre.subscriptions, post.subscriptions, {key})
             && SameExcept(pre.consumers, post.consumers, {key.consumerName})
             && FiltersOn(post, key, subject) && BoundIfValid(post, key)
    requires Invariant(pre)
    ensures Invariant(post)
  {
    hide SubjectIn, LastIndex;
    var key := NewIdentifier(sub, subject);
    SubjectRoundTrip(sub, subject);
    NamespacedNameRoundTrip(KeyPrefix(sub), subject);
  }

  /** Attaching one consumer leaves every other subscriber on its consumer. */
  lemma AttachedIsRenewed(key: Identifier, pre: State, post: State)
    requires key.WellFormed() && forall k :: k in pre.subscriptions ==> k.WellFormed()
    requires SameExcept(pre.subscriptions, post.subscriptions, {key}) && SameExcept(pre.consumers, post.consumers, {key.consumerName})
    requires Retained(pre.consumers, post.consumers, key.consumerName)
    requires BoundIfValid(post, key) && FiltersOn(post, key, SubjectIn(key.namespacedSubjectName))
    ensures Renewed(pre, post)
  {
    hide SubjectIn, Ordinary;
  }

  /** syncConsumerAndSubscription. */
  ghost predicate AttachAllStep(wanted: set<Identifier>, max: int, pre: State, outcome: Outcome, post: State) {
    && Attaching(wanted, pre, post)
    && (outcome.Pass? ==> forall k :: k in wanted && Ordinary(k) ==> Attached(post, k, max))
    && ((forall k :: k in wanted ==> Attached(pre, k, max)) ==> post == pre)
  }

  ghost predicate Attaching(wanted: set<Identifier>, pre: State, post: State) {
    && post.sinks == pre.sinks
    && SameExcept(pre.subscriptions, post.subscriptions, wanted)
    && SameExcept(pre.consumers, post.consumers, Names(wanted))
    && (forall name :: name in Names(wanted) ==> Retained(pre.consumers, post.consumers, name))
    && Renewed(pre, post)
  }

  /** After the first `n` event types of syncConsumerAndSubscription. */
  ghost predicate AttachProgress(prefix: string, subjects: seq<string>, n: nat, max: int, pre: State, now: State)
    requires n <= |subjects|
  {
    var wanted := Wanted(prefix, subjects);
    && Attaching(wanted, pre, now)
    && (forall k :: k in wanted ==> HasConsumerIfValid(now, k))
    && (forall j :: 0 <= j < n ==> AttachedIfOrdinary(now, IdentifierFor(prefix, subjects[j]), max))
    && ((forall k :: k in wanted ==> Attached(pre, k, max)) ==> now == pre)
  }

  ghost predicate AttachedIfOrdinary(s: State, k: Identifier, max: int) {
    Ordinary(k) ==> Attached(s, k, max)
  }

  lemma AttachProgressStarts(prefix: string, subjects: seq<string>, max: int, s: State)
    requires forall k :: k in Wanted(prefix, subjects) ==> HasConsumerIfValid(s, k)
    ensures AttachProgress(prefix, subjects, 0, max, s, s)
  {
    hide HasConsumerIfValid, Wanted;
    NothingShrunk(s);
    ShrunkIsRenewed(s, s);
    hide Renewed;
  }

  lemma AttachProgressSteps(prefix: string, subjects: seq<string>, n: nat, max: int, pre: State, mid: State, outcome: Outcome, post: State)
    requires n < |subjects| && AttachProgress(prefix, subjects, n, max, pre, mid)
    requires AttachStep(IdentifierFor(prefix, subjects[n]), max, mid, outcome, post) && Renewed(mid, post)
    ensures outcome.Pass? ==> AttachProgress(prefix, subjects, n + 1, max, pre, post)
    ensures outcome.Fail? ==> AttachAllStep(Wanted(prefix, subjects), max, pre, outcome, post)
  {
    hide Ordinary, Attached, HasConsumerIfValid, Attaching, Wanted, IdentifierFor, Retained, SameExcept, Names, Renewed;
    var wanted, key := Wanted(prefix, subjects), IdentifierFor(prefix, subjects[n]);
    WantedMember(prefix, subjects, n);
    AttachingExtends(wanted, key, max, pre, mid, outcome, post);
    forall k | k in wanted && k != key
      ensures Attached(mid, k, max) ==> Attached(post, k, max)
      ensures HasConsumerIfValid(mid, k) ==> HasConsumerIfValid(post, k)
    {
      WantedNamesDiffer(prefix, subjects, k, key);
      AttachingOneKeepsOthers(key, k, max, mid, outcome, post);
    }
    forall j | 0 <= j < n && outcome.Pass?
      ensures AttachedIfOrdinary(post, IdentifierFor(prefix, subjects[j]), max)
    {
      WantedMember(prefix, subjects, j);
      assert AttachedIfOrdinary(mid, IdentifierFor(prefix, subjects[j]), max);
    }
  }

  lemma WantedNamesDiffer(prefix: string, subjects: seq<string>, a: Identifier, b: Identifier)
    requires a in Wanted(prefix, subjects) && b in Wanted(prefix, subjects) && a != b
    ensures a.consumerName != b.consumerName
  {
  }

  lemma AttachProgressGives(prefix: string, subjects: seq<string>, n: nat, max: int, pre: State, now: State)
    requires n < |subjects| && AttachProgress(prefix, subjects, n, max, pre, now)
    ensures HasConsumerIfValid(now, IdentifierFor(prefix, subjects[n]))
  {
    WantedMember(prefix, subjects, n);
  }

  lemma AttachProgressEnds(prefix: string, subjects: seq<string>, max: int, pre: State, post: State)
    requires AttachProgress(prefix, subjects, |subjects|, max, pre, post)
    ensures AttachAllStep(Wanted(prefix, subjects), max, pre, Pass, post)
  {
    hide IdentifierFor, Ordinary, Attached, Attaching, Renewed;
  }

  lemma AttachingExtends(wanted: set<Identifier>, key: Identifier, max: int, pre: State, mid: State, outcome: Outcome, post: State)
    requires key in wanted && key.consumerName in Names(wanted)
    requires Attaching(wanted, pre, mid) && AttachStep(key, max, mid, outcome, post) && Renewed(mid, post)
    ensures Attaching(wanted, pre, post)
  {
    hide Ordinary, Attached, HasConsumerIfValid, Names, Renewed;
    RenewedTransitive(pre, mid, post);
  }

  lemma AttachingOneKeepsOthers(key: Identifier, k: Identifier, max: int, pre: State, outcome: Outcome, post: State)
    requires AttachStep(key, max, pre, outcome, post) && k.consumerName != key.consumerName
    ensures Attached(pre, k, max) ==> Attached(post, k, max)
    ensures HasConsumerIfValid(pre, k) ==> HasConsumerIfValid(post, k)
  {
    hide Ordinary, SubjectIn;
  }

  /** deleteSubscriptionFromJetStreamOnly. */
  ghost predicate PauseKeyStep(key: Identifier, pre: State, outcome: Outcome, post: State)
    requires key in pre.subscriptions
  {
    && Shrunk(pre, post)
    && SameExcept(pre.subscriptions, post.subscriptions, {key})
    && (key in post.subscriptions <==> outcome.Fail?)
    && SameExcept(pre.consumers, post.consumers, {key.consumerName})
    && OnlyDetached(pre.consumers, post.consumers, key.consumerName)
    && (outcome.Pass? && pre.subscriptions[key].valid ==> Detached(post, key.consumerName))
  }

  /** deleteSubscriptionFromJetStream. */
  ghost predicate DeleteKeyStep(key: Identifier, pre: State, outcome: Outcome, post: State) {
    && Shrunk(pre, post)
    && SameExcept(pre.subscriptions, post.subscriptions, {key})
    && SameExcept(pre.consumers, post.consumers, {key.consumerName})
    && (key in post.subscriptions <==> outcome.Fail?)
    && (outcome.Pass? ==> key.consumerName !in post.consumers)
  }

  /** SyncSubscription. */
  ghost predicate SyncStep(config: Config, sub: Subscription, pre: State, outcome: Outcome, post: State) {
    var prefix, subjects := KeyPrefix(sub), StatusSubjects(config, sub);
    && Isolated(pre, post, prefix)
    && (forall name :: name !in Names(Own(pre, prefix) - Wanted(prefix, subjects)) ==> Retained(pre.consumers, post.consumers, name))
    && (forall k :: k in post.subscriptions ==> k in pre.subscriptions || k in Wanted(prefix, subjects))
    && (post.sinks == pre.sinks || post.sinks == pre.sinks[prefix := sub.sink])
    && (forall k :: k in post.subscriptions && k !in pre.subscriptions ==> prefix in post.sinks)
    && Renewed(pre, post)
    && (ConvergedFor(pre, config, sub) ==> post == pre)
    && (outcome.Pass? && SlashFree(subjects) ==> ConvergedFor(post, config, sub))
  }

  /** Everything filed under a subscription's own or wanted identifiers is below its key prefix. */
  lemma OwnAndWantedBelow(s: State, prefix: string, subjects: seq<string>)
    ensures forall k :: k in Own(s, prefix) || k in Wanted(prefix, subjects) ==>
      k.WellFormed() && Below(k.namespacedSubjectName, prefix) && ConsumerBelow(k.consumerName, prefix)
  {
    hide LastIndex;
    forall k | k in Own(s, prefix)
      ensures Below(k.namespacedSubjectName, prefix)
    {
      AssociatedShape(k, prefix);
    }
  }

  lemma NothingToClean(s: State, prefix: string, subjects: seq<string>, sink: string, max: int)
    requires Converged(s, prefix, subjects, sink, max)
    ensures forall k :: k in Own(s, prefix) ==> k in Wanted(prefix, subjects) && HasConsumer(s, k)
  {
    hide SubjectIn, LastIndex;
  }

  lemma StoringSinkKeepsInvariant(pre: State, post: State)
    requires Invariant(pre) && post == pre.(sinks := post.sinks) && pre.sinks.Keys <= post.sinks.Keys
    ensures Invariant(post)
  {
    hide SubjectIn, LastIndex;
  }

  lemma ShrunkKeepsSinks(pre: State, post: State)
    requires Shrunk(pre, post)
    ensures post.sinks == pre.sinks
  {
  }

  lemma StoringSinkIsRenewed(s: State, sinks: map<string, string>)
    ensures Renewed(s, s.(sinks := sinks))
  {
    hide SubjectIn, Ordinary, Identifier.WellFormed;
  }

  /** After the cleaning, no valid subscriber of the subscription lacks its consumer. */
  lemma WantedConsumersExist(config: Config, sub: Subscription, mid: State, post: State)
    requires sub.NamesValid()
    requires forall k :: k in Own(mid, KeyPrefix(sub)) ==> HasConsumerIfValid(mid, k)
    requires post.subscriptions == mid.subscriptions && post.consumers == mid.consumers
    ensures forall k :: k in Wanted(KeyPrefix(sub), StatusSubjects(config, sub)) ==> HasConsumerIfValid(post, k)
  {
    hide SubjectIn, LastIndex;
    var subjects := StatusSubjects(config, sub);
    forall k | k in Wanted(KeyPrefix(sub), subjects)
      ensures HasConsumerIfValid(post, k)
    {
      var i :| 0 <= i < |subjects| && k == IdentifierFor(KeyPrefix(sub), subjects[i]);
      OwnIsOrdinary(sub, mid, subjects[i]);
    }
  }

  /** A run that ends while dropping subscriptions. */
  lemma SyncAborted(config: Config, sub: Subscription, pre: State, outcome: Outcome, post: State)
    requires sub.NamesValid() && outcome.Fail?
    requires CleanStep(KeyPrefix(sub), StatusSubjects(config, sub), pre, outcome, post)
    ensures SyncStep(config, sub, pre, outcome, post)
  {
    hide SubjectIn, LastIndex, Wanted, Own, Names, KeyPrefix, StatusSubjects, Converged, Renewed, Isolated, Retained, SameExcept;
    var prefix, subjects := KeyPrefix(sub), StatusSubjects(config, sub);
    OwnAndWantedBelow(pre, prefix, subjects);
    CleaningIsIsolated(prefix, Own(pre, prefix), Wanted(prefix, subjects), pre, post);
    ShrunkIsRenewed(pre, post);
    if ConvergedFor(pre, config, sub) {
      NothingToClean(pre, prefix, subjects, sub.sink, sub.MaxInFlight(config.defaultMaxInFlight));
    }
  }

  lemma CleaningIsIsolated(prefix: string, own: set<Identifier>, wanted: set<Identifier>, pre: State, post: State)
    requires forall k :: k in own || k in wanted ==> Below(k.namespacedSubjectName, prefix) && ConsumerBelow(k.consumerName, prefix)
    requires Cleaning(pre, post, own, wanted)
    ensures Isolated(pre, post, prefix)
    ensures forall name :: name !in Names(own - wanted) ==> Retained(pre.consumers, post.consumers, name)
  {
    hide Below, ConsumerBelow;
  }

  /** A run that gets as far as attaching consumers, after the sink was stored. */
  lemma SyncComposed(config: Config, sub: Subscription, pre: State, mid: State, outcome: Outcome, post: State)
    requires sub.NamesValid()
    requires var prefix, subjects := KeyPrefix(sub), StatusSubjects(config, sub);
             && CleanStep(prefix, subjects, pre, Pass, mid)
             && AttachAllStep(Wanted(prefix, subjects), sub.MaxInFlight(config.defaultMaxInFlight),
                              mid.(sinks := mid.sinks[prefix := sub.sink]), outcome, post)
    ensures SyncStep(config, sub, pre, outcome, post)
  {
    var prefix, subjects := KeyPrefix(sub), StatusSubjects(config, sub);
    var max := sub.MaxInFlight(config.defaultMaxInFlight);
    hide SubjectIn, LastIndex, Own, Wanted, KeyPrefix, Isolated, Retained, Renewed, Shrunk, Identifier.WellFormed, Attached;
    SyncComposedFrame(config, sub, pre, mid, outcome, post);
    ShrunkIsRenewed(pre, mid);
    ShrunkKeepsSinks(pre, mid);
    StoringSinkIsRenewed(mid, mid.sinks[prefix := sub.sink]);
    RenewedTransitive(pre, mid, mid.(sinks := mid.sinks[prefix := sub.sink]));
    RenewedTransitive(pre, mid.(sinks := mid.sinks[prefix := sub.sink]), post);
    if outcome.Pass? && SlashFree(subjects) {
      forall s | s in subjects
        ensures Ordinary(IdentifierFor(prefix, s))
      {
        OwnIsOrdinary(sub, post, s);
      }
      SyncConverges(prefix, subjects, max, mid, outcome, post);
      assert post.sinks == mid.sinks[prefix := sub.sink];
      assert ConvergedFor(post, config, sub);
    }
    if ConvergedFor(pre, config, sub) {
      NothingToClean(pre, prefix, subjects, sub.sink, max);
      assert mid == pre;
      assert mid.sinks[prefix := sub.sink] == mid.sinks;
    }
  }

  lemma SyncConverges(prefix: string, subjects: seq<string>, max: int, mid: State, outcome: Outcome, post: State)
    requires outcome.Pass? && SlashFree(subjects)
    requires forall k :: k in Own(mid, prefix) ==> k in Wanted(prefix, subjects)
    requires SameExcept(mid.subscriptions, post.subscriptions, Wanted(prefix, subjects))
    requires forall k :: k in Wanted(prefix, subjects) && Ordinary(k) ==> Attached(post, k, max)
    requires forall s :: s in subjects ==> Ordinary(IdentifierFor(prefix, s))
    ensures Own(post, prefix) == Wanted(prefix, subjects)
    ensures forall k :: k in Wanted(prefix, subjects) ==> Attached(post, k, max)
  {
    hide SubjectIn, LastIndex;
    forall k | k in Wanted(prefix, subjects)
      ensures Attached(post, k, max) && k in Own(post, prefix)
    {
      var i :| 0 <= i < |subjects| && k == IdentifierFor(prefix, subjects[i]);
      NamespacedNameRoundTrip(prefix, subjects[i]);
    }
  }

  lemma SyncComposedFrame(config: Config, sub: Subscription, pre: State, mid: State, outcome: Outcome, post: State)
    requires sub.NamesValid()
    requires var prefix, subjects := KeyPrefix(sub), StatusSubjects(config, sub);
             && CleanStep(prefix, subjects, pre, Pass, mid)
             && Attaching(Wanted(prefix, subjects), mid.(sinks := mid.sinks[prefix := sub.sink]), post)
    ensures var prefix, subjects := KeyPrefix(sub), StatusSubjects(config, sub);
            && Isolated(pre, post, prefix)
            && (forall name :: name !in Names(Own(pre, prefix) - Wanted(prefix, subjects)) ==> Retained(pre.consumers, post.consumers, name))
  {
    hide Wanted, Own, KeyPrefix, Isolated, Retained, Names, HasConsumerIfValid, HasConsumer, Shrunk, SameExcept, Renewed;
    var prefix, subjects := KeyPrefix(sub), StatusSubjects(config, sub);
    OwnAndWantedBelow(pre, prefix, subjects);
    ComposedIsolated(prefix, Own(pre, prefix), Wanted(prefix, subjects), pre, mid, sub.sink, post);
    ComposedRetains(prefix, Own(pre, prefix), Wanted(prefix, subjects), pre, mid, sub.sink, post);
  }

  lemma ComposedIsolated(prefix: string, own: set<Identifier>, wanted: set<Identifier>, pre: State, mid: State, sink: string, post: State)
    requires forall k :: k in own || k in wanted ==> Below(k.namespacedSubjectName, prefix) && ConsumerBelow(k.consumerName, prefix)
    requires Cleaning(pre, mid, own, wanted) && Attaching(wanted, mid.(sinks := mid.sinks[prefix := sink]), post)
    ensures Isolated(pre, post, prefix)
  {
    hide SubjectIn, LastIndex, Below, ConsumerBelow, Retained, Renewed;
  }

  lemma ComposedRetains(prefix: string, own: set<Identifier>, wanted: set<Identifier>, pre: State, mid: State, sink: string, post: State)
    requires Cleaning(pre, mid, own, wanted) && Attaching(wanted, mid.(sinks := mid.sinks[prefix := sink]), post)
    ensures forall name :: name !in Names(own - wanted) ==> Retained(pre.consumers, post.consumers, name)
  {
    hide Renewed;
  }

  /** A run of SyncSubscription keeps the invariant, whether it succeeds or fails. */
  lemma SyncKeepsInvariant(config: Config, sub: Subscription, pre: State, outcome: Outcome, post: State)
    requires sub.NamesValid() && Invariant(pre) && SyncStep(config, sub, pre, outcome, post)
    ensures Invariant(post)
  {
    hide SubjectIn, LastIndex, Isolated, Retained, ConvergedFor, Own, Names, KeyPrefix, StatusSubjects;
    var prefix, subjects := KeyPrefix(sub), StatusSubjects(config, sub);
    forall k | k in post.subscriptions && k !in pre.subscriptions
      ensures k.WellFormed() && (Ordinary(k) ==> k.NamespacedName() == prefix)
    {
      var i :| 0 <= i < |subjects| && k == IdentifierFor(prefix, subjects[i]);
      WantedNamespacedName(sub, subjects[i]);
    }
    RenewedKeepsBindings(pre, post);
    hide Renewed;
  }

  lemma WantedNamespacedName(sub: Subscription, subject: string)
    requires sub.NamesValid()
    ensures var k := IdentifierFor(KeyPrefix(sub), subject);
            k.WellFormed() && (Ordinary(k) ==> k.NamespacedName() == KeyPrefix(sub))
  {
    hide SubjectIn, LastIndex;
    SubjectRoundTrip(sub, subject);
    NamespacedNameRoundTrip(KeyPrefix(sub), subject);
  }

  lemma RenewedKeepsBindings(pre: State, post: State)
    requires NamesAgree(pre.consumers) && (forall k :: k in pre.subscriptions ==> BoundIfValid(pre, k)) && Renewed(pre, post)
    ensures NamesAgree(post.consumers)
    ensures forall k :: k in post.subscriptions && k.WellFormed() ==> BoundIfValid(post, k)
  {
    hide SubjectIn, Ordinary;
  }

  /** The consumers that DeleteSubscription removes when it succeeds. */
  ghost function DeletedNames(config: Config, sub: Subscription, pre: State): set<ConsumerName> {
    Names(Own(pre, KeyPrefix(sub))) + Names(Wanted(KeyPrefix(sub), StatusSubjects(config, sub)))
  }

  /** DeleteSubscription: an aborted run has done part of what a successful run does. */
  ghost predicate DeleteStep(config: Config, sub: Subscription, pre: State, outcome: Outcome, post: State) {
    var prefix := KeyPrefix(sub);
    && Deleting(Own(pre, prefix), DeletedNames(config, sub, pre), pre, post.(sinks := pre.sinks))
    && (outcome.Fail? ==> post.sinks == pre.sinks)
    && (outcome.Pass? ==>
        && post.sinks == pre.sinks - {prefix}
        && Own(post, prefix) == {}
        && post.consumers.Keys !! DeletedNames(config, sub, pre))
  }

  ghost predicate Deleting(own: set<Identifier>, names: set<ConsumerName>, pre: State, post: State) {
    && Shrunk(pre, post)
    && SameExcept(pre.subscriptions, post.subscriptions, own)
    && SameExcept(pre.consumers, post.consumers, names)
    && (forall k :: k in own ==> k in post.subscriptions || k.consumerName !in post.consumers)
  }

  lemma DeletingExtends(own: set<Identifier>, names: set<ConsumerName>, key: Identifier, pre: State, mid: State, outcome: Outcome, post: State)
    requires key in own && key.consumerName in names
    requires Deleting(own, names, pre, mid) && DeleteKeyStep(key, mid, outcome, post)
    ensures Deleting(own, names, pre, post)
  {
    ShrunkTransitive(pre, mid, post);
  }

  lemma NothingDeleted(own: set<Identifier>, names: set<ConsumerName>, s: State)
    requires forall k :: k in own ==> k in s.subscriptions
    ensures Deleting(own, names, s, s)
  {
  }

  lemma NamesToDelete(config: Config, sub: Subscription, pre: State)
    ensures Names(Own(pre, KeyPrefix(sub))) <= DeletedNames(config, sub, pre)
  {
    hide Own, Wanted, KeyPrefix, StatusSubjects;
  }

  lemma SinksStay(own: set<Identifier>, names: set<ConsumerName>, pre: State, post: State)
    requires Deleting(own, names, pre, post)
    ensures post.sinks == pre.sinks
  {
  }

  /** The second loop of DeleteSubscription, after the first has dropped the keys of the subscription. */
  lemma ConsumersDeleted(config: Config, sub: Subscription, pre: State, mid: State, post: State)
    requires Deleting(Own(pre, KeyPrefix(sub)), DeletedNames(config, sub, pre), pre, mid) && Own(mid, KeyPrefix(sub)) == {}
    requires Shrunk(mid, post) && post.subscriptions == mid.subscriptions && post.consumers.Keys <= mid.consumers.Keys
    requires forall name :: name in mid.consumers && name !in Names(Wanted(KeyPrefix(sub), StatusSubjects(config, sub))) ==>
               name in post.consumers && post.consumers[name] == mid.consumers[name]
    ensures Deleting(Own(pre, KeyPrefix(sub)), DeletedNames(config, sub, pre), pre, post) && post.sinks == pre.sinks
    ensures Own(post, KeyPrefix(sub)) == {}
    ensures post.consumers.Keys !! Names(Own(pre, KeyPrefix(sub)))
  {
    hide KeyPrefix, Wanted, StatusSubjects, Associated, SubjectIn;
    ShrunkTransitive(pre, mid, post);
    forall k | k in Own(pre, KeyPrefix(sub))
      ensures k.consumerName !in post.consumers
    {
      assert k !in Own(mid, KeyPrefix(sub));
    }
  }

  lemma DeletionEnds(config: Config, sub: Subscription, pre: State, mid: State, post: State)
    requires var prefix, wanted := KeyPrefix(sub), Wanted(KeyPrefix(sub), StatusSubjects(config, sub));
             && Deleting(Own(pre, prefix), DeletedNames(config, sub, pre), pre, mid) && mid.sinks == pre.sinks && Own(mid, prefix) == {}
             && mid.consumers.Keys !! Names(Own(pre, prefix)) && mid.consumers.Keys !! Names(wanted)
             && post == mid.(sinks := mid.sinks - {prefix})
    ensures DeleteStep(config, sub, pre, Pass, post)
  {
    hide KeyPrefix, Wanted, StatusSubjects, Associated, SubjectIn, Names;
    assert post.(sinks := pre.sinks) == mid;
  }

  /** What a call of Unsubscribe may leave. */
  lemma KeyDetached(key: Identifier, pre: State, outcome: Outcome, post: State)
    requires key in pre.subscriptions && pre.subscriptions[key].valid
    requires post.sinks == pre.sinks && OnlyDetached(pre.consumers, post.consumers, key.consumerName)
    requires SameExcept(pre.consumers, post.consumers, {key.consumerName}) && (outcome.Pass? ==> Detached(post, key.consumerName))
    requires post.subscriptions
      == if outcome.Pass? then pre.subscriptions[key := pre.subscriptions[key].(valid := false)] else pre.subscriptions
    ensures DetachKeyStep(key, pre, outcome, post)
  {
  }

  /** What the deletion of the consumer may leave after that. */
  lemma DetachedKeyDeleted(key: Identifier, pre: State, mid: State, outcome: Outcome, post: State)
    requires key in pre.subscriptions && DetachKeyStep(key, pre, Pass, mid)
    requires post.sinks == mid.sinks && (post.consumers == mid.consumers - {key.consumerName} || (outcome.Fail? && post.consumers == mid.consumers))
    requires post.subscriptions == if outcome.Pass? then mid.subscriptions - {key} else mid.subscriptions
    ensures DeleteKeyStep(key, pre, outcome, post)
  {
  }

  lemma FewerConsumers(pre: State, post: State)
    requires post.sinks == pre.sinks && post.subscriptions == pre.subscriptions
    requires forall name :: name in post.consumers ==> name in pre.consumers && post.consumers[name] == pre.consumers[name]
    ensures Shrunk(pre, post)
  {
  }

  lemma NothingShrunk(s: State)
    ensures Shrunk(s, s)
  {
  }

  lemma WantedMember(prefix: string, subjects: seq<string>, i: nat)
    requires i < |subjects|
    ensures IdentifierFor(prefix, subjects[i]) in Wanted(prefix, subjects)
    ensures IdentifierFor(prefix, subjects[i]).consumerName in Names(Wanted(prefix, subjects))
  {
    assert IdentifierFor(prefix, subjects[i]) in Wanted(prefix, subjects);
  }

  lemma WantedNamesGone(prefix: string, subjects: seq<string>, consumers: Consumers)
    requires forall i :: 0 <= i < |subjects| ==> IdentifierFor(prefix, subjects[i]).consumerName !in consumers
    ensures consumers.Keys !! Names(Wanted(prefix, subjects))
  {
  }

  lemma DroppingSinkKeepsInvariant(pre: State, post: State, prefix: string)
    requires Invariant(pre) && Own(pre, prefix) == {} && post == pre.(sinks := pre.sinks - {prefix})
    ensures Invariant(post)
  {
    hide SubjectIn, LastIndex;
    forall k | k in post.subscriptions && Ordinary(k) && k.WellFormed()
      ensures k.NamespacedName() in post.sinks
    {
      assert k !in Own(pre, prefix);
    }
  }

  /** So does a run of DeleteSubscription. */
  lemma DeleteKeepsInvariant(config: Config, sub: Subscription, pre: State, outcome: Outcome, post: State)
    requires Invariant(pre) && DeleteStep(config, sub, pre, outcome, post)
    ensures Invariant(post)
  {
    hide Invariant, KeyPrefix, Wanted, Names, Shrunk, SubjectIn, Associated;
    var mid := post.(sinks := pre.sinks);
    ShrinkingKeepsInvariant(pre, mid);
    if outcome.Pass? {
      DroppingSinkKeepsInvariant(mid, post, KeyPrefix(sub));
    } else {
      assert post == mid;
    }
  }

  /** DeleteSubscriptionsOnly: detaches, but deletes no consumer. */
  ghost predicate PauseStep(sub: Subscription, pre: State, outcome: Outcome, post: State) {
    var own := Own(pre, KeyPrefix(sub));
    && Pausing(own, pre, post)
    && (outcome.Pass? ==>
        && Own(post, KeyPrefix(sub)) == {}
        && forall k :: k in own && pre.subscriptions[k].valid ==> Detached(post, k.consumerName))
  }

  ghost predicate Pausing(own: set<Identifier>, pre: State, post: State) {
    && Shrunk(pre, post)
    && SameExcept(pre.subscriptions, post.subscriptions, own)
    && SameExcept(pre.consumers, post.consumers, Names(own))
    && (forall name :: name in Names(own) ==> OnlyDetached(pre.consumers, post.consumers, name))
  }

  ghost predicate OnlyDetached(pre: Consumers, post: Consumers, name: ConsumerName) {
    && (name in pre <==> name in post)
    && (name in pre ==> post[name] == pre[name] || post[name] == pre[name].(pushBound := false))
  }

  ghost predicate Detached(s: State, name: ConsumerName) {
    name in s.consumers ==> !s.consumers[name].pushBound
  }

  /** The loop of DeleteSubscriptionsOnly has dropped every key of the subscription but the pending ones. */
  ghost predicate PausedSoFar(own: set<Identifier>, pending: set<Identifier>, pre: State, now: State) {
    && (forall k :: k in own && k in now.subscriptions ==> k in pending)
    && (forall k :: k in own && k !in pending && k in pre.subscriptions && pre.subscriptions[k].valid ==> Detached(now, k.consumerName))
  }

  lemma AllPaused(prefix: string, pre: State, post: State)
    requires Pausing(Own(pre, prefix), pre, post) && PausedSoFar(Own(pre, prefix), {}, pre, post)
    ensures Own(post, prefix) == {}
    ensures forall k :: k in Own(pre, prefix) && pre.subscriptions[k].valid ==> Detached(post, k.consumerName)
  {
    hide Associated;
  }

  lemma NothingPaused(own: set<Identifier>, s: State)
    ensures Pausing(own, s, s) && PausedSoFar(own, s.subscriptions.Keys, s, s)
  {
  }

  lemma PausedSoFarExtends(own: set<Identifier>, pending: set<Identifier>, key: Identifier, pre: State, mid: State, post: State)
    requires key in mid.subscriptions && key in pre.subscriptions && mid.subscriptions[key] == pre.subscriptions[key]
    requires PausedSoFar(own, pending, pre, mid) && PauseKeyStep(key, mid, Pass, post)
    ensures PausedSoFar(own, pending - {key}, pre, post)
    ensures SameExcept(mid.subscriptions, post.subscriptions, {key})
  {
    hide Shrunk;
    forall name | Detached(mid, name)
      ensures Detached(post, name)
    {
      DetachedStays(key, mid, Pass, post, name);
    }
  }

  lemma NotPaused(own: set<Identifier>, pending: set<Identifier>, key: Identifier, pre: State, now: State)
    requires PausedSoFar(own, pending, pre, now) && key !in own
    ensures PausedSoFar(own, pending - {key}, pre, now)
  {
  }

  lemma PausingExtends(own: set<Identifier>, key: Identifier, pre: State, mid: State, outcome: Outcome, post: State)
    requires key in own && key in mid.subscriptions
    requires Pausing(own, pre, mid) && PauseKeyStep(key, mid, outcome, post)
    ensures Pausing(own, pre, post)
  {
    hide Shrunk;
    ShrunkTransitive(pre, mid, post);
    assert key.consumerName in Names(own);
  }

  lemma DetachedStays(key: Identifier, pre: State, outcome: Outcome, post: State, name: ConsumerName)
    requires key in pre.subscriptions && PauseKeyStep(key, pre, outcome, post)
    requires Detached(pre, name)
    ensures Detached(post, name)
  {
    hide Shrunk;
  }

  /** The consumers that some listed subscription looks up once syncEventTypes has filled its status. */
  ghost predicate UsedBySome(config: Config, subs: seq<Subscription>, name: ConsumerName) {
    exists i :: 0 <= i < |subs| && UsedBy(config, subs[i], name)
  }

  ghost predicate UsedBy(config: Config, sub: Subscription, name: ConsumerName) {
    name in Names(Wanted(KeyPrefix(sub), StatusSubjects(config, WithTypesSynced(sub))))
  }

  /** One of the first `n` subjects has an identifier with this consumer name. */
  ghost predicate NamedIn(prefix: string, subjects: seq<string>, n: nat, name: ConsumerName)
    requires n <= |subjects|
  {
    exists t :: 0 <= t < n && IdentifierFor(prefix, subjects[t]).consumerName == name
  }

  lemma NamedInGrows(prefix: string, subjects: seq<string>, n: nat, name: ConsumerName)
    requires n < |subjects|
    ensures NamedIn(prefix, subjects, n + 1, name) <==> NamedIn(prefix, subjects, n, name) || IdentifierFor(prefix, subjects[n]).consumerName == name
    ensures NamedIn(prefix, subjects, n + 1, name) ==> NamedIn(prefix, subjects, |subjects|, name)
  {
    hide IdentifierFor;
  }

  lemma UsedByMeans(config: Config, sub: Subscription, name: ConsumerName)
    ensures var subjects := Subjects(config.subjectPrefix, sub, CleanEventTypes(sub));
            && (UsedBy(config, sub, name) <==> NamedIn(KeyPrefix(sub), subjects, |subjects|, name))
            && !NamedIn(KeyPrefix(sub), subjects, 0, name)
  {
    hide Subject, Subjects, CleanEventTypes, IdentifierFor, KeyPrefix, Wanted;
    var prefix, subjects := KeyPrefix(sub), Subjects(config.subjectPrefix, sub, CleanEventTypes(sub));
    SyncedSubjects(config, sub);
    WantedNames(prefix, subjects, name);
  }

  lemma WantedNames(prefix: string, subjects: seq<string>, name: ConsumerName)
    ensures name in Names(Wanted(prefix, subjects)) <==> NamedIn(prefix, subjects, |subjects|, name)
  {
    hide IdentifierFor;
    if NamedIn(prefix, subjects, |subjects|, name) {
      var t: nat :| t < |subjects| && IdentifierFor(prefix, subjects[t]).consumerName == name;
      WantedMember(prefix, subjects, t);
    }
  }

  lemma SyncedSubjects(config: Config, sub: Subscription)
    ensures KeyPrefix(WithTypesSynced(sub)) == KeyPrefix(sub)
    ensures StatusSubjects(config, WithTypesSynced(sub)) == Subjects(config.subjectPrefix, sub, CleanEventTypes(sub))
  {
    hide Subject, CleanEventTypes;
  }

  ghost predicate Kept(config: Config, subs: seq<Subscription>, pre: Consumers, name: ConsumerName)
    requires name in pre
  {
    pre[name].pushBound || UsedBySome(config, subs, name)
  }

  /** DeleteInvalidConsumers. */
  ghost predicate PurgeStep(config: Config, subs: seq<Subscription>, pre: State, outcome: Outcome, post: State) {
    && post.subscriptions == pre.subscriptions && post.sinks == pre.sinks
    && (forall name :: name in post.consumers ==> name in pre.consumers && post.consumers[name] == pre.consumers[name])
    && (forall name :: name in pre.consumers && Kept(config, subs, pre.consumers, name) ==> name in post.consumers)
    && (outcome.Pass? ==> forall name :: name in post.consumers ==> Kept(config, subs, pre.consumers, name))
  }

  /** What happens outside the backend: consumers vanish, get attached, detached or reconfigured, others
      appear, subscribers turn invalid, and the handler restarts with empty tables. */
  ghost predicate EnvironmentStep(pre: State, post: State) {
    && (forall name :: name in post.consumers && name.Digest? ==>
        name in pre.consumers && SameConsumer(pre.consumers[name], post.consumers[name]))
    && ((post.subscriptions == map[] && post.sinks == map[])
        || (post.sinks == pre.sinks && post.subscriptions.Keys == pre.subscriptions.Keys
            && forall k :: k in pre.subscriptions ==> Weakened(pre.subscriptions[k], post.subscriptions[k])))
  }
}
