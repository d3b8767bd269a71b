/** One subscription at EventMesh and the hashes that its status remembers, and what a run may do to them. */
module EventMeshStates {
  import opened Subscriptions
  import opened EventMeshTypes

  /** `entry` is what the server holds under the name of the subscription. */
  datatype State = State(hashes: Hashes, entry: Option<MeshSubscription>)

  /** The hashes are those of one earlier successful run, or there was none. */
  predicate Coherent(h: Hashes) {
    h == NO_HASHES || (h.ev2.SubscriptionHash? && h == HashesOf(h.ev2.content))
  }

  /** The server still holds what it held when the hashes were recorded, up to credentials and report. */
  predicate Accepted(s: State) {
    s.entry.Some? && SubscriptionHash(Cleaned(s.entry.value)) == s.hashes.server
  }

  /** IsEventMeshSubModified, with and without the webhook-auth feature. */
  predicate IsModified(webhookAuth: bool, e: MeshSubscription, hash: Hash) {
    SubscriptionHash(if webhookAuth then Cleaned(e) else e) != hash
  }

  /** The desired subscription is not the one that was last registered. */
  predicate Modified(webhookAuth: bool, h: Hashes, desired: MeshSubscription) {
    IsModified(webhookAuth, desired, if webhookAuth then h.local else h.ev2)
  }

  /** What a run does about the entry. */
  datatype Plan = Recreate | Patch | Keep

  function PlanOf(webhookAuth: bool, s: State, desired: MeshSubscription): Plan {
    if Modified(webhookAuth, s.hashes, desired) || !Accepted(s) then Recreate
    else if webhookAuth && AuthHash(desired.webhookAuth) != s.hashes.auth then Patch
    else Keep
  }

  /** The entry is the desired one, and delivers. */
  predicate Registered(entry: Option<MeshSubscription>, desired: MeshSubscription) {
    && entry.Some?
    && entry.value.(report := NO_REPORT) == desired.(report := NO_REPORT)
    && !entry.value.Paused()
  }

  /** An entry at some point of the pause, update, resume protocol. */
  predicate Patched(before: Option<MeshSubscription>, after: Option<MeshSubscription>, auth: Option<WebhookAuth>) {
    after.Some? ==>
      && before.Some?
      && Cleaned(after.value) == Cleaned(before.value)
      && after.value.webhookAuth in {before.value.webhookAuth, auth}
  }

  /** What a run that fails can leave behind. */
  predicate Interrupted(plan: Plan, before: Option<MeshSubscription>, after: Option<MeshSubscription>, desired: MeshSubscription) {
    match plan
    case Recreate => after == before || after == None || Registered(after, desired)
    case Patch => Patched(before, after, desired.webhookAuth)
    case Keep => after == before
  }

  /** What a run that succeeds leaves behind.  Only the patch protocol tolerates that the entry vanishes. */
  predicate Completed(plan: Plan, before: Option<MeshSubscription>, after: Option<MeshSubscription>, desired: MeshSubscription) {
    match plan
    case Recreate => Registered(after, desired)
    case Patch =>
      || after == None
      || (Patched(before, after, desired.webhookAuth) && after.value.webhookAuth == desired.webhookAuth && !after.value.Paused())
    case Keep => after == before
  }

  /** The hashes of a successful run.  An entry that was kept keeps its hash. */
  function RecordedHashes(plan: Plan, h: Hashes, desired: MeshSubscription): Hashes {
    HashesOf(desired).(server := if plan.Recreate? then SubscriptionHash(Cleaned(desired)) else h.server)
  }

  /** One run of SyncSubscription, as seen through the in-memory copy of the status. */
  predicate SyncStep(webhookAuth: bool, s: State, t: State, desired: MeshSubscription, success: bool) {
    var plan := PlanOf(webhookAuth, s, desired);
    if success then Completed(plan, s.entry, t.entry, desired) && t.hashes == RecordedHashes(plan, s.hashes, desired)
    else Interrupted(plan, s.entry, t.entry, desired) && t.hashes == s.hashes
  }

  /** Somebody else removes the entry, or edits it so that its hash tells, or the server reports anew. */
  predicate EnvironmentStep(s: State, t: State) {
    && t.hashes == s.hashes
    && (Accepted(t) ==> Accepted(s) && t.entry.value.webhookAuth == s.entry.value.webhookAuth
                        && t.entry.value.Paused() == s.entry.value.Paused())
  }

  /** An entry that the hashes accept carries the recorded credentials and delivers. */
  predicate InPlace(s: State) {
    Accepted(s) ==> AuthHash(s.entry.value.webhookAuth) == s.hashes.auth && !s.entry.value.Paused()
  }

  /** The safety of the protocol: only while other credentials than the recorded ones are pending can an
      accepted entry be anything but what the hashes say.  `pending` are the credentials of the last run,
      unless its success was recorded. */
  predicate Sound(s: State, pending: Option<Option<WebhookAuth>>) {
    Coherent(s.hashes) && (InPlace(s) || (pending.Some? && AuthHash(pending.value) != s.hashes.auth))
  }

  /** While credentials are pending, the desired ones are not reverted to the recorded ones. */
  predicate NotReverted(s: State, pending: Option<Option<WebhookAuth>>, auth: Option<WebhookAuth>) {
    pending in {None, Some(auth)} || AuthHash(auth) != s.hashes.auth
  }

  /** The subscription is registered as desired and the status says so. */
  predicate Converged(s: State, desired: MeshSubscription) {
    s.hashes == HashesOf(desired) && Registered(s.entry, desired)
  }

  /** What a run whose patch protocol met a vanished entry leaves: the next run creates it. */
  predicate Vanished(s: State, desired: MeshSubscription) {
    s.hashes == HashesOf(desired) && s.entry == None
  }

  lemma InitiallySound(entry: Option<MeshSubscription>)
    ensures Sound(State(NO_HASHES, entry), None)
  {
  }

  /** With coherent hashes, an entry that is kept has the desired content. */
  lemma KeptContent(webhookAuth: bool, s: State, desired: MeshSubscription)
    requires Coherent(s.hashes) && !PlanOf(webhookAuth, s, desired).Recreate?
    ensures Cleaned(s.entry.value) == Cleaned(desired)
    ensures s.hashes.server == SubscriptionHash(Cleaned(desired))
    ensures PlanOf(webhookAuth, s, desired).Keep? ==> s.hashes.auth == AuthHash(desired.webhookAuth)
    ensures RecordedHashes(PlanOf(webhookAuth, s, desired), s.hashes, desired) == HashesOf(desired)
  {
  }

  lemma RecreatedIsRegistered(webhookAuth: bool, s: State, t: State, desired: MeshSubscription)
    requires PlanOf(webhookAuth, s, desired).Recreate? && SyncStep(webhookAuth, s, t, desired, true)
    ensures t.entry.Some? && t.entry.value.(report := NO_REPORT) == desired.(report := NO_REPORT)
  {
  }

  /** A run that succeeds has converged if and only if it did not skip an entry whose credentials or whose
      pausing the hashes do not tell. */
  lemma SuccessConvergesIff(webhookAuth: bool, s: State, t: State, desired: MeshSubscription)
    requires Coherent(s.hashes) && desired.report == NO_REPORT
    requires SyncStep(webhookAuth, s, t, desired, true)
    ensures Converged(t, desired) || Vanished(t, desired) <==>
            !PlanOf(webhookAuth, s, desired).Keep? || (s.entry.value.webhookAuth == desired.webhookAuth && !s.entry.value.Paused())
    ensures Vanished(t, desired) ==> PlanOf(webhookAuth, s, desired).Patch?
  {
  }

  lemma SoundSyncConverges(webhookAuth: bool, s: State, t: State, desired: MeshSubscription, pending: Option<Option<WebhookAuth>>)
    requires Sound(s, pending) && NotReverted(s, pending, desired.webhookAuth) && desired.report == NO_REPORT
    requires SyncStep(webhookAuth, s, t, desired, true)
    ensures Converged(t, desired) || (Vanished(t, desired) && PlanOf(webhookAuth, s, desired).Patch?)
    ensures Sound(t, None)
  {
    SuccessConvergesIff(webhookAuth, s, t, desired);
    if PlanOf(webhookAuth, s, desired).Keep? {
      KeptContent(webhookAuth, s, desired);
    }
  }

  /** A run keeps the protocol safe, whether it fails or not, whether the status it computed is stored or
      lost, and with or without the webhook-auth feature. */
  lemma SyncKeepsSound(webhookAuth: bool, s: State, t: State, desired: MeshSubscription, success: bool, stored: bool,
                       pending: Option<Option<WebhookAuth>>)
    requires Sound(s, pending) && NotReverted(s, pending, desired.webhookAuth) && desired.report == NO_REPORT
    requires SyncStep(webhookAuth, s, t, desired, success)
    ensures Sound(if stored then t else t.(hashes := s.hashes), if success && stored then None else Some(desired.webhookAuth))
  {
    if success {
      SoundSyncConverges(webhookAuth, s, t, desired, pending);
    }
    if !PlanOf(webhookAuth, s, desired).Recreate? {
      KeptContent(webhookAuth, s, desired);
    }
  }

  lemma EnvironmentKeepsSound(s: State, t: State, pending: Option<Option<WebhookAuth>>)
    requires Sound(s, pending) && EnvironmentStep(s, t)
    ensures Sound(t, pending)
  {
  }

  lemma ConvergedIsKept(webhookAuth: bool, s: State, desired: MeshSubscription)
    requires Converged(s, desired) && desired.report == NO_REPORT
    ensures PlanOf(webhookAuth, s, desired).Keep? && Sound(s, None)
  {
    assert Cleaned(s.entry.value) == Cleaned(s.entry.value.(report := NO_REPORT));
  }
}
