# A model of the eventing manager's reconciliation

The eventing manager is a Kubernetes operator.  It keeps two eventing backends in step with
Subscription resources, and it starts and stops the part of itself that does so for the wanted
backend.  This project models that logic in Dafny and proves what it keeps over whole runs, in
which any call may fail, a failed change may still have taken effect, a status write may be lost,
the process may restart, and others may interfere with the servers.

The objects whose methods change their fields are classes (`JetStream`, `EventMesh`, the three
reconcilers), and so are the servers they talk to.  Each method is proved to stay within a relation
on snapshots of the state (`SyncStep`, `DeleteStep`, `ReconcileStep`, …).  The modules whose names
end in `Runs` prove theorems about arbitrary sequences of these relations and of steps of the
environment.

## The parts

- **JetStream backend** (`JetStreams`, `JetStreamStates`, `JetStreamRuns`, `NatsServers`,
  `Identifiers`, `JetStreamSubjects`, `JetStreamReconciler`): the in-memory tables of subscribers and
  sinks against the durable consumers on a NATS server.
- **EventMesh backend** (`EventMeshes`, `EventMeshStates`, `EventMeshRuns`, `EventMeshServers`,
  `EventMeshConversion`, `EventMeshTypes`): a delete, create and patch protocol against a remote
  store that remembers its progress in four hashes only.
- **Operator** (`OperatorReconciler`, `OperatorStates`, `OperatorRuns`): switching backends, and
  building, starting and stopping the two subscription managers.
- **Statuses and API rules** (`Conditions`, `SubscriptionStatuses`, `ApiRules`,
  `ApiRuleReconciler`, `Sinks`, `Validation`, `ListEquality`).
- **Event types** (`EventMeshCleaner`, `EventTypes`, `Segments`, `Strings`, `Subscriptions`).

## Assumptions

- Hashes and digests do not collide on the contents in use, and none is zero.  They are modelled as
  free constructors (`ConsumerName`, `EventMeshTypes.Hash`, `ConfigHash`).
- Namespaces and names of resources contain no slash.
- The API server and the backends answer one call at a time, without stale reads.  An answer that
  reports success, absence or a conflict is true.  EventMesh stores a subscription as it was sent.
- Nobody but the manager pauses or resumes an EventMesh entry or changes its credentials while leaving
  the rest of it as it is: the recorded hash does not tell such a change (`EventMeshStates.EnvironmentStep`).
- What a run cannot do without and the model does not hold (the definitions of applications and API rules, the
  EventMesh secret, a ready publisher) counts as a call that fails when it is missing.
- Parsing an address (`url.ParseRequestURI`), the mapping of names to EventMesh, the validity of a
  cloud event, configuration, secrets, random suffixes and timeouts are parameters or arbitrary
  choices of the model.
- Characters are those of Dafny strings; blank means blank in ASCII.

## What is not true of the code without a proviso

Each of these has a lemma with the failing case and, where the failure is one of a single step, an
exact condition.

- Event types that are taken as they are may contain a slash.  Then `SyncSubscription` of JetStream
  succeeds without converging, and a deletion leaves keys behind whose callbacks find no sink
  (`SyncConvergesIffSlashFree`, `SlashedSubjectIsStuck`, `DeletionLeavesSlashedKeys`).
- Without a failing call a sync of JetStream still fails as long as the consumer of a key that has no valid
  subscriber is attached to another client, as after a restart (`CleanSyncConvergesIff`, `RestartBlocks`).
- If webhook credentials are changed, the change fails, and they are changed back, EventMesh can keep
  the other credentials, or stay paused, and no run notices
  (`RevertedCredentialsAreMissed`, `SuccessConvergesIff`).
- Two backends run at once when the wanted backend changes before the status has caught up with the
  last switch, or when a resource is deleted whose spec does not name the started backend
  (`SwitchToMeshOverlapsIff`, `SwitchToNatsOverlapsIff`, `DeletionIsSafeIff`, `UnsafeDeletionOverlapsIff`).
- A NATS manager is started for a configuration that was reverted after a failed start, and an
  EventMesh manager for a domain that was changed after one
  (`RevertedConfigIsMissed`, `NatsFreshIff`, `ChangedDomainIsMissed`, `MeshFreshIff`).
  The same happens when not the start but the write of the status failed.
- A manager that a failed stop has shut down stays flagged as started, and is reported so by the next
  run if the cause of the stop was taken back in between
  (`AbandonedStopIsMissed`, `DeadNatsManagerWasAbandoned`, `DeadMeshManagerWasAbandoned`).
- Credentials with an empty value are replaced in the cache while the manager goes on with the old
  ones (`CredentialsKeptFreshIff`).
- Five conditions with a repeated type pass for the five required ones (`DuplicatesAreMisjudged`,
  `SyncInitialStatus`).  When types are missing or foreign, `SyncInitialStatus` turns the readiness around,
  whatever the conditions say (`SyncInitialStatus` has the exact condition, `ReadinessIsTurnedAround` the
  failing cases).
- An API rule whose owners are repeated is kept as it is if it says the same otherwise
  (`CreateOrUpdateAPIRule`).
- Comparing lists by length and inclusion is not even symmetric for lists with duplicates
  (`DuplicatesBreakSymmetry`, `DistinctIffDecidesPermutation`).
- A business object of several segments does not survive building and parsing
  (`ParseBuildRoundTrip`).  A cleaned type is not clean if the prefix recurs in it or, for an empty
  prefix, if the application was cleaned away (`CleanIsIdempotentIff`, `RecurringPrefixIsLost`).
- The third label of the host of a valid sink need not be "svc", but only has to end in that (`ValidSinkIff`).
- The reconciler reads the namespace of a service from the host with its port.  That is harmless only
  because the validator insists on five labels (`ValidSinkService`, `ShortHostSwallowsPort`).

## Model

| member | source | states |
|---|---|---|
| `Identifiers.SubjectRoundTrip` | pkg/backend/jetstream/utils.go:281-301 | the subject can be read back from a new identifier, because namespace and name have no slash |
| `Identifiers.NamespacedNameRoundTrip` | pkg/backend/jetstream/utils.go:190-196 | the namespaced name of a new identifier is its key prefix if and only if the subject has no slash |
| `Identifiers.IdentifierInjective` | pkg/backend/jetstream/utils.go:292-301 | different subjects of one subscription get different identifiers and consumers |
| `Identifiers.PrefixesDisjoint` | pkg/backend/jetstream/utils.go:260-273 | no identifier is filed below the prefixes of two different subscriptions |
| `JetStreamSubjects.CleanTypeIsClean` | pkg/backend/cleaner/jetstream.go:26-28 | cleaning a type is idempotent and leaves no reserved character |
| `JetStreamSubjects.CleaningDrops` | pkg/backend/cleaner/jetstream.go:12-28 | cleaning drops white space, slashes, backslashes and wildcards one by one, and of sources the dots too, and nothing else |
| `JetStreamSubjects.SubjectSlashFree` | pkg/backend/jetstream/jetstream.go:176-182 | a subject has a slash exactly when its type brings one in |
| `JetStreamSubjects.StandardSubjectsSlashFree` | pkg/backend/jetstream/utils.go:221-236 | in standard mode every subject of a synced status is free of slashes |
| `JetStreamSubjects.GetCleanEventTypes` | pkg/backend/jetstream/utils.go:221-236 | one entry per distinct type in the order of first occurrence, with the type cleaned in standard mode only |
| `JetStreamSubjects.RevertRoundTrip` | pkg/backend/jetstream/jetstream.go:480-492 | trimming prefix and clean source from a standard subject gives the type back |
| `Subscriptions.GetUniqueEventTypes` | pkg/backend/jetstream/utils.go:206-218 | the loop with a table keeps the first occurrence of each type in order |
| `Numerals.AtoiIff` | api/eventing/v1alpha2/subscription_types.go:95-101 | a text is read as the number that its digits spell, with a sign and leading zeros allowed, if that has 64 bits, and as nothing otherwise |
| `Numerals.MaxInFlightIsAsked` | api/eventing/v1alpha2/subscription_types.go:95-101 | the limit of a subscription is the number in its config, or the default if there is no key or no such number |
| `JetStreams.JetStream.SyncSubscription` | pkg/backend/jetstream/jetstream.go:76-102 | every exit keeps the invariant and the relation SyncStep: isolation, consumers retained, nothing done when converged, converged on success with slash-free subjects; it passes if and only if no call fails and no wanted key is blocked by another client; a missing key is told apart exactly when it is the first blocked one |
| `JetStreams.JetStream.SyncEventTypes` | pkg/backend/jetstream/jetstream.go:363-373 | only own keys go, only consumers of unwanted keys go, and on success every remaining own key is wanted and its consumer exists; it fails if and only if one call fails |
| `JetStreams.JetStream.SyncEventType` | pkg/backend/jetstream/jetstream.go:377-418 | one key: dropped if unwanted or its consumer is gone, untouched if it is in order |
| `JetStreams.JetStream.SubscriptionExists` | pkg/backend/jetstream/jetstream.go:421-432 | the loop finds exactly the identifiers that the status calls for |
| `JetStreams.JetStream.SyncConsumersAndSubscriptions` | pkg/backend/jetstream/jetstream.go:586-624 | on success every wanted identifier is attached, and no consumer is deleted or re-created; it passes if and only if no call fails and no wanted key is blocked |
| `JetStreams.JetStream.GetOrCreateConsumer` | pkg/backend/jetstream/jetstream.go:627-649 | the consumer found or created filters on the subject, and nothing else on the server changes |
| `JetStreams.JetStream.Bind` | pkg/backend/jetstream/jetstream.go:680-697 | a subscriber that becomes valid is bound to the current consumer; it passes if and only if the consumer is there and free and the call does not fail |
| `JetStreams.JetStream.SyncMaxInFlight` | pkg/backend/jetstream/jetstream.go:701-720 | the limit is the configured one after success, the consumer is otherwise the same, and the server is not called when nothing is to change |
| `JetStreams.JetStream.DeleteSubscription` | pkg/backend/jetstream/jetstream.go:104-134 | on success own keys, their consumers, those of the status and the sink are gone, and an aborted run has done part of that; it fails if and only if one call fails |
| `JetStreams.JetStream.DeleteSubscriptionsOnly` | pkg/backend/jetstream/jetstream.go:136-157 | on success no own key is left, consumers are only detached; it fails if and only if one call fails |
| `JetStreams.JetStream.DeleteInvalidConsumers` | pkg/backend/jetstream/jetstream.go:185-198 | only consumers that are detached and looked up by no listed subscription are deleted, on success all of them; it fails if and only if one call fails |
| `JetStreams.JetStream.IsConsumerUsed` | pkg/backend/jetstream/jetstream.go:200-219 | a name is used if and only if a sync of a listed subscription would look it up |
| `JetStreamStates.SyncKeepsInvariant` | pkg/backend/jetstream/jetstream.go:586-697 | a sync keeps the invariant, because new keys are filed and bound as they should be and consumers stay in step with their names |
| `JetStreamStates.DeleteKeepsInvariant` | pkg/backend/jetstream/jetstream.go:104-134 | a deletion keeps the invariant, complete or aborted |
| `JetStreamRuns.InvariantOverRuns` | pkg/backend/jetstream/jetstream.go:76-157 | keys carry the digest of their name, consumers filter on the subject they are named after and valid subscribers are bound to the current consumer, in every state of every run with failures, restarts and interference; derived from the relations of the steps |
| `JetStreamRuns.CallbackFindsSink` | pkg/backend/jetstream/jetstream.go:86-89 | a stored key of a slash-free subject always has an entry in the sink table |
| `JetStreamRuns.SyncConvergesIffSlashFree` | pkg/backend/jetstream/jetstream.go:76-102 | a successful sync converges from any state if and only if no subject has a slash |
| `JetStreamRuns.CleanSyncConvergesIff` | pkg/backend/jetstream/jetstream.go:586-624 | without a failing call a sync passes if and only if no wanted key lacks a valid subscriber while its consumer is attached elsewhere, and converges if and only if moreover no subject has a slash |
| `JetStreamRuns.RestartBlocks` | pkg/backend/jetstream/jetstream.go:600-612 | a restart blocks the keys whose consumers are still attached |
| `JetStreamRuns.SlashedSubjectIsStuck` | pkg/backend/jetstream/jetstream.go:76-102 | with a slash in the subject a successful sync leaves an attached subscriber and everything as it is, and has not converged |
| `JetStreamRuns.ExactTypeBringsSlash` | pkg/backend/jetstream/jetstream.go:176-182 | an exact type brings its slash into the subject |
| `JetStreamRuns.ConvergedMeans` | pkg/backend/jetstream/jetstream.go:586-720 | converged: exactly the wanted keys, each with a valid subscriber on a consumer with the right subject and the limit that the config asks for |
| `JetStreamRuns.ConfiguredLimitIsApplied` | pkg/backend/jetstream/jetstream.go:701-720 | after a successful sync every consumer of the status has the limit that the config asks for |
| `JetStreamRuns.SecondSyncIsIdle` | pkg/backend/jetstream/jetstream.go:390-418 | a second sync changes nothing and asks for no change, even if it fails |
| `JetStreamRuns.PauseThenSyncKeepsConsumers` | pkg/backend/jetstream/jetstream.go:467-478 | from any state and whatever fails, pausing and syncing again loses no consumer but those of keys no longer wanted; after a complete pause none at all, and a successful sync converges if and only if no subject has a slash |
| `JetStreamRuns.PauseThenCleanSyncRecovers` | pkg/backend/jetstream/jetstream.go:136-157 | pausing blocks no key: without a failing call the next sync passes and brings the subscription back |
| `JetStreamRuns.OtherSubscriptionsUntouched` | pkg/backend/jetstream/jetstream.go:76-157 | no operation on one subscription touches a key, a consumer or the sink of another |
| `JetStreamRuns.ConvergenceSurvivesOthers` | pkg/backend/jetstream/jetstream.go:76-157 | any run of operations on other subscriptions leaves a subscription converged |
| `JetStreamRuns.StandardSyncConverges` | internal/controller/eventing/subscription/jetstream/reconciler.go:359-378 | with the status synced from the spec in standard mode every successful sync converges |
| `JetStreamRuns.DeletionCompletes` | pkg/backend/jetstream/jetstream.go:104-134 | however often a deletion fails, retrying it to success reaches the state of an undisturbed one |
| `JetStreamRuns.DeletionCompletesAmidOthers` | pkg/backend/jetstream/jetstream.go:104-134 | retried to success amid purges, interference and operations on other subscriptions, a deletion leaves no own key, no sink and none of their consumers, unless a restart lost the key |
| `JetStreamRuns.DeletionLeavesSlashedKeys` | pkg/backend/jetstream/jetstream.go:114-125 | a key of the status outlives a successful deletion if and only if its subject has a slash, and its callback then finds no sink |
| `JetStreamRuns.PurgeIsExact` | pkg/backend/jetstream/jetstream.go:185-219 | after a successful purge exactly the attached consumers and those that a later sync looks up remain |
| `JetStreamRuns.PurgeKeepsConverged` | pkg/backend/jetstream/jetstream.go:185-219 | a purge with the synced statuses leaves converged subscriptions converged |
| `JetStreamReconciler.Reconciler.GetBackendJetStreamTypes` | pkg/backend/jetstream/utils.go:240-256 | fails if and only if a type is repeated, else pairs each type with the consumer of its own subject |
| `JetStreamReconciler.Reconciler.SyncWithBackend` | internal/controller/eventing/subscription/jetstream/reconciler.go:150-173 | ready exactly when the types were synced and the backend succeeded, and the active condition says the same; a missing subscriber asks for a repetition; without repeated types, failing calls or blocked keys it is ready; it asks for a repetition exactly when a key is missing |
| `JetStreamReconciler.Reconciler.Reconcile` | internal/controller/eventing/subscription/jetstream/reconciler.go:105-185 | ready only after a successful sync of the types of the spec, which in standard mode means converged; an invalid sink pauses, another invalid spec leaves the backend alone; both conditions are set accordingly; a valid spec without repeated types becomes ready if and only if no call fails and no key is blocked |
| `JetStreamReconciler.Reconciler.HandleSubscriptionDeletion` | internal/controller/eventing/subscription/jetstream/reconciler.go:240-279 | the finalizer is removed only after a complete deletion in the backend; and exactly if the API server takes that; a failed deletion makes the subscription not ready |
| `EventMeshCleaner.GetMergedSegments` | pkg/backend/cleaner/eventmesh.go:41-55 | the loop merges all but the last two segments |
| `EventMeshCleaner.CleanSegments` | pkg/backend/cleaner/eventmesh.go:33-55 | a clean type has as many segments as the original, at most three |
| `EventMeshCleaner.CleaningCommutesWithMerging` | pkg/backend/cleaner/eventmesh.go:33-55 | removing characters and merging segments can be done in either order |
| `EventMeshCleaner.CleaningIsIdempotent` | pkg/backend/cleaner/eventmesh.go:33-36 | cleaning a clean type changes nothing |
| `EventMeshCleaner.CleaningKeepsAlphanumerics` | pkg/backend/cleaner/eventmesh.go:33-55 | all alphanumeric characters are kept in order |
| `EventMeshCleaner.CleanSourceIsOneSegment` | pkg/backend/cleaner/eventmesh.go:29-31 | a clean source is a single segment |
| `EventMeshCleaner.KeptCharacters` | pkg/backend/cleaner/eventmesh.go:19-36 | letters and digits of ASCII are kept, and the dots of types, and nothing else |
| `EventMeshConversion.GetProcessedEventTypes` | pkg/backend/eventmesh/eventmesh.go:184-223 | each distinct type is processed in order, exact ones as they are, and one subject over the limit rejects all |
| `EventMeshConversion.ProcessingFailsIff` | pkg/backend/eventmesh/utils.go:13-22 | processing fails if and only if prefix, source and at most three segments of some standard type exceed seven segments |
| `EventMeshConversion.ShortPrefixNeverFails` | pkg/backend/eventmesh/eventmesh.go:211-214 | with a prefix of at most three segments processing never fails |
| `EventMeshConversion.ConvertKymaSubToEventMeshSub` | pkg/backend/utils/eventmesh_utils.go:108-188 | the struct that is filled step by step is the desired subscription, or none when the sink cannot be parsed |
| `EventMeshConversion.DesiredEventsExact` | pkg/backend/utils/eventmesh_utils.go:86-106 | every type of the spec is registered under the right source, and nothing else is |
| `EventMeshConversion.DesiredAsSpecified` | pkg/backend/utils/eventmesh_utils.go:108-188 | name, address, events, quality of service, content mode, handshake and credentials of the desired subscription are those that the keys of the config ask for, or else the settings of the backend |
| `EventMeshConversion.QosIff` | pkg/ems/api/events/types/qos.go:22-30 | at most once if and only if the text says so, with dashes for underscores, and at least once otherwise |
| `EventMeshConversion.CredentialRotation` | pkg/backend/utils/eventmesh_utils.go:159-212 | new default credentials change only the credentials of the desired subscription, and do so unless the spec brings its own |
| `EventMeshTypes.GetCleanedEventMeshSubscription` | pkg/backend/utils/eventmesh_utils.go:190-212 | the copy lacks exactly the credentials and what the server reports |
| `EventMeshes.EventMesh.SyncSubscription` | pkg/backend/eventmesh/eventmesh.go:106-175 | a run follows the plan that hashes and entry determine, whatever fails; with a usable target it succeeds if and only if no call fails; it never creates over an existing entry, touches no other entry, writes nothing when it keeps the entry, and changes no hash when it fails; an entry that it creates is the one that the spec asks for, field by field, and credentials are only ever changed while the entry is paused |
| `EventMeshes.ConvergedAsSpecified` | pkg/backend/eventmesh/eventmesh.go:106-175 | so is every entry of a converged state |
| `EventMeshes.EventMesh.HandleKymaSubModified` | pkg/backend/eventmesh/eventmesh.go:227-252 | the entry is deleted if and only if the desired subscription is not the recorded one; it fails if and only if a call fails |
| `EventMeshes.EventMesh.HandleEventMeshSubModified` | pkg/backend/eventmesh/eventmesh.go:256-273 | the entry is deleted if and only if the server no longer holds what was recorded; it fails if and only if a call fails |
| `EventMeshes.EventMesh.HandleCreateEventMeshSub` | pkg/backend/eventmesh/eventmesh.go:276-287 | an entry that appears is the desired one, and success returns it; it fails if and only if a call fails |
| `EventMeshes.EventMesh.HandleWebhookAuthChange` | pkg/backend/eventmesh/eventmesh.go:291-352 | after success the entry carries the desired credentials and is not paused, or has vanished; a failure leaves an entry at some point of the protocol; it succeeds if and only if every call is answered with 202, 204 and 202, or with 404 |
| `EventMeshes.EventMesh.HandleKymaSubStatusUpdate` | pkg/backend/eventmesh/eventmesh.go:356-375 | types, hashes and report are recorded together, and a change is reported exactly when the report differs |
| `EventMeshes.EventMesh.DeleteSubscription` | pkg/backend/eventmesh/eventmesh.go:178-180 | on success the entry that a sync registers is gone, others are untouched, and for the protocol of syncs it is a harmless intervention; it fails if and only if a call fails |
| `EventMeshStates.SuccessConvergesIff` | pkg/backend/eventmesh/eventmesh.go:122-166 | a successful run has converged if and only if it did not skip an entry with other credentials or a paused one |
| `EventMeshStates.SyncKeepsSound` | pkg/backend/eventmesh/eventmesh.go:106-175 | a run keeps the protocol safe unless it reverts pending credentials, failing or not, its status stored or lost, with or without the feature flag |
| `EventMeshRuns.SafetyOverRuns` | pkg/backend/eventmesh/eventmesh.go:106-175 | the protocol is safe in every run in which credentials are not reverted to the recorded ones while others are pending |
| `EventMeshRuns.EverySuccessConverges` | pkg/backend/eventmesh/eventmesh.go:377-443 | in such a run every success leaves the entry as desired and the hashes to match, after any interruptions |
| `EventMeshRuns.EveryCleanRunConverges` | pkg/backend/eventmesh/eventmesh.go:106-175 | after any interruptions, a run with a usable target in which no call fails succeeds and leaves the entry as desired and the hashes to match, or finds that the entry vanished while it was patched |
| `EventMeshRuns.TwoCleanRunsConverge` | pkg/backend/eventmesh/eventmesh.go:106-175 | two such runs in a row converge even then |
| `EventMeshRuns.EveryCleanRunConvergesFromScratch` | pkg/backend/eventmesh/eventmesh.go:106-175 | a subscription that was never synced needs no assumption about what the server holds |
| `EventMeshRuns.RevertedCredentialsAreMissed` | pkg/backend/eventmesh/eventmesh.go:300-302 | reverting credentials after a failed change leaves a paused entry with the others, and the run succeeds |
| `EventMeshRuns.UnrecordedChangeIsRedone` | pkg/backend/eventmesh/eventmesh.go:151-157 | until a success is recorded no run takes changed credentials to be in place |
| `EventMeshRuns.SecondSyncIsIdleIff` | pkg/backend/eventmesh/eventmesh.go:106-175 | a second run does nothing if and only if the entry did not vanish during the first |
| `EventMeshRuns.QuietUntilEdited` | pkg/subscriptionmanager/eventmesh/eventmesh.go:172-198 | until somebody edits the entry every later run only reads, also after resets that keep the hashes |
| `OperatorStates.MeshTextInjective` | internal/controller/operator/eventing/utils.go:48-55 | the hashed text tells configurations apart |
| `OperatorReconciler.Reconciler.StopNATSSubManager` | internal/controller/operator/eventing/nats.go:93-111 | the manager is gone after success, and a failed stop keeps the flag |
| `OperatorReconciler.Reconciler.ReconcileNATSSubManager` | internal/controller/operator/eventing/nats.go:19-75 | success leaves a started manager and its hash in the status; which manager is kept or built, in every failing case too; it succeeds if and only if the server is known and no call fails |
| `OperatorReconciler.Reconciler.ReconcileNATSBackend` | internal/controller/operator/eventing/controller.go:560-610 | the persisted status is the old one or the one that the run computed; success means started and recorded; the run succeeds if and only if the module is installed, the server is known and no call fails |
| `OperatorReconciler.Reconciler.SyncOauth2ClientIDAndSecret` | internal/controller/operator/eventing/eventmesh.go:215-251 | a change or loss of the secret stops the manager and stores the status first, and the cache changes only on success; it succeeds if and only if the secret is complete and no call fails |
| `OperatorReconciler.Reconciler.RestartEventMeshSubManager` | internal/controller/operator/eventing/eventmesh.go:80-141 | only a started manager is replaced when the hash differs; the hash is recorded only when the manager is started; it succeeds if and only if there is a domain and no call fails |
| `OperatorReconciler.Reconciler.ReconcileEventMeshBackend` | internal/controller/operator/eventing/controller.go:660-701 | the credentials come first, a status write in between may persist the backend, success means started and recorded; it succeeds if and only if the secret is complete, there is a domain and no call fails |
| `OperatorReconciler.Reconciler.HandleBackendSwitching` | internal/controller/operator/eventing/controller.go:521-558 | the manager of the persisted backend is stopped if another is wanted, and no other is touched; it fails if and only if a call fails; the publisher is removed with the backend |
| `OperatorReconciler.Reconciler.HandleEventingReconcile` | internal/controller/operator/eventing/controller.go:471-516 | a run is a switch followed by a run for the wanted backend; nothing happens without finalizer or backend; it succeeds if and only if the wanted backend has what it needs and no call fails; then the recorded hash, the credentials in the cache and a manager that was started are those of the fields of the spec, the config map and the secret, and the publisher is deployed for the backend; the wanted backend is recorded even if the run fails, unless the status cannot be stored |
| `OperatorReconciler.Reconciler.HandleEventingDeletion` | internal/controller/operator/eventing/controller.go:407-459 | the resource is released only after the manager of the backend of its spec is stopped; it fails if and only if a call fails or there are Subscriptions; the resource goes only when there is no Subscription and the cluster-scoped resources are gone |
| `OperatorReconciler.Reconciler.SyncEventingStatus` | internal/controller/operator/eventing/status.go:135-178 | the persisted status is the old one or the new one, and the new one on success |
| `OperatorRuns.AtMostOneBackend` | internal/controller/operator/eventing/controller.go:471-558 | if the provisos are respected, then in every state of every run at most one manager runs, at most one is started and none was ever started beside a running one |
| `OperatorRuns.AccountedIffRespectful` | internal/controller/operator/eventing/controller.go:471-558 | each started manager is that of the persisted or the wanted backend, in every state of a run, if and only if the provisos are respected (the converse is about this accounting only; what running managers suffer is in the rows on overlaps) |
| `OperatorRuns.ReconcileKeepsSafe` | internal/controller/operator/eventing/controller.go:471-701 | no reconciliation breaks that safety, whatever fails |
| `OperatorRuns.SpecChangeIsSafeIff` | api/operator/v1alpha1/eventing_types.go:232-242 | a change of the spec keeps the managers accounted for if and only if the status has caught up or the started backend is still wanted |
| `OperatorRuns.DeletionIsSafeIff` | internal/controller/operator/eventing/controller.go:434-444 | a deletion is safe if and only if it is not complete or no manager of the other backend was started |
| `OperatorRuns.SwitchToMeshOverlapsIff` | internal/controller/operator/eventing/controller.go:524-526 | from any safe state in which NATS runs, after a switch to EventMesh some reconciliation leaves both running if and only if the persisted status does not name NATS |
| `OperatorRuns.SwitchToNatsOverlapsIff` | internal/controller/operator/eventing/controller.go:521-541 | from any safe state in which EventMesh runs, after a switch to NATS some reconciliation leaves both running if and only if the persisted status names no backend or NATS |
| `OperatorRuns.UnsafeDeletionOverlapsIff` | internal/controller/operator/eventing/controller.go:434-444 | after a deletion a reconciliation of the next resource may leave two managers running if and only if one outlived the deletion and the other is wanted |
| `OperatorRuns.StartedManagersExist` | internal/controller/operator/eventing/nats.go:77-111 | a started manager exists and a running one is flagged, in every state of every run without provisos |
| `OperatorRuns.NatsFreshIff` | internal/controller/operator/eventing/nats.go:33-74 | the started manager is built from the current configuration if and only if the recorded hash does not vouch for another, and it runs if and only if it was not kept from a half-failed stop |
| `OperatorRuns.RevertedConfigIsMissed` | internal/controller/operator/eventing/nats.go:40-44 | a configuration that is reverted after a failed start is not noticed |
| `OperatorRuns.NatsManagerIsFresh` | internal/controller/operator/eventing/nats.go:19-75 | unless a pending configuration is reverted to the recorded one, every successful run has the manager for its configuration |
| `OperatorRuns.DeadNatsManagerWasAbandoned` | internal/controller/operator/eventing/nats.go:40-63 | over all runs: a success that reports a manager which does not run is possible only after a stop failed and its cause was taken back |
| `OperatorRuns.AbandonedStopIsMissed` | internal/controller/operator/eventing/nats.go:93-111 | a manager that was shut down by a failed stop is then reported as started |
| `OperatorRuns.ChangedDomainIsMissed` | internal/controller/operator/eventing/eventmesh.go:101-124 | a manager that was built but not started survives a change of the domain |
| `OperatorRuns.MeshFreshIff` | internal/controller/operator/eventing/eventmesh.go:101-140 | exactly when the started EventMesh manager is for the current configuration, and exactly when it runs |
| `OperatorRuns.MeshManagerIsFresh` | internal/controller/operator/eventing/eventmesh.go:61-141 | the same over runs for EventMesh, if a pending domain is kept as well |
| `OperatorRuns.DeadMeshManagerWasAbandoned` | internal/controller/operator/eventing/eventmesh.go:80-141 | the same over runs for EventMesh, whose stop may also be due to a changed secret |
| `OperatorStates.CredentialsChangedIff` | internal/controller/operator/eventing/eventmesh.go:215-227 | the credentials have changed if and only if all four values are cached and one of the secret is another |
| `OperatorRuns.StoppedBeforeCacheChanges` | internal/controller/operator/eventing/eventmesh.go:228-249 | the cached credentials change only when no manager is started, and a failed stop is retried |
| `OperatorRuns.CredentialsKeptFreshIff` | internal/controller/operator/eventing/eventmesh.go:222-227 | a running manager stays on the cached credentials if and only if the cache was complete or nothing changed |
| `OperatorRuns.CredentialsAreFresh` | internal/controller/operator/eventing/eventmesh.go:215-251 | with secrets whose values are not empty a started manager always uses the cached credentials |
| `Conditions.ContainSameConditionTypes` | api/eventing/v1alpha2/condition.go:149-171 | the loops decide equal length and inclusion of the types |
| `Conditions.IsReady` | api/eventing/v1alpha2/condition.go:85-97 | true if and only if each required type occurs exactly once and all conditions are true |
| `Conditions.ConditionsEquals` | api/eventing/v1alpha2/condition.go:232-251 | decides equality through the table by type |
| `Conditions.EqualByTypeIffPermutation` | api/eventing/v1alpha2/condition.go:232-265 | for distinct non-empty types that is being a permutation |
| `Conditions.SetCondition` | api/eventing/v1alpha2/condition.go:322-343 | for distinct types the condition is set or added, every other is untouched and the types stay distinct |
| `Conditions.SetConditionReplaces` | api/eventing/v1alpha2/condition.go:322-343 | setting a condition replaces the one of its type and touches no other |
| `Conditions.SetConditionAPIRuleStatus` | api/eventing/v1alpha2/condition.go:211-229 | the new condition comes first and all of other types stay |
| `Conditions.ApiRuleStatusKeepsRequired` | api/eventing/v1alpha2/condition.go:211-229 | each required type still occurs exactly once |
| `SubscriptionStatuses.GetRequiredConditions` | internal/controller/eventing/subscription/eventmesh/reconciler.go:719-739 | exactly the expected types, each with its first present value or its default |
| `SubscriptionStatuses.MarkAllAsNotReady` | pkg/subscriptionmanager/eventmesh/eventmesh.go:172-198 | exactly the ready statuses whose write succeeds are reset, and the hashes of all are kept; the last write decides the outcome |
| `SubscriptionStatuses.WorkingCopy.SyncInitialStatus` | internal/controller/eventing/subscription/eventmesh/reconciler.go:690-716 | each required type occurs once afterwards if and only if the list was not misjudged; hashes are kept; complete conditions are kept and their readiness is corrected; an exact condition on the old conditions and readiness says when the new readiness agrees with the new conditions |
| `SubscriptionStatuses.WorkingCopy.ReplaceStatusCondition` | internal/controller/eventing/subscription/eventmesh/reconciler.go:743-775 | the condition is replaced and ready means that all are true |
| `SubscriptionStatuses.WorkingCopy.SyncEventMeshSubscription` | internal/controller/eventing/subscription/eventmesh/reconciler.go:301-375 | whenever the first condition is synced, ready equals all conditions being true and exactly the three conditions are replaced; otherwise nothing changes; an active subscription is never reported as timed out, and the webhook condition tells whether the last delivery failed |
| `SubscriptionStatuses.CheckLastFailedDelivery` | internal/controller/eventing/subscription/eventmesh/reconciler.go:850-877 | the last delivery failed if there was a failure and no later success; a time that cannot be read counts as one |
| `SubscriptionStatuses.WorkingCopy.Reconcile` | internal/controller/eventing/subscription/eventmesh/reconciler.go:137-187 | when the backend is reached and when the run passes; unless the list is misjudged and not ready, each required type occurs once and the first condition of each tells how its step went, ready means all true if the backend was reached, and what the backend reports is taken over |
| `SubscriptionStatuses.DuplicatesAreMisjudged` | api/eventing/v1alpha2/condition.go:149-161 | five times one required condition passes for the five required ones |
| `SubscriptionStatuses.ReadinessIsTurnedAround` | internal/controller/eventing/subscription/eventmesh/reconciler.go:706-711 | one true condition alone makes an unready status ready, and five times a true one leaves it unready |
| `ListEquality.OwnerReferencesDeepEqual` | pkg/object/equality.go:190-210 | the nested loops decide equal length and inclusion |
| `ListEquality.EnvEqual` | pkg/object/equality.go:313-335 | so do the loops with the flag that is left over |
| `ListEquality.EqualIffPermutation` | pkg/object/equality.go:190-210 | for lists without duplicates that is being a permutation |
| `ListEquality.DistinctIffDecidesPermutation` | pkg/object/equality.go:190-210 | the first list has no duplicates if and only if the loops decide permutation for every second list |
| `ListEquality.InclusionSymmetric` | pkg/object/equality.go:190-210 | hence symmetric |
| `ListEquality.InclusionTransitive` | pkg/object/equality.go:190-210 | hence transitive |
| `ListEquality.DuplicatesBreakSymmetry` | pkg/object/equality.go:195-207 | with duplicates it is not symmetric |
| `Sinks.GetExposedURLFromAPIRule` | pkg/backend/utils/utils.go:54-78 | host and path if some rule has the path of the sink, else the host alone |
| `Sinks.PortIff` | pkg/utils/utils.go:23-48 | the port is the number in the address, or 443 for https and 80 otherwise if there is none or zero; any other text is refused |
| `Sinks.ServiceIff` | internal/controller/eventing/subscription/eventmesh/utils.go:57-64 | name and namespace of the service are the first two labels of the host |
| `Sinks.ExposedUrlMeans` | pkg/backend/utils/utils.go:54-78 | https, the first host of the rule, and the path of the sink if a rule has it |
| `ApiRules.GetSubscriptionsForASvc` | internal/controller/eventing/subscription/eventmesh/reconciler.go:595-625 | exactly the non-deleting subscriptions of the namespace whose sink names the service, in order |
| `ApiRules.FilterSubscriptionsOnPort` | internal/controller/eventing/subscription/eventmesh/reconciler.go:628-651 | exactly those whose sink has the port |
| `ApiRules.SharingMeans` | internal/controller/eventing/subscription/eventmesh/reconciler.go:595-651 | a subscription shares a rule if and only if its sink, read as above, names that service and leads to that port |
| `ApiRules.WithRules` | pkg/object/apirule.go:122-163 | one rule per distinct path in the order of first occurrence |
| `ApiRules.RulesAreExact` | pkg/object/apirule.go:82-163 | no path has two rules, and the paths are exactly those of the sinks |
| `ApiRules.AddressesAgreeIff` | internal/controller/eventing/subscription/eventmesh/utils.go:76-101 | the published and the registered address agree if and only if a rule exposes the path |
| `ApiRules.ExternalSinkMeans` | internal/controller/eventing/subscription/eventmesh/utils.go:76-101 | the published address needs a service, hosts and a sink, and always has the path |
| `ApiRuleReconciler.ApiRuleEqual` | pkg/object/equality.go:156-188 | equality up to the order of owners, blind for hosts and status |
| `ApiRuleReconciler.Reconciler.HandlePreviousAPIRule` | internal/controller/eventing/subscription/eventmesh/reconciler.go:514-592 | the rule is deleted only if the subscription was its sole owner; otherwise it is left as it was or to exactly those who remain, with their paths, and a success does leave it; no other rule changes |
| `ApiRuleReconciler.Reconciler.CreateOrUpdateAPIRule` | internal/controller/eventing/subscription/eventmesh/reconciler.go:413-494 | after success one stored rule is owned by exactly those who share the port of the service and exposes exactly their paths (a stored rule with repeated owners may be kept); unrelated rules are untouched; when every rule has a service it fails only if a call fails or the sink leads to no port of a service; the rule leads to the service and the port that the sink names, with the methods, the access, the gateway and the labels of the source; an existing rule for them is reused; the rule that the subscription used before is given up; a rule that was updated has its authorization policy |
| `ApiRuleReconciler.Reconciler.SyncAPIRule` | internal/controller/eventing/subscription/eventmesh/reconciler.go:378-410 | the address is published only for a ready rule, and agrees with the registered one if and only if a sharing subscription has the path; it passes if and only if the rule is there, ready and complete; which failures may be skipped |
| `ApiRuleReconciler.ValidatedAddressesAgree` | internal/controller/eventing/subscription/validator/spec.go:105-136 | for a validated subscription the two addresses agree |
| `Validation.GetDuplicates` | internal/controller/eventing/subscription/validator/spec.go:161-174 | the loop with a count collects the duplicates |
| `Validation.DuplicatesMembers` | internal/controller/eventing/subscription/validator/spec.go:161-174 | those are exactly the items that occur twice or more, each once |
| `Validation.ValidateTypes` | internal/controller/eventing/subscription/validator/spec.go:62-86 | passes if and only if there are types, all different and each valid; then removing duplicates changes nothing |
| `Validation.ValidTypeIff` | internal/controller/eventing/subscription/validator/spec.go:62-103 | a type is valid by itself if it has a dot, does not start with the reserved prefix in standard mode and makes a valid event |
| `Validation.ValidSinkIff` | internal/controller/eventing/subscription/validator/spec.go:105-136 | a valid sink is http or https, and its host without the port is name.namespace.*svc.cluster.local |
| `Validation.ValidSinkService` | internal/controller/eventing/subscription/validator/spec.go:105-136 | for a valid sink the reconciler finds the service that the validator saw, port or no port |
| `Validation.ShortHostSwallowsPort` | internal/controller/eventing/subscription/eventmesh/utils.go:57-64 | with two labels the namespace would swallow the port |
| `EventTypes.RemoveAllKeepsIff` | pkg/backend/eventtype/parse.go:24-26 | removing the prefix everywhere loses nothing if and only if it does not occur |
| `EventTypes.ParseBuildRoundTrip` | pkg/backend/eventtype/parse.go:19-44 | parsing what was built gives the parts back if and only if the business object has one segment |
| `EventTypes.CleanedShape` | pkg/backend/eventtype/clean.go:43-64 | a cleaned type is built from clean parts |
| `EventTypes.CleanKeepsIff` | pkg/backend/eventtype/clean.go:43-72 | a type built from clean parts is left alone if and only if its prefix does not recur behind itself; without a prefix, if and only if its application has a name |
| `EventTypes.CleanIsIdempotentIff` | pkg/backend/eventtype/clean.go:43-72 | cleaning a cleaned type changes nothing if and only if a prefix does not recur behind itself; without a prefix, if and only if the application of the type is not cleaned away |
| `EventTypes.RecurringPrefixIsLost` | pkg/backend/eventtype/parse.go:24-26 | a clean prefix that recurs behind itself makes the cleaned type come out different |

## Left out

- Watches, informers, metrics, Kubernetes events, logging and signals: input and output.
- Sending events in the callback of a subscriber (only that it finds its sink matters).
- The NATS, HTTP and OAuth clients: small servers stand for them.
- EventMesh entries that the server stores differently from what was sent.
- Conditions and the state of the Eventing resource: the model persists its backend and its hash.
- The rule that only one Eventing resource is allowed, the NATS connection and the watch of the NATS resource.
- Environment variables of the EventMesh manager, other than the configuration it is started with.
- What deployments, services, roles, autoscalers, network and authorization policies contain: constant literals.
- Timeouts: whether the activation of a subscription has timed out is arbitrary, and times are compared as the parser orders them.
- Reading the status of a Subscription back after a failed write, other than as a lost write.
- Several Eventing resources, and a finalizer that somebody else removes.
- Port lists of containers are compared by the same loop as owner references, on name, number and protocol.
- `shortenNameAndAppendHash` and the switches over storage, retention and delivery policies.
- JetStreamSubjects.RevertRoundTrip: models the trimming branch of `revertEventTypeToOriginal`, not the lookup of an original type in the event itself.
