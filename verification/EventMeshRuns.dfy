/** Runs of the EventMesh backend for one subscription, over any number of failures, lost status writes,
    changes of the feature flag and interventions by others. */
module EventMeshRuns {
  import opened Subscriptions
  import opened EventMeshTypes
  import opened EventMeshStates

  /** A run of SyncSubscription with a usable target that ended in `after`; `faults` of its calls failed, and
      its status may have been stored or not.  Or one of the other events, which leave the hashes alone:
      DeleteSubscription and a reset of the status too. */
  datatype Event =
    | Synced(webhookAuth: bool, desired: MeshSubscription, faults: nat, success: bool, stored: bool, after: State)
    | Intervention

  predicate Next(e: Event, s: State, t: State) {
    match e
    case Synced(webhookAuth, desired, faults, success, stored, after) =>
      && desired.report == NO_REPORT
      && (success <==> faults == 0)
      && SyncStep(webhookAuth, s, after, desired, success)
      && t == (if stored then after else after.(hashes := s.hashes))
    case Intervention => EnvironmentStep(s, t)
  }

  ghost predicate Run(states: seq<State>, events: seq<Event>) {
    && |states| == |events| + 1
    && forall i :: 0 <= i < |events| ==> Next(events[i], states[i], states[i + 1])
  }

  predicate Recorded(e: Event) {
    e.Synced? && e.success && e.stored
  }

  /** The credentials of the last run, unless its success was recorded. */
  function Pending(events: seq<Event>): Option<Option<WebhookAuth>> {
    if events == [] then None
    else
      var last := events[|events| - 1];
      if Recorded(last) then None
      else if last.Synced? then Some(last.desired.webhookAuth)
      else Pending(events[..|events| - 1])
  }

  /** Credentials are not reverted to the recorded ones while others are pending. */
  ghost predicate NeverReverted(states: seq<State>, events: seq<Event>)
    requires |states| == |events| + 1
  {
    forall i :: 0 <= i < |events| && events[i].Synced? ==> NotReverted(states[i], Pending(events[..i]), events[i].desired.webhookAuth)
  }

  lemma {:induction false} SafetyOverRuns(states: seq<State>, events: seq<Event>)
    requires Run(states, events) && NeverReverted(states, events) && Sound(states[0], None)
    ensures Sound(states[|events|], Pending(events))
  {
    hide Sound, SyncStep, EnvironmentStep, NotReverted;
    if events != [] {
      var n := |events| - 1;
      var before, init := states[..n + 1], events[..n];
      assert forall i :: 0 <= i < n ==> init[..i] == events[..i] && before[i] == states[i];
      SafetyOverRuns(before, init);
      StepKeepsSound(events, states[n], states[n + 1]);
    }
  }

  lemma StepKeepsSound(events: seq<Event>, s: State, t: State)
    requires events != [] && Next(events[|events| - 1], s, t)
    requires var e, pending := events[|events| - 1], Pending(events[..|events| - 1]);
             Sound(s, pending) && (e.Synced? ==> NotReverted(s, pending, e.desired.webhookAuth))
    ensures Sound(t, Pending(events))
  {
    hide Sound, SyncStep, EnvironmentStep, NotReverted;
    var e, pending := events[|events| - 1], Pending(events[..|events| - 1]);
    if e.Synced? {
      SyncKeepsSound(e.webhookAuth, s, e.after, e.desired, e.success, e.stored, pending);
    } else {
      EnvironmentKeepsSound(s, t, pending);
    }
  }

  /** Convergence under interruption: every run that succeeds leaves the entry as desired and the hashes
      to match, whatever failed before, or finds that the entry vanished while it was patched. */
  lemma EverySuccessConverges(states: seq<State>, events: seq<Event>, i: nat)
    requires Run(states, events) && NeverReverted(states, events) && Sound(states[0], None)
    requires i < |events| && events[i].Synced? && events[i].success
    ensures var e := events[i];
            Converged(e.after, e.desired) || (Vanished(e.after, e.desired) && PlanOf(e.webhookAuth, states[i], e.desired).Patch?)
  {
    hide Sound, SyncStep, EnvironmentStep, NotReverted, Converged, Vanished, PlanOf;
    var before, init := states[..i + 1], events[..i];
    assert forall j :: 0 <= j < i ==> init[..j] == events[..j] && before[j] == states[j];
    SafetyOverRuns(before, init);
    var e := events[i];
    assert Next(e, states[i], states[i + 1]);
    SoundSyncConverges(e.webhookAuth, states[i], e.after, e.desired, Pending(init));
  }

  /** So a run in which no call fails succeeds and converges, after any number of runs that did not. */
  lemma EveryCleanRunConverges(states: seq<State>, events: seq<Event>, i: nat)
    requires Run(states, events) && NeverReverted(states, events) && Sound(states[0], None)
    requires i < |events| && events[i].Synced? && events[i].faults == 0
    ensures var e := events[i];
            && e.success
            && (Converged(e.after, e.desired) || (Vanished(e.after, e.desired) && PlanOf(e.webhookAuth, states[i], e.desired).Patch?))
  {
    hide SyncStep, EnvironmentStep, NotReverted, Sound;
    assert Next(events[i], states[i], states[i + 1]);
    EverySuccessConverges(states, events, i);
  }

  /** Two such runs for the same target, the first of them recorded, converge even if the entry vanished
      during the first. */
  lemma TwoCleanRunsConverge(states: seq<State>, events: seq<Event>, i: nat)
    requires Run(states, events) && NeverReverted(states, events) && Sound(states[0], None)
    requires i + 1 < |events| && events[i].Synced? && events[i + 1].Synced? && events[i + 1].desired == events[i].desired
    requires events[i].faults == 0 && events[i].stored && events[i + 1].faults == 0
    ensures Converged(events[i + 1].after, events[i].desired)
  {
    hide SyncStep, EnvironmentStep, NotReverted, Sound, NeverReverted;
    EveryCleanRunConverges(states, events, i);
    EveryCleanRunConverges(states, events, i + 1);
    assert Next(events[i], states[i], states[i + 1]) && Next(events[i + 1], states[i + 1], states[i + 2]);
    if Converged(states[i + 1], events[i].desired) {
      ConvergedIsKept(events[i + 1].webhookAuth, states[i + 1], events[i].desired);
    }
  }

  /** A subscription that was never synced needs no assumption, whatever the server holds under its name. */
  lemma EveryCleanRunConvergesFromScratch(states: seq<State>, events: seq<Event>, i: nat)
    requires Run(states, events) && NeverReverted(states, events) && states[0].hashes == NO_HASHES
    requires i < |events| && events[i].Synced? && events[i].faults == 0
    ensures var e := events[i];
            && e.success
            && (Converged(e.after, e.desired) || (Vanished(e.after, e.desired) && PlanOf(e.webhookAuth, states[i], e.desired).Patch?))
  {
    hide Sound, SyncStep, EnvironmentStep, NotReverted, Converged, Vanished, PlanOf;
    InitiallySound(states[0].entry);
    EveryCleanRunConverges(states, events, i);
  }

  /** Without the proviso it fails: credentials that are reverted after a failed change are taken to be in
      place, though the entry may be paused and carry the others. */
  lemma RevertedCredentialsAreMissed(desired: MeshSubscription, other: Option<WebhookAuth>)
    requires desired.report == NO_REPORT && desired.webhookAuth != other
    ensures var s := State(HashesOf(desired), Some(desired));
            var t := State(HashesOf(desired), Some(desired.(webhookAuth := other, report := NO_REPORT.(status := PAUSED))));
            && Converged(s, desired)
            && SyncStep(true, s, t, desired.(webhookAuth := other), false)
            && SyncStep(true, t, t, desired, true)
            && !Converged(t, desired) && !Vanished(t, desired)
  {
    var changed := desired.(webhookAuth := other);
    var s := State(HashesOf(desired), Some(desired));
    assert Cleaned(changed) == Cleaned(desired);
    assert PlanOf(true, s, changed).Patch?;
  }

  lemma {:induction false} HashesStayUnlessRecorded(states: seq<State>, events: seq<Event>)
    requires Run(states, events)
    requires forall i :: 0 <= i < |events| ==> !Recorded(events[i])
    ensures states[|events|].hashes == states[0].hashes
  {
    hide PlanOf;
    if events != [] {
      var n := |events| - 1;
      HashesStayUnlessRecorded(states[..n + 1], events[..n]);
      assert Next(events[n], states[n], states[n + 1]);
    }
  }

  /** A change of credentials is redone by every run until one success is recorded: no run before
      that takes them to be in place. */
  lemma UnrecordedChangeIsRedone(states: seq<State>, events: seq<Event>, webhookAuth: bool, desired: MeshSubscription)
    requires Run(states, events) && Coherent(states[0].hashes)
    requires forall i :: 0 <= i < |events| ==> !Recorded(events[i])
    requires states[0].hashes.auth != AuthHash(desired.webhookAuth)
    ensures !PlanOf(webhookAuth, states[|events|], desired).Keep?
  {
    HashesStayUnlessRecorded(states, events);
  }

  /** A second run changes nothing if and only if the entry did not vanish during the first. */
  lemma SecondSyncIsIdleIff(first: bool, second: bool, s: State, t: State, u: State,
                            desired: MeshSubscription, success: bool, pending: Option<Option<WebhookAuth>>)
    requires Sound(s, pending) && NotReverted(s, pending, desired.webhookAuth) && desired.report == NO_REPORT
    requires SyncStep(first, s, t, desired, true) && SyncStep(second, t, u, desired, success)
    ensures PlanOf(second, t, desired).Keep? <==> t.entry.Some?
    ensures t.entry.Some? ==> u == t
  {
    SoundSyncConverges(first, s, t, desired, pending);
    if Converged(t, desired) {
      KeptStaysConverged(second, t, u, desired, success);
    }
  }

  /** As long as nobody removes or edits the entry, no later run does more than read, whatever is reported
      and however often the status is reset with its hashes kept. */
  lemma {:induction false} QuietUntilEdited(states: seq<State>, events: seq<Event>, desired: MeshSubscription)
    requires Run(states, events) && Converged(states[0], desired) && desired.report == NO_REPORT
    requires forall i :: 0 <= i <= |events| ==> Accepted(states[i])
    requires forall i :: 0 <= i < |events| && events[i].Synced? ==> events[i].desired == desired
    ensures Converged(states[|events|], desired)
    ensures forall i :: 0 <= i < |events| && events[i].Synced? ==> PlanOf(events[i].webhookAuth, states[i], desired).Keep?
  {
    hide PlanOf, Converged, HashesOf, SyncStep, EnvironmentStep;
    if events != [] {
      var n := |events| - 1;
      var s, t, e := states[n], states[n + 1], events[n];
      QuietUntilEdited(states[..n + 1], events[..n], desired);
      assert Next(e, s, t);
      if e.Synced? {
        KeptStaysConverged(e.webhookAuth, s, e.after, desired, e.success);
        assert t == s;
      } else {
        ReportKeepsConverged(s, t, desired);
      }
    }
  }

  lemma KeptStaysConverged(webhookAuth: bool, s: State, t: State, desired: MeshSubscription, success: bool)
    requires Converged(s, desired) && desired.report == NO_REPORT && SyncStep(webhookAuth, s, t, desired, success)
    ensures t == s && PlanOf(webhookAuth, s, desired).Keep?
  {
    ConvergedIsKept(webhookAuth, s, desired);
    KeptContent(webhookAuth, s, desired);
  }

  lemma ReportKeepsConverged(s: State, t: State, desired: MeshSubscription)
    requires Converged(s, desired) && EnvironmentStep(s, t) && Accepted(t)
    ensures Converged(t, desired)
  {
    assert s.entry.value.(report := NO_REPORT).webhookAuth == desired.webhookAuth;
  }
}
