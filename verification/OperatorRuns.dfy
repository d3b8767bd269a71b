/** Runs of the operator: reconciliations, deletions, restarts of the process and changes of the spec. */
module OperatorRuns {
  import opened Strings
  import opened Subscriptions
  import opened OperatorStates

  datatype Event =
    | Reconciled(trace: Trace)
    | DeletionTried(gone: bool)
    | Restarted
    | SpecChanged

  predicate Next(e: Event, s: State, t: State) {
    match e
    case Reconciled(trace) => ReconcileStep(s, trace, t)
    case DeletionTried(gone) => DeletionStep(s, t, gone)
    case Restarted => t == s.(nats := NO_NATS, mesh := NO_MESH, cache := NO_CREDENTIALS)
    case SpecChanged => t == s.(spec := t.spec)
  }

  ghost predicate Run(states: seq<State>, events: seq<Event>) {
    && |states| == |events| + 1
    && forall i :: 0 <= i < |events| ==> Next(events[i], states[i], states[i + 1])
  }

  predicate Initial(s: State) {
    s.nats == NO_NATS && s.mesh == NO_MESH && s.cache == NO_CREDENTIALS && !s.overlapped
  }

  predicate Wants(s: State, backend: string) {
    s.spec.Some? && s.spec.value.backendType == backend
  }

  // ---- at most one backend ----

  /** Every started manager is that of the persisted backend, or of the wanted one. */
  predicate Accounted(s: State) {
    && (s.nats.started ==> s.status.activeBackend == NATS || Wants(s, NATS))
    && (s.mesh.started ==> s.status.activeBackend == EVENT_MESH || Wants(s, EVENT_MESH))
  }

  predicate Safe(s: State) {
    Wired(s) && Accounted(s) && !(s.nats.started && s.mesh.started) && !s.overlapped
  }

  /** A manager was started, but the status that says so was not stored. */
  predicate Lagging(s: State) {
    (s.nats.started && s.status.activeBackend != NATS) || (s.mesh.started && s.status.activeBackend != EVENT_MESH)
  }

  /** What operators have to respect: the wanted backend changes only when the status has caught up, or to
      the backend that is started; and a resource goes only while its spec names the backend that is started. */
  predicate Respectful(e: Event, s: State, t: State) {
    match e
    case SpecChanged => !Lagging(s) || (s.nats.started && Wants(t, NATS)) || (s.mesh.started && Wants(t, EVENT_MESH))
    case DeletionTried(gone) => gone ==> (s.nats.started ==> Wants(s, NATS)) && (s.mesh.started ==> s.spec.Some? && !Wants(s, NATS))
    case _ => true
  }

  lemma NatsRunKeepsSafe(s: State, t: State, found: Inputs, started: bool)
    requires Wired(s) && !s.mesh.started && !s.overlapped && Wants(s, NATS)
    requires NatsBackendStep(s, t, found, started)
    ensures Safe(t)
  {
    hide HashOfMesh;
  }

  lemma MeshRunKeepsSafe(s: State, mid: State, t: State, found: Inputs, synced: bool, started: bool)
    requires Wired(s) && !s.nats.started && !s.overlapped && Wants(s, EVENT_MESH)
    requires MeshBackendStep(s, mid, t, found, synced, started)
    ensures Safe(t)
  {
    hide HashOfMesh;
    CredentialsKeepWired(s, found.reply, mid, synced);
    hide CredentialsStep;
  }

  /** No reconciliation breaks the safety, whatever fails in it. */
  lemma ReconcileKeepsSafe(s: State, trace: Trace, t: State)
    requires Safe(s) && ReconcileStep(s, trace, t)
    ensures Safe(t)
  {
    hide NatsBackendStep, MeshBackendStep, IsBlank;
    if !HasEmptyBackend(s.spec) {
      SwitchKeepsWired(s, trace.switched, trace.switchedOk);
      if trace.switchedOk && Wants(s, NATS) {
        NatsRunKeepsSafe(trace.switched, t, trace.found, trace.started);
      } else if trace.switchedOk && Wants(s, EVENT_MESH) {
        MeshRunKeepsSafe(trace.switched, trace.mid, t, trace.found, trace.synced, trace.started);
      }
    }
  }

  /** Whether a change of the spec is safe depends on the lag alone and on what is wanted now. */
  lemma SpecChangeIsSafeIff(s: State, t: State)
    requires Safe(s) && Next(SpecChanged, s, t)
    ensures Safe(t) <==> Respectful(SpecChanged, s, t)
  {
  }

  /** A deletion is safe if and only if it is not complete or no manager of the other backend was started. */
  lemma DeletionIsSafeIff(s: State, t: State, gone: bool)
    requires Safe(s) && DeletionStep(s, t, gone)
    ensures Safe(t) <==> Respectful(DeletionTried(gone), s, t)
  {
  }

  /** One step from a safe state is safe if and only if it is respectful. */
  lemma StepIsSafeIff(e: Event, s: State, t: State)
    requires Safe(s) && Next(e, s, t)
    ensures Safe(t) <==> Respectful(e, s, t)
  {
    hide ReconcileStep, DeletionStep;
    match e
    case Reconciled(trace) => ReconcileKeepsSafe(s, trace, t);
    case DeletionTried(gone) => DeletionIsSafeIff(s, t, gone);
    case Restarted =>
    case SpecChanged => SpecChangeIsSafeIff(s, t);
  }

  /** The managers of every state of a run are accounted for, and at most one is started, if and only if
      operators respect the provisos all along. */
  lemma {:induction false} AccountedIffRespectful(states: seq<State>, events: seq<Event>)
    requires Run(states, events) && Initial(states[0])
    ensures (forall i :: 0 <= i < |states| ==> Safe(states[i])) <==>
            (forall i :: 0 <= i < |events| ==> Respectful(events[i], states[i], states[i + 1]))
  {
    hide Safe, Respectful, Next;
    if events == [] {
      InitiallySafe(states[0]);
    } else {
      var n := |events| - 1;
      var before, init := states[..n + 1], events[..n];
      AccountedIffRespectful(before, init);
      assert Next(events[n], states[n], states[n + 1]);
      if Safe(states[n]) {
        StepIsSafeIff(events[n], states[n], states[n + 1]);
      }
      assert forall i :: 0 <= i <= n ==> before[i] == states[i];
      assert forall i :: 0 <= i < n ==> init[i] == events[i];
    }
  }

  /** At most one backend runs: if operators respect the provisos, then in every state of every run at most
      one manager runs, at most one is started, and none was ever started beside a running one. */
  lemma AtMostOneBackend(states: seq<State>, events: seq<Event>, i: nat)
    requires Run(states, events) && Initial(states[0]) && i < |states|
    requires forall j :: 0 <= j < |events| ==> Respectful(events[j], states[j], states[j + 1])
    ensures !(states[i].nats.running && states[i].mesh.running)
    ensures !(states[i].nats.started && states[i].mesh.started)
    ensures !states[i].overlapped
  {
    AccountedIffRespectful(states, events);
    hide Respectful, Next;
    assert Safe(states[i]);
  }

  lemma InitiallySafe(s: State)
    requires Initial(s)
    ensures Safe(s)
  {
  }

  /** Whatever operators do, a started manager exists and a running one is flagged as started. */
  lemma {:induction false} StartedManagersExist(states: seq<State>, events: seq<Event>)
    requires Run(states, events) && Initial(states[0])
    ensures Wired(states[|events|])
  {
    hide ReconcileStep, DeletionStep, Wired;
    if events != [] {
      var n := |events| - 1;
      StartedManagersExist(states[..n + 1], events[..n]);
      assert Next(events[n], states[n], states[n + 1]);
      StepKeepsWired(events[n], states[n], states[n + 1]);
    } else {
      InitiallyWired(states[0]);
    }
  }

  lemma InitiallyWired(s: State)
    requires Initial(s)
    ensures Wired(s)
  {
  }

  lemma StepKeepsWired(e: Event, s: State, t: State)
    requires Wired(s) && Next(e, s, t)
    ensures Wired(t)
  {
    hide HashOfMesh, IsBlank;
    match e
    case Reconciled(trace) => {
      if !HasEmptyBackend(s.spec) {
        SwitchKeepsWired(s, trace.switched, trace.switchedOk);
        hide SwitchStep;
        if trace.switchedOk && !Wants(s, NATS) && Wants(s, EVENT_MESH) {
          MeshStepKeepsWired(trace.switched, trace.mid, t, trace.found, trace.synced, trace.started);
        }
        hide MeshBackendStep;
      }
    }
    case _ =>
  }

  lemma MeshStepKeepsWired(s: State, mid: State, t: State, found: Inputs, synced: bool, started: bool)
    requires Wired(s) && MeshBackendStep(s, mid, t, found, synced, started)
    ensures Wired(t)
  {
    hide HashOfMesh;
    CredentialsKeepWired(s, found.reply, mid, synced);
    hide CredentialsStep;
  }

  // ---- two backends ----

  /** Some reconciliation leaves both managers running. */
  ghost predicate MayOverlap(s: State) {
    exists trace: Trace, t: State :: ReconcileStep(s, trace, t) && t.nats.running && t.mesh.running
  }

  /** The started manager is alone; nothing is said about what the status or the spec name. */
  predicate Alone(s: State) {
    Wired(s) && !(s.nats.started && s.mesh.started)
  }

  lemma NatsAloneMayOverlap(s: State, found: Inputs)
    requires Alone(s) && s.nats.running && Wants(s, EVENT_MESH) && s.status.activeBackend != NATS && found.reply.Secret?
    ensures MayOverlap(s)
  {
    hide HashOfMesh;
    var credentials := if s.cache.Initialized() then s.cache else found.reply.credentials;
    var reply := Secret(credentials);
    var inputs := found.(reply := reply);
    var mid := s.(cache := credentials);
    var kept := KeptMesh(s.mesh, s.status.configHash, found.mesh);
    var manager := MeshManager(if kept.Some? then kept.value.domain else found.mesh.domain, Some((found.mesh, credentials)));
    var t := mid.(mesh := MeshPart(Some(manager), true, true));
    var trace := Trace(s, true, mid, true, true, inputs);
    assert CredentialsStep(s.mesh, s.cache, reply, mid.mesh, mid.cache, true);
    assert MeshStep(mid.mesh, s.status.configHash, found.mesh, mid.cache, t.mesh, true);
    assert MeshBackendStep(s, mid, t, inputs, true, true);
    assert s.spec.value.backendType[0] == 'E' && 'E' in s.spec.value.backendType && |NATS| != |EVENT_MESH|;
    assert ReconcileStep(s, trace, t);
  }

  lemma MeshAloneMayOverlap(s: State, found: Inputs)
    requires Alone(s) && s.mesh.running && Wants(s, NATS) && s.status.activeBackend in {"", NATS}
    ensures MayOverlap(s)
  {
    var kept := KeptNats(s.nats, s.status.configHash, found.nats);
    var t := s.(nats := NatsPart(Some(if kept.Some? then kept.value else found.nats), true, true));
    var trace := Trace(s, true, s, false, true, found);
    assert NatsStep(s.nats, s.status.configHash, found.nats, t.nats, true);
    assert NatsBackendStep(s, t, found, true);
    assert s.spec.value.backendType[0] == 'N' && 'N' in s.spec.value.backendType;
    assert ReconcileStep(s, trace, t);
  }

  /** After a change of the wanted backend to EventMesh a reconciliation may leave NATS running beside it, if
      and only if the status does not name NATS. */
  lemma SwitchToMeshOverlapsIff(s: State, backend: Backend, found: Inputs)
    requires Safe(s) && s.nats.running && backend.backendType == EVENT_MESH && found.reply.Secret?
    ensures MayOverlap(s.(spec := Some(backend))) <==> s.status.activeBackend != NATS
  {
    var u := s.(spec := Some(backend));
    if s.status.activeBackend != NATS {
      NatsAloneMayOverlap(u, found);
    } else {
      forall trace, t | ReconcileStep(u, trace, t)
        ensures !(t.nats.running && t.mesh.running)
      {
        assert Safe(u);
        ReconcileKeepsSafe(u, trace, t);
      }
    }
  }

  /** After a change to NATS a reconciliation may leave EventMesh running beside it, if and only if the status
      names no backend, or NATS already: any other name stops EventMesh. */
  lemma SwitchToNatsOverlapsIff(s: State, backend: Backend, found: Inputs)
    requires Safe(s) && s.mesh.running && backend.backendType == NATS
    ensures MayOverlap(s.(spec := Some(backend))) <==> s.status.activeBackend in {"", NATS}
  {
    var u := s.(spec := Some(backend));
    if s.status.activeBackend in {"", NATS} {
      MeshAloneMayOverlap(u, found);
    } else {
      forall trace, t | ReconcileStep(u, trace, t)
        ensures !(t.nats.running && t.mesh.running)
      {
        OtherNameStopsMesh(u, trace, t);
      }
    }
  }

  lemma OtherNameStopsMesh(s: State, trace: Trace, t: State)
    requires Alone(s) && s.mesh.started && Wants(s, NATS) && s.status.activeBackend !in {"", NATS} && ReconcileStep(s, trace, t)
    ensures !(t.nats.running && t.mesh.running)
  {
    hide NatsStep, IsBlank;
  }

  /** A resource that goes while a manager runs that its deletion does not stop leaves that manager behind.
      A reconciliation of the next resource may then leave two running if and only if it wants the other one. */
  lemma UnsafeDeletionOverlapsIff(s: State, t: State, next: Backend, found: Inputs)
    requires Safe(s) && DeletionStep(s, t, true) && found.reply.Secret? && next.backendType in {NATS, EVENT_MESH}
    ensures MayOverlap(t.(spec := Some(next))) <==>
              (t.nats.running && next.backendType == EVENT_MESH) || (t.mesh.running && next.backendType == NATS)
    ensures t.nats.running || t.mesh.running ==> !Respectful(DeletionTried(true), s, t)
  {
    DeletionIsSafeIff(s, t, true);
    var u := t.(spec := Some(next));
    if t.nats.running && next.backendType == EVENT_MESH {
      NatsAloneMayOverlap(u, found);
    } else if t.mesh.running && next.backendType == NATS {
      MeshAloneMayOverlap(u, found);
    } else {
      forall trace, v | ReconcileStep(u, trace, v)
        ensures !(v.nats.running && v.mesh.running)
      {
        OneWantedStaysAlone(u, trace, v);
      }
    }
  }

  /** Without a status a run touches the manager of the wanted backend only. */
  lemma OneWantedStaysAlone(s: State, trace: Trace, t: State)
    requires Wired(s) && s.status.activeBackend == "" && ReconcileStep(s, trace, t)
    requires (Wants(s, NATS) && !s.mesh.running) || (Wants(s, EVENT_MESH) && !s.nats.running)
    ensures !(t.nats.running && t.mesh.running)
  {
    hide NatsStep, MeshStep, CredentialsStep, IsBlank, HashOfMesh;
  }

  // ---- freshness of the managers ----

  /** The recorded hash says that a manager for `config` is in place, but it was built from another. */
  predicate StaleNats(n: NatsPart, hash: ConfigHash, config: NatsConfig) {
    hash == NatsHash(config) && n.manager.Some? && n.manager.value != config
  }

  /** A run that (re)starts the NATS manager leaves one for the current configuration, unless the hash
      vouches for another. */
  lemma NatsFreshIff(n: NatsPart, hash: ConfigHash, config: NatsConfig, m: NatsPart)
    requires NatsStep(n, hash, config, m, true)
    ensures m.started && (m.manager == Some(config) <==> !StaleNats(n, hash, config))
    ensures m.running <==> !(n.started && !n.running && KeptNats(n, hash, config).Some?)
  {
  }

  /** The hash vouches for another when the configuration is changed, the start fails, and the change is
      reverted. */
  lemma RevertedConfigIsMissed(before: NatsConfig, changed: NatsConfig)
    requires before != changed
    ensures var failed := NatsPart(Some(changed), false, false);
            && NatsStep(NatsPart(Some(before), true, true), NatsHash(before), changed, failed, false)
            && NatsStep(failed, NatsHash(before), before, NatsPart(Some(changed), true, true), true)
  {
  }

  predicate IsNatsRun(e: Event) {
    e.Reconciled? && e.trace.switchedOk && Wants(e.trace.switched, NATS)
  }

  predicate IsMeshRun(e: Event) {
    e.Reconciled? && e.trace.switchedOk && Wants(e.trace.switched, EVENT_MESH)
  }

  /** The configuration of the last NATS run, unless its success was recorded or the process was restarted. */
  function PendingNats(states: seq<State>, events: seq<Event>): Option<NatsConfig>
    requires |states| == |events| + 1
  {
    if events == [] then None
    else
      var n := |events| - 1;
      var last := events[n];
      if last.Restarted? then None
      else if IsNatsRun(last) then
        if last.trace.started && states[n + 1].status.configHash == NatsHash(last.trace.found.nats) then None
        else Some(last.trace.found.nats)
      else PendingNats(states[..n + 1], events[..n])
  }

  /** While a configuration is pending, the current one is not reverted to the recorded one. */
  predicate NatsNotReverted(s: State, pending: Option<NatsConfig>, config: NatsConfig) {
    pending in {None, Some(config)} || s.status.configHash != NatsHash(config)
  }

  ghost predicate NatsNeverReverted(states: seq<State>, events: seq<Event>)
    requires |states| == |events| + 1
  {
    forall i :: 0 <= i < |events| && IsNatsRun(events[i]) ==>
      NatsNotReverted(states[i], PendingNats(states[..i + 1], events[..i]), events[i].trace.found.nats)
  }

  /** Only while another configuration than the recorded one is pending can the recorded hash vouch for a
      manager that was built from another. */
  predicate NatsClean(s: State, pending: Option<NatsConfig>) {
    s.status.configHash.NatsHash? && StaleNats(s.nats, s.status.configHash, s.status.configHash.config) ==>
      pending.Some? && pending.value != s.status.configHash.config
  }

  lemma NatsRunKeepsClean(s: State, t: State, found: Inputs, started: bool, pending: Option<NatsConfig>)
    requires NatsClean(s, pending) && NatsNotReverted(s, pending, found.nats) && NatsBackendStep(s, t, found, started)
    ensures started ==> t.nats.started && t.nats.manager == Some(found.nats)
    ensures NatsClean(t, if started && t.status.configHash == NatsHash(found.nats) then None else Some(found.nats))
  {
  }

  lemma SwitchKeepsClean(s: State, t: State, success: bool, pending: Option<NatsConfig>)
    requires s.spec.Some? && NatsClean(s, pending) && SwitchStep(s, t, success)
    ensures NatsClean(t, pending) && t.status == s.status && t.spec == s.spec
  {
  }

  lemma NatsStepKeepsClean(e: Event, s: State, t: State, pending: Option<NatsConfig>)
    requires NatsClean(s, pending) && Next(e, s, t)
    requires IsNatsRun(e) ==> NatsNotReverted(s, pending, e.trace.found.nats)
    ensures NatsClean(t, if e.Restarted? then None
                         else if !IsNatsRun(e) then pending
                         else if e.trace.started && t.status.configHash == NatsHash(e.trace.found.nats) then None
                         else Some(e.trace.found.nats))
    ensures IsNatsRun(e) && e.trace.started ==> t.nats.started && t.nats.manager == Some(e.trace.found.nats)
  {
    hide HashOfMesh, IsBlank, CredentialsStep, MeshStep;
    match e
    case Reconciled(trace) => {
      if !HasEmptyBackend(s.spec) {
        SwitchKeepsClean(s, trace.switched, trace.switchedOk, pending);
        hide SwitchStep;
        if IsNatsRun(e) {
          NatsRunKeepsClean(trace.switched, t, trace.found, trace.started, pending);
          hide NatsBackendStep;
        } else if IsMeshRun(e) {
          MeshRunLeavesNats(trace.switched, trace.mid, t, trace.found, trace.synced, trace.started);
        }
        hide MeshBackendStep;
      }
    }
    case _ =>
  }

  lemma MeshRunLeavesNats(s: State, mid: State, t: State, found: Inputs, synced: bool, started: bool)
    requires MeshBackendStep(s, mid, t, found, synced, started)
    ensures t.nats == s.nats && (t.status.configHash == s.status.configHash || !t.status.configHash.NatsHash?)
  {
    hide CredentialsStep, MeshStep, MeshText;
  }

  lemma {:induction false} NatsCleanOverRuns(states: seq<State>, events: seq<Event>)
    requires Run(states, events) && Initial(states[0]) && NatsNeverReverted(states, events)
    ensures NatsClean(states[|events|], PendingNats(states, events))
  {
    hide ReconcileStep, DeletionStep, NatsClean;
    if events != [] {
      var n := |events| - 1;
      var before, init := states[..n + 1], events[..n];
      assert forall i :: 0 <= i < n ==> before[..i + 1] == states[..i + 1] && init[..i] == events[..i];
      NatsCleanOverRuns(before, init);
      assert Next(events[n], states[n], states[n + 1]);
      NatsStepKeepsClean(events[n], states[n], states[n + 1], PendingNats(before, init));
    } else {
      InitiallyNatsClean(states[0]);
    }
  }

  lemma InitiallyNatsClean(s: State)
    requires Initial(s)
    ensures NatsClean(s, None)
  {
  }

  /** Every run that ends with the NATS manager started has one for the current configuration. */
  lemma NatsManagerIsFresh(states: seq<State>, events: seq<Event>, i: nat)
    requires Run(states, events) && Initial(states[0]) && NatsNeverReverted(states, events)
    requires i < |events| && IsNatsRun(events[i]) && events[i].trace.started
    ensures states[i + 1].nats.started && states[i + 1].nats.manager == Some(events[i].trace.found.nats)
  {
    hide ReconcileStep, DeletionStep, NatsClean;
    var before, init := states[..i + 1], events[..i];
    assert forall j :: 0 <= j < i ==> before[..j + 1] == states[..j + 1] && init[..j] == events[..j];
    NatsCleanOverRuns(before, init);
    assert Next(events[i], states[i], states[i + 1]);
    NatsStepKeepsClean(events[i], states[i], states[i + 1], PendingNats(before, init));
  }

  /** The stop of the NATS manager failed in the step `e`, after the manager was shut down. */
  predicate NatsStopFailed(s: State, t: State) {
    s.nats.running && t.nats.started && !t.nats.running
  }

  /** Why that stop was tried is no longer so in the run `later`: the resource was to be deleted, or another
      backend was wanted, or another configuration was found. */
  predicate NatsStopAbandoned(e: Event, s: State, t: State, later: Event)
    requires later.Reconciled?
  {
    && NatsStopFailed(s, t)
    && (e.DeletionTried? || (e.Reconciled? && (!Wants(s, NATS) || e.trace.found.nats != later.trace.found.nats)))
  }

  /** Such a manager is reported as started: its stop failed, and then the configuration is found unchanged. */
  lemma AbandonedStopIsMissed(config: NatsConfig)
    ensures var running, dead := NatsPart(Some(config), true, true), NatsPart(Some(config), true, false);
            NatsStop(running, dead, false) && NatsStep(dead, NatsHash(config), config, dead, true)
  {
  }

  /** As long as a manager is flagged as started but does not run, the hash is not that of the configuration
      for which its stop was tried. */
  ghost predicate NatsCauseKnown(states: seq<State>, events: seq<Event>, n: nat)
    requires |states| == |events| + 1 && n < |states|
  {
    states[n].nats.started && !states[n].nats.running ==>
      exists j :: 0 <= j < n && NatsCause(events[j], states[j], states[j + 1], states[n])
  }

  predicate NatsCause(e: Event, s: State, t: State, now: State) {
    && NatsStopFailed(s, t)
    && (e.DeletionTried? || (e.Reconciled? && (!Wants(s, NATS) || now.status.configHash != NatsHash(e.trace.found.nats))))
  }

  lemma NatsStepHasCause(e: Event, s: State, t: State)
    requires Wired(s) && Next(e, s, t) && t.nats.started && !t.nats.running
    ensures s.nats.started
    ensures s.nats.running ==> NatsCause(e, s, t, t)
    ensures !s.nats.running ==> forall e', s', t' :: NatsCause(e', s', t', s) ==> NatsCause(e', s', t', t)
  {
    hide HashOfMesh, IsBlank, CredentialsStep, MeshStep;
    match e
    case Reconciled(trace) => {
      if !HasEmptyBackend(s.spec) {
        SwitchHasCause(s, trace.switched, trace.switchedOk);
        hide SwitchStep;
        if IsMeshRun(e) {
          MeshRunLeavesNats(trace.switched, trace.mid, t, trace.found, trace.synced, trace.started);
        }
        hide MeshBackendStep;
      }
    }
    case _ =>
  }

  lemma SwitchHasCause(s: State, t: State, success: bool)
    requires s.spec.Some? && Wired(s) && SwitchStep(s, t, success)
    ensures t.status == s.status && t.spec == s.spec
    ensures t.nats.started ==> t.nats.manager == s.nats.manager && s.nats.started
    ensures t.nats.started && t.nats != s.nats ==> !success && !Wants(s, NATS) && t.nats == s.nats.(running := false)
    ensures success && Wants(s, NATS) ==> t.nats == s.nats
  {
  }

  lemma {:induction false} NatsCauseOverRuns(states: seq<State>, events: seq<Event>, n: nat)
    requires Run(states, events) && Initial(states[0]) && n < |states|
    ensures NatsCauseKnown(states, events, n)
  {
    hide Next, NatsCause, Wired;
    if n > 0 {
      NatsCauseOverRuns(states, events, n - 1);
      StartedManagersExist(states[..n], events[..n - 1]);
      var s, t := states[n - 1], states[n];
      if t.nats.started && !t.nats.running {
        assert Next(events[n - 1], s, t);
        NatsStepHasCause(events[n - 1], s, t);
        if !s.nats.running {
          var j :| 0 <= j < n - 1 && NatsCause(events[j], states[j], states[j + 1], s);
          assert NatsCause(events[j], states[j], states[j + 1], t);
        }
      }
    }
  }

  /** No run that succeeds reports a manager that does not run, unless an earlier stop was abandoned by
      taking back what it was tried for. */
  lemma DeadNatsManagerWasAbandoned(states: seq<State>, events: seq<Event>, i: nat)
    requires Run(states, events) && Initial(states[0])
    requires i < |events| && IsNatsRun(events[i]) && events[i].trace.started && !states[i + 1].nats.running
    ensures exists j :: 0 <= j < i && NatsStopAbandoned(events[j], states[j], states[j + 1], events[i])
  {
    var s, t := states[i], states[i + 1];
    NatsCauseOverRuns(states, events, i);
    StartedManagersExist(states[..i + 1], events[..i]);
    assert Next(events[i], s, t);
    DeadSuccessKeeps(events[i], s, t);
    var j :| 0 <= j < i && NatsCause(events[j], states[j], states[j + 1], s);
    assert NatsStopAbandoned(events[j], states[j], states[j + 1], events[i]);
  }

  lemma DeadSuccessKeeps(e: Event, s: State, t: State)
    requires Wired(s) && Next(e, s, t) && IsNatsRun(e) && e.trace.started && !t.nats.running
    ensures s.nats.started && !s.nats.running && s.status.configHash == NatsHash(e.trace.found.nats)
  {
    hide HashOfMesh, IsBlank;
    SwitchHasCause(s, e.trace.switched, true);
  }

  /** The same for EventMesh; here a change after a failed start is enough to go wrong: the manager that was
      built for the old domain is started under the hash of the new one. */
  lemma ChangedDomainIsMissed(hash: ConfigHash, first: MeshConfig, second: MeshConfig, cache: Credentials)
    requires first.domain != second.domain && hash != HashOfMesh(second)
    ensures var failed := MeshPart(Some(MeshManager(first.domain, None)), false, false);
            && MeshStep(NO_MESH, hash, first, cache, failed, false)
            && MeshStep(failed, hash, second, cache, MeshPart(Some(MeshManager(first.domain, Some((second, cache)))), true, true), true)
  {
    hide HashOfMesh;
  }

  predicate BuiltFor(m: MeshManager, config: MeshConfig) {
    m.domain == config.domain && m.startedWith.Some? && m.startedWith.value.0 == config
  }

  /** A run that (re)starts the EventMesh manager leaves one for the current configuration, unless it kept
      one that is not: one not yet started for another domain, or one that the hash vouches for. */
  lemma MeshFreshIff(n: MeshPart, hash: ConfigHash, config: MeshConfig, cache: Credentials, m: MeshPart)
    requires MeshStep(n, hash, config, cache, m, true)
    ensures m.started
    ensures BuiltFor(m.manager.value, config) <==>
            var kept := KeptMesh(n, hash, config);
            kept.Some? ==> if n.started then BuiltFor(kept.value, config) else kept.value.domain == config.domain
    ensures m.running <==> !(n.started && !n.running && KeptMesh(n, hash, config).Some?)
  {
    hide HashOfMesh;
  }

  function PendingMesh(states: seq<State>, events: seq<Event>): Option<MeshConfig>
    requires |states| == |events| + 1
  {
    if events == [] then None
    else
      var n := |events| - 1;
      var last := events[n];
      if last.Restarted? then None
      else if IsMeshRun(last) then
        if last.trace.started && states[n + 1].status.configHash == HashOfMesh(last.trace.found.mesh) then None
        else Some(last.trace.found.mesh)
      else PendingMesh(states[..n + 1], events[..n])
  }

  /** While a configuration is pending, its domain is kept, and the current configuration is not reverted to
      the recorded one. */
  predicate MeshNotReverted(s: State, pending: Option<MeshConfig>, config: MeshConfig) {
    pending in {None, Some(config)} || (config.domain == pending.value.domain && s.status.configHash != HashOfMesh(config))
  }

  ghost predicate MeshNeverReverted(states: seq<State>, events: seq<Event>)
    requires |states| == |events| + 1
  {
    forall i :: 0 <= i < |events| && IsMeshRun(events[i]) ==>
      && BracketFree(events[i].trace.found.mesh)
      && MeshNotReverted(states[i], PendingMesh(states[..i + 1], events[..i]), events[i].trace.found.mesh)
  }

  /** A manager that is not started is one for the pending domain; a started one is for the recorded hash,
      unless another configuration is pending. */
  predicate MeshClean(s: State, pending: Option<MeshConfig>) {
    && (s.mesh.manager.Some? && !s.mesh.started ==> pending.Some? && pending.value.domain == s.mesh.manager.value.domain)
    && (s.mesh.manager.Some? && s.mesh.started ==>
          var m := s.mesh.manager.value;
          && m.startedWith.Some? && BuiltFor(m, m.startedWith.value.0) && BracketFree(m.startedWith.value.0)
          && (s.status.configHash.MeshHash? && s.status.configHash != HashOfMesh(m.startedWith.value.0) ==>
                pending.Some? && s.status.configHash != HashOfMesh(pending.value)))
  }

  lemma MeshRunKeepsClean(s: State, mid: State, t: State, found: Inputs, synced: bool, started: bool, pending: Option<MeshConfig>)
    requires Wired(s) && MeshClean(s, pending) && MeshNotReverted(s, pending, found.mesh) && BracketFree(found.mesh)
    requires MeshBackendStep(s, mid, t, found, synced, started)
    ensures started ==> t.mesh.started && t.mesh.manager.Some? && BuiltFor(t.mesh.manager.value, found.mesh)
    ensures MeshClean(t, if started && t.status.configHash == HashOfMesh(found.mesh) then None else Some(found.mesh))
  {
    hide MeshText, BracketFree;
    assert MeshClean(mid, pending);
    CredentialsKeepWired(s, found.reply, mid, synced);
    hide CredentialsStep;
    if s.mesh.manager.Some? && s.mesh.manager.value.startedWith.Some? && s.mesh.started {
      var config := s.mesh.manager.value.startedWith.value.0;
      if MeshText(config) == MeshText(found.mesh) {
        MeshTextInjective(config, found.mesh);
      }
    }
  }

  lemma MeshSwitchKeepsClean(s: State, t: State, success: bool, pending: Option<MeshConfig>)
    requires s.spec.Some? && Wired(s) && MeshClean(s, pending) && SwitchStep(s, t, success)
    ensures MeshClean(t, pending) && Wired(t) && t.status == s.status && t.spec == s.spec
  {
    hide HashOfMesh, BracketFree;
  }

  lemma NatsRunLeavesMesh(s: State, t: State, found: Inputs, started: bool)
    requires NatsBackendStep(s, t, found, started)
    ensures t.mesh == s.mesh && (t.status.configHash == s.status.configHash || !t.status.configHash.MeshHash?)
  {
  }

  lemma MeshStepKeepsClean(e: Event, s: State, t: State, pending: Option<MeshConfig>)
    requires Wired(s) && MeshClean(s, pending) && Next(e, s, t)
    requires IsMeshRun(e) ==> BracketFree(e.trace.found.mesh) && MeshNotReverted(s, pending, e.trace.found.mesh)
    ensures MeshClean(t, if e.Restarted? then None
                         else if !IsMeshRun(e) then pending
                         else if e.trace.started && t.status.configHash == HashOfMesh(e.trace.found.mesh) then None
                         else Some(e.trace.found.mesh))
    ensures IsMeshRun(e) && e.trace.started ==> t.mesh.started && t.mesh.manager.Some? && BuiltFor(t.mesh.manager.value, e.trace.found.mesh)
  {
    hide HashOfMesh, IsBlank, BracketFree, NatsStep;
    match e
    case Reconciled(trace) => {
      if !HasEmptyBackend(s.spec) {
        MeshSwitchKeepsClean(s, trace.switched, trace.switchedOk, pending);
        hide SwitchStep;
        if IsMeshRun(e) {
          MeshRunKeepsClean(trace.switched, trace.mid, t, trace.found, trace.synced, trace.started, pending);
          hide MeshBackendStep;
        } else if IsNatsRun(e) {
          NatsRunLeavesMesh(trace.switched, t, trace.found, trace.started);
        }
        hide NatsBackendStep;
      }
    }
    case _ =>
  }

  lemma {:induction false} MeshCleanOverRuns(states: seq<State>, events: seq<Event>)
    requires Run(states, events) && Initial(states[0]) && MeshNeverReverted(states, events)
    ensures MeshClean(states[|events|], PendingMesh(states, events)) && Wired(states[|events|])
  {
    hide ReconcileStep, DeletionStep, MeshClean, BracketFree, Wired;
    if events != [] {
      var n := |events| - 1;
      var before, init := states[..n + 1], events[..n];
      assert forall i :: 0 <= i < n ==> before[..i + 1] == states[..i + 1] && init[..i] == events[..i];
      MeshCleanOverRuns(before, init);
      assert Next(events[n], states[n], states[n + 1]);
      MeshStepKeepsClean(events[n], states[n], states[n + 1], PendingMesh(before, init));
      StepKeepsWired(events[n], states[n], states[n + 1]);
    } else {
      InitiallyMeshClean(states[0]);
    }
  }

  lemma InitiallyMeshClean(s: State)
    requires Initial(s)
    ensures MeshClean(s, None) && Wired(s)
  {
  }

  /** Every run that ends with the EventMesh manager started has one for the current configuration, if no
      domain was changed and no configuration reverted before it was recorded. */
  lemma MeshManagerIsFresh(states: seq<State>, events: seq<Event>, i: nat)
    requires Run(states, events) && Initial(states[0]) && MeshNeverReverted(states, events)
    requires i < |events| && IsMeshRun(events[i]) && events[i].trace.started
    ensures states[i + 1].mesh.started && states[i + 1].mesh.manager.Some?
            && BuiltFor(states[i + 1].mesh.manager.value, events[i].trace.found.mesh)
  {
    hide ReconcileStep, DeletionStep, MeshClean, BracketFree, Wired;
    var before, init := states[..i + 1], events[..i];
    assert forall j :: 0 <= j < i ==> before[..j + 1] == states[..j + 1] && init[..j] == events[..j];
    MeshCleanOverRuns(before, init);
    assert Next(events[i], states[i], states[i + 1]);
    MeshStepKeepsClean(events[i], states[i], states[i + 1], PendingMesh(before, init));
  }

  predicate MeshStopFailed(s: State, t: State) {
    s.mesh.running && t.mesh.started && !t.mesh.running
  }

  /** Why the stop of the EventMesh manager was tried is no longer so in the run `later`: the resource was to
      be deleted, or backends were to be switched, or another configuration or secret was found. */
  predicate MeshStopAbandoned(e: Event, s: State, t: State, later: Event)
    requires later.Reconciled?
  {
    && MeshStopFailed(s, t)
    && (e.DeletionTried?
        || (e.Reconciled? && (!e.trace.switchedOk || e.trace.found.mesh != later.trace.found.mesh || e.trace.found.reply != later.trace.found.reply)))
  }

  predicate MeshCause(e: Event, s: State, t: State, now: State) {
    && MeshStopFailed(s, t)
    && (e.DeletionTried?
        || (e.Reconciled? && (!e.trace.switchedOk
                              || now.status.configHash != HashOfMesh(e.trace.found.mesh)
                              || e.trace.found.reply.SecretNotFound?
                              || CredentialsChanged(now.cache, e.trace.found.reply))))
  }

  ghost predicate MeshCauseKnown(states: seq<State>, events: seq<Event>, n: nat)
    requires |states| == |events| + 1 && n < |states|
  {
    states[n].mesh.started && !states[n].mesh.running ==>
      exists j :: 0 <= j < n && MeshCause(events[j], states[j], states[j + 1], states[n])
  }

  /** What a step does to an EventMesh manager that is left flagged as started without running. */
  predicate HalfStopped(e: Event, s: State, t: State) {
    && s.mesh.started && t.cache == s.cache
    && (s.mesh.running ==> MeshCause(e, s, t, t))
    && (!s.mesh.running ==> t.status.configHash == s.status.configHash || !t.status.configHash.MeshHash?)
  }

  lemma MeshRunHasCause(s: State, mid: State, t: State, found: Inputs, synced: bool, started: bool)
    requires Wired(s) && MeshBackendStep(s, mid, t, found, synced, started) && t.mesh.started && !t.mesh.running
    ensures s.mesh.started && t.status.configHash == s.status.configHash && (s.cache.Initialized() ==> t.cache == s.cache)
    ensures s.mesh.running ==>
              t.status.configHash != HashOfMesh(found.mesh) || found.reply.SecretNotFound? || CredentialsChanged(t.cache, found.reply)
    ensures started ==> !s.mesh.running && s.status.configHash == HashOfMesh(found.mesh)
    ensures started && s.cache.Initialized() ==> found.reply == Secret(s.cache)
  {
    hide HashOfMesh;
  }

  lemma MeshSwitchHasCause(s: State, t: State, success: bool)
    requires s.spec.Some? && Wired(s) && SwitchStep(s, t, success)
    ensures t.status == s.status && t.spec == s.spec && t.cache == s.cache
    ensures t.mesh.started ==> t.mesh.manager == s.mesh.manager && s.mesh.started
    ensures t.mesh.started && t.mesh != s.mesh ==> !success && t.mesh == s.mesh.(running := false)
  {
  }

  lemma MeshStepHasCause(e: Event, s: State, t: State)
    requires Wired(s) && CredentialsFresh(s) && Next(e, s, t) && t.mesh.started && !t.mesh.running
    ensures HalfStopped(e, s, t)
  {
    hide HashOfMesh, IsBlank, NatsStep;
    match e
    case Reconciled(trace) => {
      if !HasEmptyBackend(s.spec) {
        SwitchKeepsWired(s, trace.switched, trace.switchedOk);
        MeshSwitchHasCause(s, trace.switched, trace.switchedOk);
        hide SwitchStep;
        if IsMeshRun(e) {
          MeshRunHasCause(trace.switched, trace.mid, t, trace.found, trace.synced, trace.started);
        } else if IsNatsRun(e) {
          NatsRunLeavesMesh(trace.switched, t, trace.found, trace.started);
        }
        hide MeshBackendStep;
      }
    }
    case _ =>
  }

  lemma CauseRemains(e: Event, s: State, t: State, e': Event, s': State, t': State)
    requires HalfStopped(e, s, t) && !s.mesh.running && MeshCause(e', s', t', s)
    ensures MeshCause(e', s', t', t)
  {
    hide MeshText;
  }

  lemma {:induction false} MeshCauseOverRuns(states: seq<State>, events: seq<Event>, n: nat)
    requires Run(states, events) && Initial(states[0]) && n < |states| && NonEmptySecrets(events)
    ensures MeshCauseKnown(states, events, n)
  {
    hide Next, MeshCause, Wired, CredentialsFresh, HalfStopped;
    if n > 0 {
      MeshCauseOverRuns(states, events, n - 1);
      StartedManagersExist(states[..n], events[..n - 1]);
      CredentialsAreFresh(states[..n], events[..n - 1]);
      var s, t := states[n - 1], states[n];
      if t.mesh.started && !t.mesh.running {
        assert Next(events[n - 1], s, t);
        MeshStepHasCause(events[n - 1], s, t);
        assert s.mesh.started && (s.mesh.running ==> MeshCause(events[n - 1], s, t, t)) by {
          HalfStoppedMeans(events[n - 1], s, t);
        }
        if !s.mesh.running {
          var j :| 0 <= j < n - 1 && MeshCause(events[j], states[j], states[j + 1], s);
          CauseRemains(events[n - 1], s, t, events[j], states[j], states[j + 1]);
        }
      }
    }
  }

  lemma HalfStoppedMeans(e: Event, s: State, t: State)
    requires HalfStopped(e, s, t)
    ensures s.mesh.started && (s.mesh.running ==> MeshCause(e, s, t, t))
  {
  }

  /** The same for EventMesh, with secrets whose values are not empty. */
  lemma DeadMeshManagerWasAbandoned(states: seq<State>, events: seq<Event>, i: nat)
    requires Run(states, events) && Initial(states[0]) && NonEmptySecrets(events)
    requires i < |events| && IsMeshRun(events[i]) && events[i].trace.started && !states[i + 1].mesh.running
    ensures exists j :: 0 <= j < i && MeshStopAbandoned(events[j], states[j], states[j + 1], events[i])
  {
    hide Wired, CredentialsFresh;
    var s, t := states[i], states[i + 1];
    MeshCauseOverRuns(states, events, i);
    StartedManagersExist(states[..i + 1], events[..i]);
    CredentialsAreFresh(states[..i + 1], events[..i]);
    assert Next(events[i], s, t);
    DeadMeshSuccessKeeps(events[i], s, t);
    var j :| 0 <= j < i && MeshCause(events[j], states[j], states[j + 1], s);
    assert MeshStopAbandoned(events[j], states[j], states[j + 1], events[i]);
  }

  lemma DeadMeshSuccessKeeps(e: Event, s: State, t: State)
    requires Wired(s) && CredentialsFresh(s) && Next(e, s, t) && IsMeshRun(e) && e.trace.started && !t.mesh.running
    ensures s.mesh.started && !s.mesh.running && s.status.configHash == HashOfMesh(e.trace.found.mesh)
    ensures e.trace.found.reply == Secret(s.cache)
  {
    hide HashOfMesh, IsBlank;
    MeshSwitchHasCause(s, e.trace.switched, true);
    SwitchKeepsWired(s, e.trace.switched, true);
    hide SwitchStep;
    assert t.mesh.started;
    MeshRunHasCause(e.trace.switched, e.trace.mid, t, e.trace.found, e.trace.synced, true);
  }

  // ---- freshness of the credentials ----

  /** The four values in the secret are never empty. */
  ghost predicate NonEmptySecrets(events: seq<Event>) {
    forall i :: 0 <= i < |events| && events[i].Reconciled? && events[i].trace.found.reply.Secret? ==>
      events[i].trace.found.reply.credentials.Initialized()
  }

  /** A started EventMesh manager was started with the credentials that are cached. */
  predicate CredentialsFresh(s: State) {
    s.mesh.started ==>
      && s.cache.Initialized()
      && s.mesh.manager.Some? && s.mesh.manager.value.startedWith.Some?
      && s.mesh.manager.value.startedWith.value.1 == s.cache
  }

  /** Cached credentials change only once the manager is stopped. */
  lemma StoppedBeforeCacheChanges(s: State, reply: SecretReply, t: State, success: bool)
    requires Wired(s) && CredentialsFresh(s) && CredentialsStep(s.mesh, s.cache, reply, t.mesh, t.cache, success)
    ensures t.cache != s.cache ==> !t.mesh.started && !t.mesh.running && success
    ensures reply.SecretNotFound? ==> t.cache == s.cache && !success
    ensures !success && CredentialsChanged(s.cache, reply) ==> CredentialsChanged(t.cache, reply)
  {
  }

  /** Reading credentials keeps the manager fresh if and only if the cache was complete or nothing changed:
      an incomplete cache is overwritten while the manager goes on. */
  lemma CredentialsKeptFreshIff(n: MeshPart, cache: Credentials, credentials: Credentials, m: MeshPart, cache': Credentials)
    requires CredentialsStep(n, cache, Secret(credentials), m, cache', true)
    requires n.started && n.manager.Some? && n.manager.value.startedWith.Some? && n.manager.value.startedWith.value.1 == cache
    ensures (m.started ==> m.manager.Some? && m.manager.value.startedWith.Some? && m.manager.value.startedWith.value.1 == cache') <==>
            cache.Initialized() || credentials == cache
  {
  }

  lemma MeshRunKeepsCredentials(s: State, mid: State, t: State, found: Inputs, synced: bool, started: bool)
    requires Wired(s) && CredentialsFresh(s) && (found.reply.Secret? ==> found.reply.credentials.Initialized())
    requires MeshBackendStep(s, mid, t, found, synced, started)
    ensures CredentialsFresh(t)
  {
    hide HashOfMesh;
    assert CredentialsFresh(mid) && (synced ==> mid.cache.Initialized());
    CredentialsKeepWired(s, found.reply, mid, synced);
    hide CredentialsStep;
  }

  lemma StepKeepsCredentials(e: Event, s: State, t: State)
    requires Wired(s) && CredentialsFresh(s) && Next(e, s, t)
    requires e.Reconciled? && e.trace.found.reply.Secret? ==> e.trace.found.reply.credentials.Initialized()
    ensures CredentialsFresh(t)
  {
    hide HashOfMesh, IsBlank, NatsStep;
    match e
    case Reconciled(trace) => {
      if !HasEmptyBackend(s.spec) {
        SwitchKeepsWired(s, trace.switched, trace.switchedOk);
        assert CredentialsFresh(trace.switched);
        hide SwitchStep;
        if IsMeshRun(e) {
          MeshRunKeepsCredentials(trace.switched, trace.mid, t, trace.found, trace.synced, trace.started);
        } else if IsNatsRun(e) {
          NatsRunLeavesMesh(trace.switched, t, trace.found, trace.started);
        }
        hide MeshBackendStep;
      }
    }
    case _ =>
  }

  /** As long as the four values in the secret are never empty, a started EventMesh manager always uses the
      cached credentials, whatever fails. */
  lemma {:induction false} CredentialsAreFresh(states: seq<State>, events: seq<Event>)
    requires Run(states, events) && Initial(states[0]) && NonEmptySecrets(events)
    ensures CredentialsFresh(states[|events|])
  {
    hide ReconcileStep, DeletionStep, CredentialsFresh, Wired;
    if events != [] {
      var n := |events| - 1;
      CredentialsAreFresh(states[..n + 1], events[..n]);
      StartedManagersExist(states[..n + 1], events[..n]);
      assert Next(events[n], states[n], states[n + 1]);
      StepKeepsCredentials(events[n], states[n], states[n + 1]);
    } else {
      InitiallyFresh(states[0]);
    }
  }

  lemma InitiallyFresh(s: State)
    requires Initial(s)
    ensures CredentialsFresh(s)
  {
  }
}
