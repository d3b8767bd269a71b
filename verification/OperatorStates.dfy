/** The state of the operator: the Eventing resource, the two subscription managers and the cached
    credentials, and what each step may do to them. */
module OperatorStates {
  import opened Strings
  import opened Subscriptions

  const NATS := "NATS"
  const EVENT_MESH := "EventMesh"

  datatype BackendConfig = BackendConfig(
    natsStreamStorageType: string, natsStreamReplicas: int, natsStreamMaxSize: string, natsMaxMsgsPerTopic: int,
    eventMeshSecret: string, eventTypePrefix: string, domain: string)

  datatype Backend = Backend(backendType: string, config: BackendConfig)

  predicate HasEmptyBackend(spec: Option<Backend>) {
    spec.None? || IsBlank(spec.value.backendType)
  }

  /** What the NATS subscription manager is built from; `url` is that of the NATS server, and `maxInFlight`
      is the default subscription configuration of the process. */
  datatype NatsConfig = NatsConfig(url: string, maxInFlight: int, storageType: string, replicas: int, maxBytes: string,
                                   maxMsgsPerTopic: int, eventTypePrefix: string)

  datatype MeshConfig = MeshConfig(secret: string, eventTypePrefix: string, domain: string)

  datatype Credentials = Credentials(clientId: string, clientSecret: string, tokenUrl: string, certsUrl: string) {
    /** isOauth2CredentialsInitialized */
    predicate Initialized() {
      clientId != "" && clientSecret != "" && tokenUrl != "" && certsUrl != ""
    }
  }

  const NO_CREDENTIALS := Credentials("", "", "", "")

  /** Status.BackendConfigHash.  Hashes are free constructors, so no two contents share one and none is the
      zero value NoHash; for EventMesh the hashed content is a string. */
  datatype ConfigHash = NoHash | NatsHash(config: NatsConfig) | MeshHash(text: string)

  function MeshText(c: MeshConfig): string {
    "[" + c.secret + "][" + c.eventTypePrefix + "][" + c.domain + "]"
  }

  function HashOfMesh(c: MeshConfig): ConfigHash {
    MeshHash(MeshText(c))
  }

  /** Names of secrets and domains contain no bracket. */
  predicate BracketFree(c: MeshConfig) {
    ']' !in c.secret && '[' !in c.domain
  }

  lemma MeshTextBrackets(c: MeshConfig)
    requires BracketFree(c)
    ensures FirstIndex(MeshText(c), ']') == 1 + |c.secret|
    ensures LastIndex(MeshText(c), '[') == 4 + |c.secret| + |c.eventTypePrefix|
  {
    hide LastIndex, FirstIndex;
    var front := "[" + c.secret + "][" + c.eventTypePrefix + "]";
    FirstIndexBefore("[" + c.secret, ']', "[" + c.eventTypePrefix + "][" + c.domain + "]");
    LastIndexAfter(front, '[', c.domain + "]");
    assert MeshText(c) == ("[" + c.secret) + [']'] + ("[" + c.eventTypePrefix + "][" + c.domain + "]");
    assert MeshText(c) == front + ['['] + (c.domain + "]");
  }

  lemma MeshTextSlices(c: MeshConfig)
    ensures var text, i, j := MeshText(c), 1 + |c.secret|, 4 + |c.secret| + |c.eventTypePrefix|;
            && i + 2 <= j - 1 && j + 1 < |text|
            && c == MeshConfig(text[1..i], text[i + 2..j - 1], text[j + 1..|text| - 1])
  {
  }

  /** The hashed string tells the configurations apart. */
  lemma MeshTextInjective(c: MeshConfig, d: MeshConfig)
    requires BracketFree(c) && BracketFree(d) && MeshText(c) == MeshText(d)
    ensures c == d
  {
    hide MeshText;
    MeshTextBrackets(c);
    MeshTextBrackets(d);
    MeshTextSlices(c);
    MeshTextSlices(d);
  }

  /** The persisted status; conditions and the state shown to users are not modelled. */
  datatype Status = Status(activeBackend: string, configHash: ConfigHash)

  const NO_STATUS := Status("", NoHash)

  /** A manager and whether it is flagged as started.  `running` says what is really the case: a stop that
      fails during its cleanup has stopped the manager already. */
  datatype NatsPart = NatsPart(manager: Option<NatsConfig>, started: bool, running: bool)

  /** The EventMesh manager is built from the domain alone; the rest it reads when it is started. */
  datatype MeshManager = MeshManager(domain: string, startedWith: Option<(MeshConfig, Credentials)>)

  datatype MeshPart = MeshPart(manager: Option<MeshManager>, started: bool, running: bool)

  const NO_NATS := NatsPart(None, false, false)
  const NO_MESH := MeshPart(None, false, false)

  /** `overlapped` remembers whether one manager was ever started while the other was running. */
  datatype State = State(spec: Option<Backend>, status: Status, nats: NatsPart, mesh: MeshPart, cache: Credentials, overlapped: bool)

  /** A started manager exists, and a running one is flagged as started. */
  predicate Wired(s: State) {
    && (s.nats.started ==> s.nats.manager.Some?) && (s.nats.running ==> s.nats.started)
    && (s.mesh.started ==> s.mesh.manager.Some?) && (s.mesh.running ==> s.mesh.started)
  }

  // ---- the steps ----

  predicate NatsStop(n: NatsPart, m: NatsPart, success: bool) {
    if n.manager.None? || !n.started then success && m == n
    else if success then m == NO_NATS
    else m in {n, n.(running := false)}
  }

  predicate MeshStop(n: MeshPart, m: MeshPart, success: bool) {
    if n.manager.None? || !n.started then success && m == n
    else if success then m == NO_MESH
    else m in {n, n.(running := false)}
  }

  /** The manager that a run of reconcileNATSSubManager keeps, if any. */
  function KeptNats(n: NatsPart, hash: ConfigHash, config: NatsConfig): Option<NatsConfig> {
    if hash == NatsHash(config) then n.manager else None
  }

  /** reconcileNATSSubManager with the recorded `hash`. */
  predicate NatsStep(n: NatsPart, hash: ConfigHash, config: NatsConfig, m: NatsPart, success: bool) {
    var kept := KeptNats(n, hash, config);
    if success then
      && m.manager == Some(if kept.Some? then kept.value else config) && m.started
      && m.running == (if kept.Some? && n.started then n.running else true)
    else
      || m == n
      || (n.started && hash != NatsHash(config) && m == n.(running := false))
      || (!m.started && (n.started ==> !m.running) && (!n.started ==> m.running == n.running)
          && (n.started && n.manager.Some? ==> hash != NatsHash(config))
          && m.manager in {kept, Some(if kept.Some? then kept.value else config)})
  }

  /** The hash is recorded in the status only once the manager is started. */
  function HashAfter(hash: ConfigHash, current: ConfigHash, started: bool): ConfigHash {
    if started then current else hash
  }

  /** The credentials that syncOauth2ClientIDAndSecret reads. */
  datatype SecretReply = Secret(credentials: Credentials) | SecretNotFound | SecretUnusable

  predicate CredentialsChanged(cache: Credentials, reply: SecretReply) {
    reply.Secret? && cache.Initialized() && cache != reply.credentials
  }

  /** Credentials have changed if all four cached values are there and some value of the secret is another. */
  lemma CredentialsChangedIff(cache: Credentials, reply: SecretReply)
    ensures CredentialsChanged(cache, reply) <==>
              && reply.Secret?
              && "" !in [cache.clientId, cache.clientSecret, cache.tokenUrl, cache.certsUrl]
              && (cache.clientId != reply.credentials.clientId || cache.clientSecret != reply.credentials.clientSecret
                  || cache.tokenUrl != reply.credentials.tokenUrl || cache.certsUrl != reply.credentials.certsUrl)
  {
    var values := [cache.clientId, cache.clientSecret, cache.tokenUrl, cache.certsUrl];
    assert values[0] in values && values[1] in values && values[2] in values && values[3] in values;
  }

  /** syncOauth2ClientIDAndSecret: the manager is stopped before the cached credentials change. */
  predicate CredentialsStep(n: MeshPart, cache: Credentials, reply: SecretReply, m: MeshPart, cache': Credentials, success: bool) {
    if reply.SecretUnusable? then !success && m == n && cache' == cache
    else if reply.SecretNotFound? then !success && cache' == cache && (MeshStop(n, m, true) || MeshStop(n, m, false))
    else if CredentialsChanged(cache, reply) then
      if success then MeshStop(n, m, true) && cache' == reply.credentials
      else cache' == cache && (MeshStop(n, m, true) || MeshStop(n, m, false))
    else success && m == n && cache' == if cache.Initialized() then cache else reply.credentials
  }

  lemma CredentialsUnread(n: MeshPart, cache: Credentials)
    ensures CredentialsStep(n, cache, SecretUnusable, n, cache, false)
  {
  }

  lemma CredentialsKeepWired(s: State, reply: SecretReply, t: State, success: bool)
    requires Wired(s) && CredentialsStep(s.mesh, s.cache, reply, t.mesh, t.cache, success) && t.nats == s.nats
    ensures Wired(t)
  {
  }

  /** The manager that the rest of reconcileEventMeshSubManager keeps, if any: only a started one is cleared
      when the hash differs. */
  function KeptMesh(n: MeshPart, hash: ConfigHash, config: MeshConfig): Option<MeshManager> {
    if hash == HashOfMesh(config) || !n.started then n.manager else None
  }

  predicate MeshStep(n: MeshPart, hash: ConfigHash, config: MeshConfig, cache: Credentials, m: MeshPart, success: bool) {
    var kept := KeptMesh(n, hash, config);
    if success then
      && m.manager == Some(if kept.Some? && n.started then kept.value
                           else MeshManager(if kept.Some? then kept.value.domain else config.domain, Some((config, cache))))
      && m.started
      && m.running == (if kept.Some? && n.started then n.running else true)
    else
      || m == n
      || (n.started && hash != HashOfMesh(config) && m == n.(running := false))
      || (!m.started && (n.started ==> !m.running) && (!n.started ==> m.running == n.running)
          && (n.started && n.manager.Some? ==> hash != HashOfMesh(config))
          && m.manager in {kept, Some(if kept.Some? then kept.value else MeshManager(config.domain, None))})
  }

  /** handleBackendSwitching: stops the manager of the backend that the status names, unless it is the one
      of the spec.  It may still fail after that. */
  predicate SwitchStep(s: State, t: State, success: bool)
    requires s.spec.Some?
  {
    var active, wanted := s.status.activeBackend, s.spec.value.backendType;
    if active == "" || active == wanted then success && t == s
    else if active == NATS then
      t == s.(nats := t.nats) && (NatsStop(s.nats, t.nats, true) || (!success && NatsStop(s.nats, t.nats, false)))
    else
      t == s.(mesh := t.mesh) && (MeshStop(s.mesh, t.mesh, true) || (!success && MeshStop(s.mesh, t.mesh, false)))
  }

  /** What a run finds outside: the configuration of either backend and the credentials. */
  datatype Inputs = Inputs(nats: NatsConfig, mesh: MeshConfig, reply: SecretReply)

  /** A run for the NATS backend, after switching.  `started` says that reconcileNATSSubManager succeeded. */
  predicate NatsBackendStep(s: State, t: State, found: Inputs, started: bool) {
    var copy := s.status.(activeBackend := NATS);
    && NatsStep(s.nats, s.status.configHash, found.nats, t.nats, started)
    && t.status in {s.status, copy.(configHash := HashAfter(copy.configHash, NatsHash(found.nats), started))}
    && t == s.(nats := t.nats, status := t.status, overlapped := t.overlapped)
    && (t.overlapped ==> s.overlapped || s.mesh.running)
  }

  /** A run for the EventMesh backend, after switching.  In `mid` the credentials are in order, or not. */
  predicate MeshBackendStep(s: State, mid: State, t: State, found: Inputs, synced: bool, started: bool) {
    var copy := s.status.(activeBackend := EVENT_MESH);
    && CredentialsStep(s.mesh, s.cache, found.reply, mid.mesh, mid.cache, synced)
    && mid == s.(mesh := mid.mesh, cache := mid.cache)
    && (if synced then MeshStep(mid.mesh, s.status.configHash, found.mesh, mid.cache, t.mesh, started)
        else !started && t.mesh == mid.mesh)
    && t.status in {s.status, copy, copy.(configHash := HashAfter(copy.configHash, HashOfMesh(found.mesh), started))}
    && t == mid.(mesh := t.mesh, status := t.status, overlapped := t.overlapped)
    && (t.overlapped ==> s.overlapped || s.nats.running)
  }

  /** How a run of handleEventingReconcile went: the state after switching, the state with the credentials
      in order (for EventMesh), and whether each phase and the (re)start of the manager succeeded. */
  datatype Trace = Trace(switched: State, switchedOk: bool, mid: State, synced: bool, started: bool, found: Inputs)

  predicate ReconcileStep(s: State, trace: Trace, t: State) {
    if HasEmptyBackend(s.spec) then t == s && trace.switched == s && !trace.switchedOk && !trace.started
    else
      var wanted := s.spec.value.backendType;
      && SwitchStep(s, trace.switched, trace.switchedOk)
      && if !trace.switchedOk then t == trace.switched && !trace.started
         else if wanted == NATS then NatsBackendStep(trace.switched, t, trace.found, trace.started)
         else if wanted == EVENT_MESH then MeshBackendStep(trace.switched, trace.mid, t, trace.found, trace.synced, trace.started)
         else !trace.started && t.status in {s.status, s.status.(activeBackend := wanted)} && t == trace.switched.(status := t.status)
  }

  /** handleEventingDeletion: stops the manager of the backend of the spec; `gone` says that the resource
      has been released and is no more. */
  predicate DeletionStep(s: State, t: State, gone: bool) {
    && t == s.(nats := t.nats, mesh := t.mesh, spec := if gone then None else s.spec, status := if gone then NO_STATUS else s.status)
    && (if s.spec.None? then t.nats == s.nats && t.mesh == s.mesh
        else if s.spec.value.backendType == NATS then
          t.mesh == s.mesh && (NatsStop(s.nats, t.nats, true) || (!gone && (NatsStop(s.nats, t.nats, false) || t.nats == s.nats)))
        else
          t.nats == s.nats && (MeshStop(s.mesh, t.mesh, true) || (!gone && (MeshStop(s.mesh, t.mesh, false) || t.mesh == s.mesh))))
  }

  lemma NatsNotReached(s: State, status: Status, found: Inputs)
    requires status in {s.status, s.status.(activeBackend := NATS)}
    ensures NatsBackendStep(s, s.(status := status), found, false)
  {
  }

  lemma MeshNotReached(s: State, status: Status, found: Inputs)
    requires status in {s.status, s.status.(activeBackend := EVENT_MESH)} && found.reply.SecretUnusable?
    ensures MeshBackendStep(s, s, s.(status := status), found, false, false)
  {
  }

  lemma SwitchKeepsWired(s: State, t: State, success: bool)
    requires s.spec.Some? && Wired(s) && SwitchStep(s, t, success)
    ensures Wired(t)
  {
  }
}
