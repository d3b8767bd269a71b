/** The operator's reconciler for the Eventing resource. */
module OperatorReconciler {
  import opened Outcomes
  import opened Strings
  import opened Subscriptions
  import opened OperatorStates

  /** What is outside the reconciler: the API server with the one Eventing resource and the secrets, and the
      subscription managers as they really run.  Every call may fail. */
  class Cluster {
    var spec: Option<Backend>
    var status: Status
    var finalizer: bool
    var deleting: bool
    var subscriptionsExist: bool
    /** The backend that the publisher is deployed for. */
    var publisher: Option<string>
    /** The EventMesh secret that the secret of the publisher was made from. */
    var publisherSecret: Option<string>
    /** Whether there are cluster-scoped resources of the publisher. */
    var clusterRoles: bool
    /** Whether the NATS module is installed. */
    var natsModule: bool
    var natsUrl: Option<string>
    var configMapDomain: string
    /** The data of the secret with the webhook credentials. */
    var secret: Option<map<string, string>>
    var natsRunning: bool
    var meshRunning: bool
    /** Whether one manager was ever started while the other was running. */
    var overlapped: bool
    /** The number of calls so far that failed, or did not find what a run cannot do without. */
    var faults: nat
    /** How many of those were calls without which a run stores no status: reading and writing the status itself,
        asking for the NATS module, and removing the publisher. */
    var storeFaults: nat

    constructor ()
    {
    }

    /** A call that changes nothing that is modelled here. */
    method Attempt() returns (outcome: Outcome)
      modifies this`faults
      ensures faults == old(faults) + if outcome.Pass? then 0 else 1
    {
      outcome := Pass;
      if * {
        outcome, faults := Fail(Failed), faults + 1;
      }
    }

    method AttemptToStore() returns (outcome: Outcome)
      modifies this`faults, this`storeFaults
      ensures faults == old(faults) + if outcome.Pass? then 0 else 1
      ensures storeFaults == old(storeFaults) + if outcome.Pass? then 0 else 1
    {
      outcome := Attempt();
      if outcome.Fail? {
        storeFaults := storeFaults + 1;
      }
    }

    method UpdateStatus(status: Status) returns (outcome: Outcome)
      modifies this`status, this`faults, this`storeFaults
      ensures faults == old(faults) + if outcome.Pass? then 0 else 1
      ensures storeFaults == old(storeFaults) + if outcome.Pass? then 0 else 1
      ensures this.status in {old(this.status), status}
      ensures outcome.Pass? ==> this.status == status
    {
      outcome := AttemptToStore();
      if outcome.Pass? {
        this.status := status;
      } else if * {
        this.status := status;
      }
    }

    method AddFinalizer() returns (outcome: Outcome)
      modifies this`finalizer, this`faults
      ensures finalizer == (old(finalizer) || outcome.Pass?)
      ensures faults == old(faults) + if outcome.Pass? then 0 else 1
    {
      outcome := Attempt();
      finalizer := finalizer || outcome.Pass?;
    }

    /** Removing the finalizer of a resource that is being deleted makes it go. */
    method RemoveFinalizer() returns (outcome: Outcome)
      modifies this`finalizer, this`spec, this`status, this`deleting, this`faults
      ensures faults == old(faults) + if outcome.Pass? then 0 else 1
      ensures outcome.Pass? ==> spec == None && status == NO_STATUS && !finalizer
      ensures outcome.Fail? ==> spec == old(spec) && status == old(status) && finalizer == old(finalizer) && deleting == old(deleting)
    {
      outcome := Attempt();
      if outcome.Pass? {
        spec, status, finalizer, deleting := None, NO_STATUS, false, false;
      }
    }

    method DeployPublisher(backend: string) returns (outcome: Outcome)
      modifies this`publisher, this`clusterRoles, this`faults
      ensures faults == old(faults) + if outcome.Pass? then 0 else 1
      ensures outcome.Pass? ==> publisher == Some(backend) && clusterRoles
    {
      outcome := Attempt();
      if outcome.Pass? {
        publisher, clusterRoles := Some(backend), true;
      } else if * {
        publisher, clusterRoles := Some(backend), true;
      }
    }

    method SyncPublisherSecret(secret: string) returns (outcome: Outcome)
      modifies this`publisherSecret, this`faults
      ensures faults == old(faults) + if outcome.Pass? then 0 else 1
      ensures outcome.Pass? ==> publisherSecret == Some(secret)
    {
      outcome := Attempt();
      if outcome.Pass? {
        publisherSecret := Some(secret);
      } else if * {
        publisherSecret := Some(secret);
      }
    }

    method DeletePublisher() returns (outcome: Outcome)
      modifies this`publisher, this`faults, this`storeFaults
      ensures faults == old(faults) + if outcome.Pass? then 0 else 1
      ensures storeFaults == old(storeFaults) + if outcome.Pass? then 0 else 1
      ensures outcome.Pass? ==> publisher == None
    {
      outcome := AttemptToStore();
      if outcome.Pass? {
        publisher := None;
      } else if * {
        publisher := None;
      }
    }

    method DeleteClusterRoles() returns (outcome: Outcome)
      modifies this`clusterRoles, this`faults
      ensures faults == old(faults) + if outcome.Pass? then 0 else 1
      ensures outcome.Pass? ==> !clusterRoles
    {
      outcome := Attempt();
      if outcome.Pass? {
        clusterRoles := false;
      } else if * {
        clusterRoles := false;
      }
    }

    /** Whether there are Subscriptions, if the answer can be had. */
    method HasSubscriptions() returns (found: Option<bool>)
      modifies this`faults
      ensures found == if faults == old(faults) then Some(subscriptionsExist) else None
      ensures faults in {old(faults), old(faults) + 1}
    {
      found := Some(subscriptionsExist);
      if * {
        found, faults := None, faults + 1;
      }
    }

    /** Whether the NATS module is installed, if the answer can be had. */
    method HasNatsModule() returns (found: Option<bool>)
      modifies this`faults, this`storeFaults
      ensures found == if faults == old(faults) then Some(natsModule) else None
      ensures faults in {old(faults), old(faults) + 1} && storeFaults == old(storeFaults) + (faults - old(faults))
    {
      found := Some(natsModule);
      if * {
        found, faults, storeFaults := None, faults + 1, storeFaults + 1;
      }
    }

    method GetNatsUrl() returns (url: Option<string>)
      modifies this`faults
      ensures url == if faults == old(faults) then natsUrl else None
      ensures faults in {old(faults), old(faults) + 1}
    {
      url := natsUrl;
      if * {
        url, faults := None, faults + 1;
      }
    }

    /** getOAuth2ClientCredentials: all four keys have to be there, with whatever values. */
    method GetOAuth2ClientCredentials() returns (reply: SecretReply)
      modifies this`faults
      ensures reply == if faults == old(faults) then CredentialsIn(secret) else SecretUnusable
      ensures faults in {old(faults), old(faults) + 1}
    {
      reply := CredentialsIn(secret);
      if * {
        reply, faults := SecretUnusable, faults + 1;
      }
    }

    method StartNats() returns (outcome: Outcome)
      modifies this`natsRunning, this`overlapped, this`faults
      ensures faults == old(faults) + if outcome.Pass? then 0 else 1
      ensures outcome.Pass? ==> natsRunning && overlapped == (old(overlapped) || meshRunning)
      ensures outcome.Fail? ==> natsRunning == old(natsRunning) && overlapped == old(overlapped)
    {
      outcome := Attempt();
      if outcome.Pass? {
        natsRunning, overlapped := true, overlapped || meshRunning;
      }
    }

    /** The manager is shut down before the cleanup that may fail. */
    method StopNats() returns (outcome: Outcome)
      modifies this`natsRunning, this`faults
      ensures faults == old(faults) + if outcome.Pass? then 0 else 1
      ensures outcome.Pass? ==> !natsRunning
      ensures natsRunning ==> old(natsRunning)
    {
      outcome := Attempt();
      if outcome.Pass? {
        natsRunning := false;
      } else if * {
        natsRunning := false;
      }
    }

    method StartMesh() returns (outcome: Outcome)
      modifies this`meshRunning, this`overlapped, this`faults
      ensures faults == old(faults) + if outcome.Pass? then 0 else 1
      ensures outcome.Pass? ==> meshRunning && overlapped == (old(overlapped) || natsRunning)
      ensures outcome.Fail? ==> meshRunning == old(meshRunning) && overlapped == old(overlapped)
    {
      outcome := Attempt();
      if outcome.Pass? {
        meshRunning, overlapped := true, overlapped || natsRunning;
      }
    }

    method StopMesh() returns (outcome: Outcome)
      modifies this`meshRunning, this`faults
      ensures faults == old(faults) + if outcome.Pass? then 0 else 1
      ensures outcome.Pass? ==> !meshRunning
      ensures meshRunning ==> old(meshRunning)
    {
      outcome := Attempt();
      if outcome.Pass? {
        meshRunning := false;
      } else if * {
        meshRunning := false;
      }
    }
  }

  function CredentialsIn(secret: Option<map<string, string>>): SecretReply {
    match secret
    case None => SecretNotFound
    case Some(data) =>
      if "client_id" in data && "client_secret" in data && "token_url" in data && "certs_url" in data then
        Secret(Credentials(data["client_id"], data["client_secret"], data["token_url"], data["certs_url"]))
      else SecretUnusable
  }

  /** The copy of the resource that a run works on. */
  class Eventing {
    const spec: Option<Backend>
    var status: Status

    constructor (spec: Option<Backend>, status: Status)
      ensures this.spec == spec && this.status == status
    {
      this.spec, this.status := spec, status;
    }
  }

  function NatsConfigOf(config: BackendConfig, url: string, maxInFlight: int): NatsConfig {
    NatsConfig(url, maxInFlight, config.natsStreamStorageType, config.natsStreamReplicas, config.natsStreamMaxSize,
               config.natsMaxMsgsPerTopic, config.eventTypePrefix)
  }

  function MeshConfigOf(config: BackendConfig, configMapDomain: string): MeshConfig {
    MeshConfig(config.eventMeshSecret, config.eventTypePrefix, if IsBlank(config.domain) then configMapDomain else config.domain)
  }

  predicate HasDomain(spec: Backend, configMapDomain: string) {
    !IsBlank(spec.config.domain) || !IsBlank(configMapDomain)
  }

  /** What a backend cannot do without, as far as it is modelled. */
  predicate Equipped(spec: Backend, natsModule: bool, natsUrl: Option<string>, secret: Option<map<string, string>>, configMapDomain: string) {
    if spec.backendType == NATS then natsModule && natsUrl.Some?
    else spec.backendType == EVENT_MESH && CredentialsIn(secret).Secret? && HasDomain(spec, configMapDomain)
  }

  /** The credentials are the four values of the secret. */
  predicate HoldsSecret(credentials: Credentials, secret: Option<map<string, string>>) {
    && secret.Some?
    && var data := secret.value;
       && "client_id" in data && "client_secret" in data && "token_url" in data && "certs_url" in data
       && credentials == Credentials(clientId := data["client_id"], clientSecret := data["client_secret"],
                                     tokenUrl := data["token_url"], certsUrl := data["certs_url"])
  }

  /** The domain of the spec, or that of the config map if the spec leaves it blank. */
  function DomainFor(spec: string, configMap: string): string {
    if OnlySpaces(spec) then configMap else spec
  }

  lemma MeshConfigMeans(config: BackendConfig, configMapDomain: string)
    ensures var domain := DomainFor(config.domain, configMapDomain);
            && MeshConfigOf(config, configMapDomain)
               == MeshConfig(secret := config.eventMeshSecret, eventTypePrefix := config.eventTypePrefix, domain := domain)
            && HashOfMesh(MeshConfigOf(config, configMapDomain))
               == MeshHash("[" + config.eventMeshSecret + "][" + config.eventTypePrefix + "][" + domain + "]")
  {
    BlankIff(config.domain);
  }

  lemma SecretMeans(secret: Option<map<string, string>>, credentials: Credentials)
    ensures CredentialsIn(secret) == Secret(credentials) <==> HoldsSecret(credentials, secret)
  {
  }

  /** After a successful run for EventMesh the manager that it started, if it started one, runs on what was
      found, and what was found is cached. */
  lemma MeshStartedAsFound(s: State, trace: Trace, t: State)
    requires s.spec.Some? && s.spec.value.backendType == EVENT_MESH && ReconcileStep(s, trace, t) && trace.switchedOk && trace.started
    ensures trace.found.reply == Secret(t.cache)
    ensures t.mesh.started && t.mesh.manager.Some?
    ensures !s.mesh.started || s.status.configHash != HashOfMesh(trace.found.mesh) ==>
              t.mesh.manager.value.startedWith == Some((trace.found.mesh, t.cache))
  {
    hide HashOfMesh, IsBlank;
    assert s.spec.value.backendType[0] == 'E' && |NATS| != |EVENT_MESH|;
  }

  /** The same for NATS. */
  lemma NatsStartedAsFound(s: State, trace: Trace, t: State)
    requires s.spec.Some? && s.spec.value.backendType == NATS && ReconcileStep(s, trace, t) && trace.switchedOk && trace.started
    ensures t.nats.started && t.nats.manager.Some?
    ensures s.nats.manager.None? || s.status.configHash != NatsHash(trace.found.nats) ==> t.nats.manager == Some(trace.found.nats)
  {
    hide IsBlank;
  }

  class Reconciler {
    const cluster: Cluster
    const maxInFlight: int
    var natsSubManager: Option<NatsConfig>
    var isNATSSubManagerStarted: bool
    var eventMeshSubManager: Option<MeshManager>
    var isEventMeshSubManagerStarted: bool
    var oauth2credentials: Credentials

    /** A new process: nothing runs. */
    constructor (cluster: Cluster, maxInFlight: int)
      requires !cluster.natsRunning && !cluster.meshRunning
      ensures this.cluster == cluster && this.maxInFlight == maxInFlight
      ensures StateOf() == State(cluster.spec, cluster.status, NO_NATS, NO_MESH, NO_CREDENTIALS, cluster.overlapped)
    {
      this.cluster, this.maxInFlight := cluster, maxInFlight;
      natsSubManager, isNATSSubManagerStarted := None, false;
      eventMeshSubManager, isEventMeshSubManagerStarted := None, false;
      oauth2credentials := NO_CREDENTIALS;
    }

    ghost function Nats(): NatsPart
      reads this, cluster
    {
      NatsPart(natsSubManager, isNATSSubManagerStarted, cluster.natsRunning)
    }

    ghost function Mesh(): MeshPart
      reads this, cluster
    {
      MeshPart(eventMeshSubManager, isEventMeshSubManagerStarted, cluster.meshRunning)
    }

    ghost function StateOf(): State
      reads this, cluster
    {
      State(cluster.spec, cluster.status, Nats(), Mesh(), oauth2credentials, cluster.overlapped)
    }

    ghost function Found(spec: Backend, reply: SecretReply): Inputs
      reads cluster
    {
      Inputs(NatsConfigOf(spec.config, if cluster.natsUrl.Some? then cluster.natsUrl.value else "", maxInFlight),
             MeshConfigOf(spec.config, cluster.configMapDomain), reply)
    }

    method SyncEventingStatus(eventing: Eventing) returns (outcome: Outcome)
      modifies cluster`status, cluster`faults, cluster`storeFaults
      ensures cluster.faults == old(cluster.faults) + if outcome.Pass? then 0 else 1
      ensures cluster.storeFaults == old(cluster.storeFaults) + if outcome.Pass? then 0 else 1
      ensures cluster.status in {old(cluster.status), eventing.status}
      ensures outcome.Pass? ==> cluster.status == eventing.status
    {
      outcome := cluster.AttemptToStore();
      if outcome.Pass? && cluster.status != eventing.status {
        outcome := cluster.UpdateStatus(eventing.status);
      }
    }

    // ---- NATS ----

    method StopNATSSubManager() returns (outcome: Outcome)
      requires Wired(StateOf())
      modifies this`natsSubManager, this`isNATSSubManagerStarted, cluster`natsRunning, cluster`faults
      ensures NatsStop(old(Nats()), Nats(), outcome.Pass?)
      ensures cluster.faults == old(cluster.faults) + if outcome.Pass? then 0 else 1
    {
      if natsSubManager.None? || !isNATSSubManagerStarted {
        return Pass;
      }
      outcome := cluster.StopNats();
      if outcome.Pass? {
        isNATSSubManagerStarted, natsSubManager := false, None;
      }
    }

    method ReconcileNATSSubManager(eventing: Eventing) returns (outcome: Outcome)
      requires Wired(StateOf()) && eventing.spec.Some?
      modifies this`natsSubManager, this`isNATSSubManagerStarted, cluster`natsRunning, cluster`overlapped, cluster`faults, eventing
      ensures var config := Found(eventing.spec.value, SecretUnusable).nats;
              && NatsStep(old(Nats()), old(eventing.status).configHash, config, Nats(), outcome.Pass?)
              && eventing.status == old(eventing.status).(configHash := HashAfter(old(eventing.status).configHash, NatsHash(config), outcome.Pass?))
      ensures cluster.overlapped ==> old(cluster.overlapped) || cluster.meshRunning
      ensures cluster.faults in {old(cluster.faults), old(cluster.faults) + 1}
      ensures outcome.Pass? <==> cluster.natsUrl.Some? && cluster.faults == old(cluster.faults)
    {
      hide NatsConfigOf, MeshConfigOf, IsBlank;
      var url := cluster.GetNatsUrl();
      if url.None? {
        return Fail(Failed);
      }
      var config := NatsConfigOf(eventing.spec.value.config, url.value, maxInFlight);
      var hash := NatsHash(config);
      if eventing.status.configHash != hash && isNATSSubManagerStarted {
        outcome := StopNATSSubManager();
        if outcome.Fail? {
          return;
        }
      } else if eventing.status.configHash != hash {
        natsSubManager := None;
      }
      if natsSubManager.None? {
        outcome := cluster.Attempt();
        if outcome.Fail? {
          return;
        }
        natsSubManager := Some(config);
      }
      if isNATSSubManagerStarted {
        return Pass;
      }
      outcome := cluster.StartNats();
      if outcome.Fail? {
        return;
      }
      isNATSSubManagerStarted := true;
      eventing.status := eventing.status.(configHash := hash);
    }

    /** The NATS module may be missing, its server may be unreachable, or the publisher may not be deployed. */
    method ReconcileNATSBackend(eventing: Eventing) returns (outcome: Outcome, ghost started: bool)
      requires Wired(StateOf()) && eventing.spec.Some? && eventing.status == cluster.status.(activeBackend := NATS)
      modifies this`natsSubManager, this`isNATSSubManagerStarted
      modifies cluster`natsRunning, cluster`overlapped, cluster`status, cluster`publisher
      modifies cluster`clusterRoles, cluster`faults, cluster`storeFaults, eventing
      ensures NatsBackendStep(old(StateOf()), StateOf(), Found(eventing.spec.value, SecretUnusable), started)
      ensures cluster.faults >= old(cluster.faults)
      ensures outcome.Pass? <==> cluster.natsModule && cluster.natsUrl.Some? && cluster.faults == old(cluster.faults)
      ensures cluster.storeFaults >= old(cluster.storeFaults)
      ensures cluster.storeFaults == old(cluster.storeFaults) ==>
                cluster.status.activeBackend == NATS && (!cluster.natsModule ==> cluster.publisher == None)
      ensures outcome.Pass? ==> cluster.publisher == Some(NATS)
      ensures outcome.Pass? ==> started && cluster.status == Status(NATS, NatsHash(Found(eventing.spec.value, SecretUnusable).nats))
    {
      hide NatsConfigOf, MeshConfigOf, IsBlank;
      started := false;
      var installed := cluster.HasNatsModule();
      if installed.None? {
        return Fail(Failed), false;
      }
      if !installed.value {
        // the publisher is removed first
        outcome := cluster.DeletePublisher();
        if outcome.Pass? {
          outcome := SyncEventingStatus(eventing);
        }
        return Fail(Failed), false;
      }
      outcome := PrepareNats();
      if outcome.Fail? {
        outcome := SyncEventingStatus(eventing);
        return Fail(Failed), false;
      }
      outcome := ReconcileNATSSubManager(eventing);
      if outcome.Fail? {
        outcome := SyncEventingStatus(eventing);
        return Fail(Failed), false;
      }
      started := true;
      outcome := HandleEventingState(eventing);
    }

    /** Watches the NATS resource, connects to the server and deploys the publisher. */
    method PrepareNats() returns (outcome: Outcome)
      modifies cluster`publisher, cluster`clusterRoles, cluster`faults
      ensures cluster.faults == old(cluster.faults) + if outcome.Pass? then 0 else 1
      ensures outcome.Pass? ==> cluster.publisher == Some(NATS)
    {
      outcome := cluster.Attempt();
      if outcome.Pass? {
        outcome := cluster.Attempt();
      }
      if outcome.Pass? {
        outcome := cluster.DeployPublisher(NATS);
      }
    }

    /** Stores the status whether the publisher is ready or not. */
    method HandleEventingState(eventing: Eventing) returns (outcome: Outcome)
      modifies cluster`status, cluster`faults, cluster`storeFaults
      ensures cluster.faults >= old(cluster.faults) && (outcome.Pass? <==> cluster.faults == old(cluster.faults))
      ensures cluster.storeFaults >= old(cluster.storeFaults)
      ensures cluster.status in {old(cluster.status), eventing.status}
      ensures outcome.Pass? || cluster.storeFaults == old(cluster.storeFaults) ==> cluster.status == eventing.status
    {
      var deployment := cluster.Attempt();
      outcome := SyncEventingStatus(eventing);
      if deployment.Fail? {
        outcome := Fail(Failed);
      }
    }

    // ---- EventMesh ----

    method StopEventMeshSubManager() returns (outcome: Outcome)
      requires Wired(StateOf())
      modifies this`eventMeshSubManager, this`isEventMeshSubManagerStarted, cluster`meshRunning, cluster`faults
      ensures MeshStop(old(Mesh()), Mesh(), outcome.Pass?)
      ensures cluster.faults == old(cluster.faults) + if outcome.Pass? then 0 else 1
    {
      if eventMeshSubManager.None? || !isEventMeshSubManagerStarted {
        return Pass;
      }
      outcome := cluster.StopMesh();
      if outcome.Pass? {
        isEventMeshSubManagerStarted, eventMeshSubManager := false, None;
      }
    }

    method SyncOauth2ClientIDAndSecret(eventing: Eventing) returns (outcome: Outcome, ghost reply: SecretReply)
      requires Wired(StateOf())
      modifies this`eventMeshSubManager, this`isEventMeshSubManagerStarted, this`oauth2credentials
      modifies cluster`meshRunning, cluster`status, cluster`faults, cluster`storeFaults
      ensures cluster.storeFaults >= old(cluster.storeFaults)
      ensures cluster.faults in {old(cluster.faults), old(cluster.faults) + 1}
      ensures outcome.Pass? <==> CredentialsIn(cluster.secret).Secret? && cluster.faults == old(cluster.faults)
      ensures reply in {CredentialsIn(cluster.secret), SecretUnusable}
      ensures CredentialsStep(old(Mesh()), old(oauth2credentials), reply, Mesh(), oauth2credentials, outcome.Pass?)
      ensures cluster.status in {old(cluster.status), eventing.status}
      ensures outcome.Pass? && CredentialsChanged(old(oauth2credentials), reply) ==> cluster.status == eventing.status
    {
      var read := cluster.GetOAuth2ClientCredentials();
      reply := read;
      if read.SecretUnusable? {
        return Fail(Failed), reply;
      }
      var changed := false;
      if read.Secret? && oauth2credentials.Initialized() {
        changed := oauth2credentials.clientId != read.credentials.clientId
                   || oauth2credentials.clientSecret != read.credentials.clientSecret
                   || oauth2credentials.tokenUrl != read.credentials.tokenUrl
                   || oauth2credentials.certsUrl != read.credentials.certsUrl;
      }
      if read.SecretNotFound? || changed {
        outcome := StopEventMeshSubManager();
        if outcome.Fail? {
          return;
        }
        outcome := SyncEventingStatus(eventing);
        if outcome.Fail? {
          return;
        }
      }
      if read.SecretNotFound? {
        return Fail(Failed), reply;
      }
      if changed || !oauth2credentials.Initialized() {
        oauth2credentials := read.credentials;
      }
      outcome := Pass;
    }

    /** After the credentials: the manager is (re)started for the current configuration. */
    method RestartEventMeshSubManager(eventing: Eventing) returns (outcome: Outcome)
      requires Wired(StateOf()) && eventing.spec.Some?
      modifies this`eventMeshSubManager, this`isEventMeshSubManagerStarted, cluster`meshRunning
      modifies cluster`overlapped, cluster`publisherSecret, cluster`faults, eventing
      ensures outcome.Pass? ==> cluster.publisherSecret == Some(eventing.spec.value.config.eventMeshSecret)
      ensures var config := Found(eventing.spec.value, SecretUnusable).mesh;
              && MeshStep(old(Mesh()), old(eventing.status).configHash, config, oauth2credentials, Mesh(), outcome.Pass?)
              && eventing.status == old(eventing.status).(configHash := HashAfter(old(eventing.status).configHash, HashOfMesh(config), outcome.Pass?))
      ensures cluster.overlapped ==> old(cluster.overlapped) || cluster.natsRunning
      ensures cluster.faults in {old(cluster.faults), old(cluster.faults) + 1}
      ensures outcome.Pass? <==> HasDomain(eventing.spec.value, cluster.configMapDomain) && cluster.faults == old(cluster.faults)
    {
      hide MeshText, HashOfMesh, MeshConfigOf, NatsConfigOf, IsBlank, MeshStep;
      MeshUntouched(Mesh(), eventing.status.configHash, Found(eventing.spec.value, SecretUnusable).mesh, oauth2credentials);
      outcome := cluster.SyncPublisherSecret(eventing.spec.value.config.eventMeshSecret);
      if outcome.Fail? {
        return;
      }
      outcome := CheckDomain(eventing.spec.value.config.domain);
      if outcome.Fail? {
        return;
      }
      var config := MeshConfigOf(eventing.spec.value.config, cluster.configMapDomain);
      outcome := StartFor(config, eventing);
    }

    lemma MeshUntouched(n: MeshPart, hash: ConfigHash, config: MeshConfig, cache: Credentials)
      ensures MeshStep(n, hash, config, cache, n, false)
    {
    }

    /** checkDomain: reading the config map may fail, and it may hold none. */
    method CheckDomain(domain: string) returns (outcome: Outcome)
      modifies cluster`faults
      ensures cluster.faults in {old(cluster.faults), old(cluster.faults) + 1}
      ensures outcome.Pass? <==> (!IsBlank(domain) || !IsBlank(cluster.configMapDomain)) && cluster.faults == old(cluster.faults)
    {
      hide IsBlank;
      outcome := Pass;
      if IsBlank(domain) {
        outcome := cluster.Attempt();
        if IsBlank(cluster.configMapDomain) {
          outcome := Fail(Failed);
        }
      }
    }

    /** The second half of reconcileEventMeshSubManager. */
    method StartFor(config: MeshConfig, eventing: Eventing) returns (outcome: Outcome)
      requires Wired(StateOf())
      modifies this`eventMeshSubManager, this`isEventMeshSubManagerStarted, cluster`meshRunning, cluster`overlapped, cluster`faults, eventing
      ensures MeshStep(old(Mesh()), old(eventing.status).configHash, config, oauth2credentials, Mesh(), outcome.Pass?)
      ensures eventing.status == old(eventing.status).(configHash := HashAfter(old(eventing.status).configHash, HashOfMesh(config), outcome.Pass?))
      ensures cluster.overlapped ==> old(cluster.overlapped) || cluster.natsRunning
      ensures cluster.faults == old(cluster.faults) + if outcome.Pass? then 0 else 1
    {
      hide HashOfMesh;
      var hash := HashOfMesh(config);
      if eventing.status.configHash != hash {
        outcome := StopEventMeshSubManager();
        if outcome.Fail? {
          return;
        }
      }
      if eventMeshSubManager.None? {
        outcome := cluster.Attempt();
        if outcome.Fail? {
          return;
        }
        eventMeshSubManager := Some(MeshManager(config.domain, None));
      }
      if isEventMeshSubManagerStarted {
        return Pass;
      }
      outcome := cluster.StartMesh();
      if outcome.Fail? {
        return;
      }
      eventMeshSubManager := Some(eventMeshSubManager.value.(startedWith := Some((config, oauth2credentials))));
      isEventMeshSubManagerStarted := true;
      eventing.status := eventing.status.(configHash := hash);
    }

    method ReconcileEventMeshSubManager(eventing: Eventing)
      returns (outcome: Outcome, ghost mid: State, ghost reply: SecretReply, ghost synced: bool)
      requires Wired(StateOf()) && eventing.spec.Some?
      modifies this`eventMeshSubManager, this`isEventMeshSubManagerStarted, this`oauth2credentials
      modifies cluster`meshRunning, cluster`overlapped, cluster`status, cluster`publisherSecret, cluster`faults, cluster`storeFaults, eventing
      ensures outcome.Pass? ==> cluster.publisherSecret == Some(eventing.spec.value.config.eventMeshSecret)
      ensures cluster.storeFaults >= old(cluster.storeFaults)
      ensures reply in {CredentialsIn(cluster.secret), SecretUnusable}
      ensures CredentialsStep(old(Mesh()), old(oauth2credentials), reply, mid.mesh, mid.cache, synced)
      ensures mid == old(StateOf()).(mesh := mid.mesh, cache := mid.cache) && mid.cache == oauth2credentials
      ensures var config, hash := Found(eventing.spec.value, reply).mesh, old(eventing.status).configHash;
              && (if synced then MeshStep(mid.mesh, hash, config, mid.cache, Mesh(), outcome.Pass?) else outcome.Fail? && Mesh() == mid.mesh)
              && eventing.status == old(eventing.status).(configHash := HashAfter(hash, HashOfMesh(config), outcome.Pass?))
      ensures cluster.status in {old(cluster.status), old(eventing.status)}
      ensures cluster.overlapped ==> old(cluster.overlapped) || cluster.natsRunning
      ensures cluster.faults >= old(cluster.faults)
      ensures outcome.Pass? <==> CredentialsIn(cluster.secret).Secret? && HasDomain(eventing.spec.value, cluster.configMapDomain)
                                 && cluster.faults == old(cluster.faults)
    {
      hide MeshStep, CredentialsStep, HashOfMesh, MeshConfigOf, NatsConfigOf, CredentialsIn, HasDomain;
      outcome, reply := SyncOauth2ClientIDAndSecret(eventing);
      CredentialsKeepWired(old(StateOf()), reply, old(StateOf()).(mesh := Mesh(), cache := oauth2credentials), outcome.Pass?);
      synced := outcome.Pass?;
      mid := old(StateOf()).(mesh := Mesh(), cache := oauth2credentials);
      if outcome.Pass? {
        outcome := RestartEventMeshSubManager(eventing);
      }
    }

    method ReconcileEventMeshBackend(eventing: Eventing)
      returns (outcome: Outcome, ghost mid: State, ghost reply: SecretReply, ghost synced: bool, ghost started: bool)
      requires Wired(StateOf()) && eventing.spec.Some? && eventing.status == cluster.status.(activeBackend := EVENT_MESH)
      modifies this`eventMeshSubManager, this`isEventMeshSubManagerStarted, this`oauth2credentials
      modifies cluster`meshRunning, cluster`overlapped, cluster`status, cluster`publisher
      modifies cluster`clusterRoles, cluster`publisherSecret, cluster`faults, cluster`storeFaults, eventing
      ensures reply in {CredentialsIn(cluster.secret), SecretUnusable}
      ensures MeshBackendStep(old(StateOf()), mid, StateOf(), Found(eventing.spec.value, reply), synced, started)
      ensures cluster.faults >= old(cluster.faults)
      ensures outcome.Pass? <==>
                CredentialsIn(cluster.secret).Secret? && HasDomain(eventing.spec.value, cluster.configMapDomain)
                && cluster.faults == old(cluster.faults)
      ensures cluster.storeFaults >= old(cluster.storeFaults)
      ensures cluster.storeFaults == old(cluster.storeFaults) ==> cluster.status.activeBackend == EVENT_MESH
      ensures outcome.Pass? ==> cluster.publisher == Some(EVENT_MESH) && cluster.publisherSecret == Some(eventing.spec.value.config.eventMeshSecret)
      ensures outcome.Pass? ==> started && cluster.status == Status(EVENT_MESH, HashOfMesh(Found(eventing.spec.value, reply).mesh))
    {
      hide MeshStep, CredentialsStep, HashOfMesh, MeshConfigOf, NatsConfigOf, CredentialsIn, IsBlank, HasDomain, Wired;
      mid, reply, synced, started := StateOf(), SecretUnusable, false, false;
      CredentialsUnread(Mesh(), oauth2credentials);
      // whether API rules are known, and the EventMesh secret
      outcome := cluster.Attempt();
      if outcome.Fail? {
        outcome := SyncEventingStatus(eventing);
        return Fail(Failed), mid, reply, false, false;
      }
      outcome, mid, reply, synced := ReconcileEventMeshSubManager(eventing);
      started := outcome.Pass?;
      if outcome.Fail? {
        outcome := SyncEventingStatus(eventing);
        return Fail(Failed), mid, reply, synced, started;
      }
      outcome := PublishMesh(eventing);
    }

    /** Deploys the publisher and stores the status. */
    method PublishMesh(eventing: Eventing) returns (outcome: Outcome)
      modifies cluster`publisher, cluster`clusterRoles, cluster`status, cluster`faults, cluster`storeFaults
      ensures cluster.faults >= old(cluster.faults) && (outcome.Pass? <==> cluster.faults == old(cluster.faults))
      ensures cluster.storeFaults >= old(cluster.storeFaults)
      ensures cluster.status in {old(cluster.status), eventing.status}
      ensures outcome.Pass? || cluster.storeFaults == old(cluster.storeFaults) ==> cluster.status == eventing.status
      ensures outcome.Pass? ==> cluster.publisher == Some(EVENT_MESH)
    {
      outcome := cluster.DeployPublisher(EVENT_MESH);
      if outcome.Fail? {
        outcome := SyncEventingStatus(eventing);
        return Fail(Failed);
      }
      outcome := HandleEventingState(eventing);
    }

    // ---- both ----

    method HandleBackendSwitching(eventing: Eventing) returns (outcome: Outcome)
      requires Wired(StateOf()) && eventing.spec.Some? && eventing.spec == cluster.spec && eventing.status == cluster.status
      modifies this`natsSubManager, this`isNATSSubManagerStarted, this`eventMeshSubManager, this`isEventMeshSubManagerStarted
      modifies cluster`natsRunning, cluster`meshRunning, cluster`publisher, cluster`faults, cluster`storeFaults
      ensures SwitchStep(old(StateOf()), StateOf(), outcome.Pass?)
      ensures cluster.faults == old(cluster.faults) + if outcome.Pass? then 0 else 1
      ensures cluster.storeFaults >= old(cluster.storeFaults)
      ensures outcome.Pass? ==>
                cluster.publisher ==
                  if old(eventing.status).activeBackend in {"", eventing.spec.value.backendType} then old(cluster.publisher) else None
    {
      var active := eventing.status.activeBackend;
      if active == "" || active == eventing.spec.value.backendType {
        return Pass;
      }
      if active == NATS {
        outcome := StopNATSSubManager();
      } else {
        outcome := StopEventMeshSubManager();
      }
      if outcome.Pass? {
        outcome := cluster.DeletePublisher();
      }
    }

    /** What a run for the wanted backend may do once the managers are switched. */
    ghost predicate WantedStep(s: State, trace: Trace, t: State) {
      s.spec.Some? &&
      var wanted := s.spec.value.backendType;
      if wanted == NATS then NatsBackendStep(s, t, trace.found, trace.started)
      else if wanted == EVENT_MESH then MeshBackendStep(s, trace.mid, t, trace.found, trace.synced, trace.started)
      else !trace.started && t.status in {s.status, s.status.(activeBackend := wanted)} && t == s.(status := t.status)
    }

    /** The hash that is recorded for the wanted backend. */
    ghost function WantedHash(wanted: string, found: Inputs): ConfigHash {
      if wanted == NATS then NatsHash(found.nats) else HashOfMesh(found.mesh)
    }

    /** The second half of handleEventingReconcile. */
    method ReconcileWantedBackend(eventing: Eventing) returns (outcome: Outcome, ghost trace: Trace)
      requires Wired(StateOf()) && eventing.spec.Some? && eventing.spec == cluster.spec && eventing.status == cluster.status
      modifies this, cluster`natsRunning, cluster`meshRunning, cluster`overlapped
      modifies cluster`status, cluster`publisher, cluster`clusterRoles, cluster`publisherSecret, cluster`faults, cluster`storeFaults, eventing
      ensures trace.switched == old(StateOf()) && trace.switchedOk && WantedStep(old(StateOf()), trace, StateOf())
      ensures trace.found == Found(eventing.spec.value, trace.found.reply) && trace.found.reply in {CredentialsIn(cluster.secret), SecretUnusable}
      ensures cluster.faults >= old(cluster.faults)
      ensures outcome.Pass? <==>
                Equipped(eventing.spec.value, cluster.natsModule, cluster.natsUrl, cluster.secret, cluster.configMapDomain)
                && cluster.faults == old(cluster.faults)
      ensures cluster.storeFaults >= old(cluster.storeFaults)
      ensures eventing.spec.value.backendType in {NATS, EVENT_MESH} && cluster.storeFaults == old(cluster.storeFaults) ==>
                cluster.status.activeBackend == eventing.spec.value.backendType
      ensures outcome.Pass? && eventing.spec.value.backendType == EVENT_MESH ==>
                cluster.publisherSecret == Some(eventing.spec.value.config.eventMeshSecret)
      ensures outcome.Pass? ==> trace.started && cluster.publisher == Some(eventing.spec.value.backendType)
      ensures outcome.Pass? ==> cluster.status == Status(eventing.spec.value.backendType, WantedHash(eventing.spec.value.backendType, trace.found))
    {
      hide NatsStep, MeshStep, CredentialsStep, MeshBackendStep, NatsBackendStep, HashOfMesh, CredentialsIn, Wired;
      hide NatsConfigOf, MeshConfigOf, HasDomain;
      var wanted := eventing.spec.value.backendType;
      ghost var found := Found(eventing.spec.value, SecretUnusable);
      trace := Trace(StateOf(), true, StateOf(), false, false, found);
      eventing.status := eventing.status.(activeBackend := wanted);
      // whether applications are known
      outcome := cluster.Attempt();
      if outcome.Fail? {
        outcome := SyncEventingStatus(eventing);
        NotReached(trace.switched, cluster.status, wanted, found);
        return Fail(Failed), trace;
      }
      if wanted == NATS {
        ghost var started;
        outcome, started := ReconcileNATSBackend(eventing);
        trace := trace.(started := started);
      } else if wanted == EVENT_MESH {
        ghost var mid, reply, synced, started;
        outcome, mid, reply, synced, started := ReconcileEventMeshBackend(eventing);
        trace := trace.(mid := mid, synced := synced, started := started, found := Found(eventing.spec.value, reply));
      } else {
        outcome := Fail(Failed);
      }
    }

    /** EventMesh is reconciled: the recorded hash is that of the configuration in force, the credentials in the
        secret are cached, and a manager that was not `started` before, or was for another `hash`, was started
        with these. */
    ghost predicate MeshInForce(spec: Backend, started: bool, hash: ConfigHash)
      reads this, cluster
    {
      var domain := DomainFor(spec.config.domain, cluster.configMapDomain);
      var config := MeshConfig(secret := spec.config.eventMeshSecret, eventTypePrefix := spec.config.eventTypePrefix, domain := domain);
      && cluster.status.activeBackend == "EventMesh"
      && cluster.status.configHash == MeshHash("[" + spec.config.eventMeshSecret + "][" + spec.config.eventTypePrefix + "][" + domain + "]")
      && HoldsSecret(oauth2credentials, cluster.secret) && cluster.publisherSecret == Some(spec.config.eventMeshSecret)
      && isEventMeshSubManagerStarted && eventMeshSubManager.Some?
      && (!started || hash != cluster.status.configHash ==>
            eventMeshSubManager.value.startedWith == Some((config, oauth2credentials)))
    }

    /** NATS is reconciled: the same for its configuration, with a manager that was built for it unless there
        was one for the recorded `hash`. */
    ghost predicate NatsInForce(spec: Backend, earlier: Option<NatsConfig>, hash: ConfigHash)
      reads this, cluster
    {
      cluster.natsUrl.Some? &&
      var config := NatsConfig(
        url := cluster.natsUrl.value, maxInFlight := maxInFlight, storageType := spec.config.natsStreamStorageType,
        replicas := spec.config.natsStreamReplicas, maxBytes := spec.config.natsStreamMaxSize,
        maxMsgsPerTopic := spec.config.natsMaxMsgsPerTopic, eventTypePrefix := spec.config.eventTypePrefix);
      && cluster.status == Status("NATS", NatsHash(config))
      && isNATSSubManagerStarted && natsSubManager.Some?
      && (earlier.None? || hash != NatsHash(config) ==> natsSubManager == Some(config))
    }

    /** The wanted backend is reconciled, after the other was stopped if need be. */
    ghost predicate InForce(spec: Backend, trace: Trace, before: State)
      reads this, cluster
    {
      && trace.switchedOk && trace.started
      && cluster.status == Status(spec.backendType, WantedHash(spec.backendType, trace.found))
      && cluster.publisher == Some(spec.backendType)
      && (spec.backendType == "EventMesh" ==> MeshInForce(spec, before.mesh.started, before.status.configHash))
      && (spec.backendType == "NATS" ==> NatsInForce(spec, before.nats.manager, before.status.configHash))
    }

    lemma MeshIsInForce(s: State, trace: Trace)
      requires s.spec.Some? && s.spec.value.backendType == EVENT_MESH && ReconcileStep(s, trace, StateOf())
      requires trace.switchedOk && trace.started && trace.found == Found(s.spec.value, trace.found.reply)
      requires trace.found.reply in {CredentialsIn(cluster.secret), SecretUnusable}
      requires cluster.status == Status(EVENT_MESH, HashOfMesh(trace.found.mesh))
      requires cluster.publisherSecret == Some(s.spec.value.config.eventMeshSecret)
      ensures MeshInForce(s.spec.value, s.mesh.started, s.status.configHash)
    {
      MeshStartedAsFound(s, trace, StateOf());
      MeshConfigMeans(s.spec.value.config, cluster.configMapDomain);
      SecretMeans(cluster.secret, oauth2credentials);
      hide ReconcileStep, MeshConfigOf, NatsConfigOf, HashOfMesh, CredentialsIn, HoldsSecret, DomainFor;
    }

    lemma NatsIsInForce(s: State, trace: Trace)
      requires s.spec.Some? && s.spec.value.backendType == NATS && ReconcileStep(s, trace, StateOf()) && cluster.natsUrl.Some?
      requires trace.switchedOk && trace.started && trace.found == Found(s.spec.value, trace.found.reply)
      requires cluster.status == Status(NATS, NatsHash(trace.found.nats))
      ensures NatsInForce(s.spec.value, s.nats.manager, s.status.configHash)
    {
      NatsStartedAsFound(s, trace, StateOf());
      hide ReconcileStep, MeshConfigOf;
    }

    method HandleEventingReconcile(eventing: Eventing) returns (outcome: Outcome, ghost trace: Trace)
      requires Wired(StateOf()) && eventing.spec == cluster.spec && eventing.status == cluster.status
      modifies this
      modifies cluster`natsRunning, cluster`meshRunning, cluster`overlapped, cluster`status, cluster`finalizer
      modifies cluster`publisher, cluster`clusterRoles, cluster`publisherSecret, cluster`faults, cluster`storeFaults, eventing
      ensures if old(cluster.finalizer) then ReconcileStep(old(StateOf()), trace, StateOf()) else StateOf() == old(StateOf())
      ensures old(cluster.finalizer) && !HasEmptyBackend(cluster.spec) && trace.switchedOk ==>
                trace.found == Found(cluster.spec.value, trace.found.reply) && trace.found.reply in {CredentialsIn(cluster.secret), SecretUnusable}
      ensures cluster.faults >= old(cluster.faults)
      ensures outcome.Pass? <==>
                && cluster.faults == old(cluster.faults)
                && (old(cluster.finalizer) && !HasEmptyBackend(cluster.spec) ==>
                      Equipped(cluster.spec.value, cluster.natsModule, cluster.natsUrl, cluster.secret, cluster.configMapDomain))
      ensures outcome.Pass? ==> cluster.finalizer
      ensures old(cluster.finalizer) && !HasEmptyBackend(cluster.spec) && outcome.Pass? ==>
                InForce(cluster.spec.value, trace, old(StateOf()))
      ensures cluster.storeFaults >= old(cluster.storeFaults)
      ensures old(cluster.finalizer) && cluster.spec.Some? && cluster.spec.value.backendType in {NATS, EVENT_MESH} && trace.switchedOk
              && cluster.storeFaults == old(cluster.storeFaults) ==>
                cluster.status.activeBackend == cluster.spec.value.backendType
    {
      hide InForce;
      hide WantedStep, WantedHash, ReconcileStep, SwitchStep, IsBlank, Wired, CredentialsIn, Equipped;
      ghost var before := StateOf();
      ghost var nothing := Inputs(NatsConfig("", 0, "", 0, "", 0, ""), MeshConfig("", "", ""), SecretUnusable);
      trace := Trace(before, false, before, false, false, nothing);
      if !cluster.finalizer {
        outcome := cluster.AddFinalizer();
        return;
      }
      if HasEmptyBackend(eventing.spec) {
        outcome := SyncEventingStatus(eventing);
        NothingWanted(before, trace);
        BackendsAreNotBlank();
        return;
      }
      outcome, trace := ReconcileSpec(eventing);
    }

    /** The rest of handleEventingReconcile, for a resource that wants a backend. */
    method ReconcileSpec(eventing: Eventing) returns (outcome: Outcome, ghost trace: Trace)
      requires Wired(StateOf()) && eventing.spec == cluster.spec && eventing.status == cluster.status && !HasEmptyBackend(cluster.spec)
      modifies this
      modifies cluster`natsRunning, cluster`meshRunning, cluster`overlapped, cluster`status
      modifies cluster`publisher, cluster`clusterRoles, cluster`publisherSecret, cluster`faults, cluster`storeFaults, eventing
      ensures ReconcileStep(old(StateOf()), trace, StateOf())
      ensures trace.switchedOk ==>
                trace.found == Found(cluster.spec.value, trace.found.reply) && trace.found.reply in {CredentialsIn(cluster.secret), SecretUnusable}
      ensures cluster.faults >= old(cluster.faults) && cluster.storeFaults >= old(cluster.storeFaults)
      ensures outcome.Pass? <==>
                && cluster.faults == old(cluster.faults)
                && Equipped(cluster.spec.value, cluster.natsModule, cluster.natsUrl, cluster.secret, cluster.configMapDomain)
      ensures outcome.Pass? ==> InForce(cluster.spec.value, trace, old(StateOf()))
      ensures cluster.spec.value.backendType in {NATS, EVENT_MESH} && trace.switchedOk && cluster.storeFaults == old(cluster.storeFaults) ==>
                cluster.status.activeBackend == cluster.spec.value.backendType
    {
      hide InForce;
      hide WantedStep, WantedHash, ReconcileStep, SwitchStep, HasEmptyBackend, Wired, CredentialsIn, Equipped;
      ghost var before := StateOf();
      ghost var nothing := Inputs(NatsConfig("", 0, "", 0, "", 0, ""), MeshConfig("", "", ""), SecretUnusable);
      trace := Trace(before, false, before, false, false, nothing);
      SomeBackendWanted(cluster.spec);
      outcome := HandleBackendSwitching(eventing);
      ghost var switched := StateOf();
      SwitchKeepsWired(before, switched, outcome.Pass?);
      if outcome.Fail? {
        trace := trace.(switched := switched);
        outcome := SyncEventingStatus(eventing);
        NotSwitched(before, trace);
        return Fail(Failed), trace;
      }
      outcome, trace := ReconcileWantedBackend(eventing);
      Reconciles(before, trace, StateOf());
      if outcome.Pass? {
        BackendInForce(before, trace);
      }
    }

    lemma SomeBackendWanted(spec: Option<Backend>)
      requires !HasEmptyBackend(spec)
      ensures spec.Some?
    {
    }

    lemma BackendsAreNotBlank()
      ensures !IsBlank("NATS") && !IsBlank("EventMesh")
    {
      assert "NATS"[0] == 'N' && 'N' in "NATS" && "EventMesh"[0] == 'E' && 'E' in "EventMesh";
    }

    lemma BackendInForce(s: State, trace: Trace)
      requires s.spec == cluster.spec && s.spec.Some? && ReconcileStep(s, trace, StateOf())
      requires Equipped(s.spec.value, cluster.natsModule, cluster.natsUrl, cluster.secret, cluster.configMapDomain)
      requires trace.switchedOk && trace.started && trace.found == Found(s.spec.value, trace.found.reply)
      requires trace.found.reply in {CredentialsIn(cluster.secret), SecretUnusable}
      requires cluster.status == Status(s.spec.value.backendType, WantedHash(s.spec.value.backendType, trace.found))
      requires s.spec.value.backendType == EVENT_MESH ==> cluster.publisherSecret == Some(s.spec.value.config.eventMeshSecret)
      requires cluster.publisher == Some(s.spec.value.backendType)
      ensures InForce(s.spec.value, trace, s)
    {
      hide ReconcileStep, HasDomain, MeshInForce, NatsInForce;
      assert |NATS| != |EVENT_MESH|;
      if s.spec.value.backendType == EVENT_MESH {
        MeshIsInForce(s, trace);
      } else if s.spec.value.backendType == NATS {
        NatsIsInForce(s, trace);
      }
    }

    lemma NothingWanted(s: State, trace: Trace)
      requires HasEmptyBackend(s.spec) && trace.switched == s && !trace.switchedOk && !trace.started
      ensures ReconcileStep(s, trace, s)
    {
    }

    lemma NotSwitched(s: State, trace: Trace)
      requires !HasEmptyBackend(s.spec) && SwitchStep(s, trace.switched, false) && !trace.switchedOk && !trace.started
      ensures ReconcileStep(s, trace, trace.switched)
    {
    }

    lemma Reconciles(s: State, trace: Trace, t: State)
      requires !HasEmptyBackend(s.spec) && SwitchStep(s, trace.switched, true) && trace.switchedOk && WantedStep(trace.switched, trace, t)
      ensures ReconcileStep(s, trace, t)
    {
    }

    lemma NotReached(s: State, status: Status, wanted: string, found: Inputs)
      requires status in {s.status, s.status.(activeBackend := wanted)} && found.reply.SecretUnusable?
      ensures wanted == NATS ==> NatsBackendStep(s, s.(status := status), found, false)
      ensures wanted == EVENT_MESH ==> MeshBackendStep(s, s, s.(status := status), found, false, false)
    {
      if wanted == NATS {
        NatsNotReached(s, status, found);
      }
      if wanted == EVENT_MESH {
        MeshNotReached(s, status, found);
      }
    }

    method HandleEventingDeletion(eventing: Eventing) returns (outcome: Outcome, ghost gone: bool)
      requires Wired(StateOf()) && eventing.spec == cluster.spec && eventing.status == cluster.status
      modifies this, cluster, eventing
      ensures DeletionStep(old(StateOf()), StateOf(), gone)
      ensures gone ==> old(cluster.finalizer)
      ensures old(cluster.finalizer) && outcome.Pass? ==> gone
      ensures cluster.faults >= old(cluster.faults)
      ensures outcome.Pass? <==>
                && cluster.faults == old(cluster.faults)
                && (old(cluster.finalizer) && eventing.spec.Some? ==> !old(cluster.subscriptionsExist))
      ensures gone && eventing.spec.Some? ==> !old(cluster.subscriptionsExist) && !cluster.clusterRoles
      ensures cluster.finalizer == (old(cluster.finalizer) && !gone)
    {
      hide NatsConfigOf, MeshConfigOf, IsBlank, NatsStop, MeshStop;
      gone := false;
      if !cluster.finalizer {
        return Pass, false;
      }
      if eventing.spec.None? {
        outcome := cluster.RemoveFinalizer();
        gone := outcome.Pass?;
        return;
      }
      var found := cluster.HasSubscriptions();
      if found != Some(false) {
        outcome := SyncEventingStatus(eventing);
        return Fail(Failed), false;
      }
      if eventing.spec.value.backendType == NATS {
        outcome := StopNATSSubManager();
      } else {
        outcome := StopEventMeshSubManager();
      }
      if outcome.Fail? {
        outcome := SyncEventingStatus(eventing);
        return Fail(Failed), false;
      }
      outcome := cluster.DeleteClusterRoles();
      if outcome.Fail? {
        outcome := SyncEventingStatus(eventing);
        return Fail(Failed), false;
      }
      outcome := cluster.RemoveFinalizer();
      gone := outcome.Pass?;
    }
  }
}
