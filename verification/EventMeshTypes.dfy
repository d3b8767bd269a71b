/** What EventMesh and the status of a Subscription store about one subscription. */
module EventMeshTypes {
  import opened Subscriptions

  datatype WebhookAuth = WebhookAuth(authType: string, grantType: string, clientId: string, clientSecret: string, tokenUrl: string)

  datatype Event = Event(source: string, eventType: string)

  /** What the server reports about a subscription: its status and its deliveries. */
  datatype Report = Report(status: string, statusReason: string,
                           lastSuccessfulDelivery: string, lastFailedDelivery: string, lastFailedDeliveryReason: string)

  const ACTIVE := "Active"
  const PAUSED := "Paused"
  const NO_REPORT := Report("", "", "", "", "")

  datatype MeshSubscription = MeshSubscription(
    name: string, events: seq<Event>, webhookUrl: string, webhookAuth: Option<WebhookAuth>,
    qos: string, exemptHandshake: bool, contentMode: string,
    report: Report)
  {
    predicate Paused() {
      report.status == "Paused"
    }
  }

  /** GetCleanedEventMeshSubscription: without the credentials and without what the server reports. */
  function Cleaned(e: MeshSubscription): MeshSubscription {
    e.(webhookAuth := None, report := NO_REPORT)
  }

  /** The loop of GetCleanedEventMeshSubscription, which copies the events one by one. */
  method GetCleanedEventMeshSubscription(e: MeshSubscription) returns (cleaned: MeshSubscription)
    ensures cleaned == Cleaned(e)
  {
    var events: seq<Event> := [];
    for i := 0 to |e.events|
      invariant events == e.events[..i]
    {
      events := events + [Event(e.events[i].source, e.events[i].eventType)];
    }
    cleaned := MeshSubscription(e.name, events, e.webhookUrl, None, e.qos, e.exemptHandshake, e.contentMode, NO_REPORT);
  }

  /** Content hashes.  Modelled as free constructors: no two contents share a hash, and none hashes to the
      zero value of the status fields, which is NoHash. */
  datatype Hash = NoHash | SubscriptionHash(content: MeshSubscription) | AuthHash(auth: Option<WebhookAuth>)

  /** The four hashes of Status.Backend: Ev2hash, EventMeshHash, EventMeshLocalHash and WebhookAuthHash. */
  datatype Hashes = Hashes(ev2: Hash, server: Hash, local: Hash, auth: Hash)

  const NO_HASHES := Hashes(NoHash, NoHash, NoHash, NoHash)

  /** What a run that registers `desired` records. */
  function HashesOf(desired: MeshSubscription): Hashes {
    Hashes(SubscriptionHash(desired), SubscriptionHash(Cleaned(desired)), SubscriptionHash(Cleaned(desired)), AuthHash(desired.webhookAuth))
  }

  datatype MeshType = MeshType(originalType: string, meshType: string)

  /** The part of the status of a Subscription that the backend writes. */
  datatype BackendStatus = BackendStatus(types: seq<EventType>, meshTypes: seq<MeshType>, hashes: Hashes, report: Option<Report>)

  const NO_STATUS := BackendStatus([], [], NO_HASHES, None)

  /** A Subscription resource: its spec, and the copy of its status that a run works on. */
  class KymaSubscription {
    const spec: Subscription
    var status: BackendStatus

    constructor (spec: Subscription, status: BackendStatus)
      ensures this.spec == spec && this.status == status
    {
      this.spec, this.status := spec, status;
    }
  }
}
