/** From a Subscription resource to the subscription that is registered at EventMesh. */
module EventMeshConversion {
  import opened Segments
  import opened Subscriptions
  import opened Sinks
  import opened EventMeshTypes
  import opened EventMeshCleaner

  /** The configuration of the backend.  `nameOf` maps a name and a namespace to a name at EventMesh. */
  datatype Settings = Settings(
    namespace: string, prefix: string, webhookAuth: WebhookAuth,
    contentMode: string, exemptHandshake: bool, qos: string,
    nameOf: (string, string) -> string, parse: Parser)

  datatype EventTypeInfo = EventTypeInfo(originalType: string, cleanType: string, processedType: string)

  const SEGMENTS_LIMIT := 7
  const OAUTH2 := "oauth2"
  const CLIENT_CREDENTIALS := "client_credentials"
  const AT_MOST_ONCE := "AT_MOST_ONCE"
  const AT_LEAST_ONCE := "AT_LEAST_ONCE"

  function MeshSubject(source: string, eventType: string, prefix: string): string {
    prefix + [DOT] + source + [DOT] + eventType
  }

  predicate OverLimit(eventType: string) {
    |Split(eventType)| > SEGMENTS_LIMIT
  }

  function Processed(s: Subscription, prefix: string, t: string): EventTypeInfo {
    if s.typeMatching.Exact? then EventTypeInfo(t, t, t)
    else EventTypeInfo(t, CleanEventType(t), MeshSubject(CleanSource(s.source), CleanEventType(t), prefix))
  }

  predicate Rejected(s: Subscription, prefix: string, t: string) {
    s.typeMatching.Standard? && OverLimit(Processed(s, prefix, t).processedType)
  }

  function ProcessedAll(s: Subscription, prefix: string, types: seq<string>): seq<EventTypeInfo> {
    seq(|types|, i requires 0 <= i < |types| => Processed(s, prefix, types[i]))
  }

  function ProcessedTypes(s: Subscription, prefix: string): Option<seq<EventTypeInfo>> {
    if exists t :: t in s.types && Rejected(s, prefix, t) then None
    else Some(ProcessedAll(s, prefix, Unique(s.types)))
  }

  method GetProcessedEventTypes(s: Subscription, prefix: string) returns (infos: Option<seq<EventTypeInfo>>)
    ensures infos == ProcessedTypes(s, prefix)
  {
    hide Split, CleanEventType, CleanSource, MeshSubject, Unique;
    UniqueMembers(s.types);
    var unique := GetUniqueEventTypes(s.types);
    var processed: seq<EventTypeInfo> := [];
    for i := 0 to |unique|
      invariant processed == ProcessedAll(s, prefix, unique[..i])
      invariant forall j :: 0 <= j < i ==> !Rejected(s, prefix, unique[j])
    {
      assert unique[..i + 1] == unique[..i] + [unique[i]];
      if s.typeMatching.Exact? {
        processed := processed + [EventTypeInfo(unique[i], unique[i], unique[i])];
        continue;
      }
      var source, eventType := CleanSource(s.source), CleanEventType(unique[i]);
      var subject := MeshSubject(source, eventType, prefix);
      if OverLimit(subject) {
        assert Rejected(s, prefix, unique[i]);
        return None;
      }
      processed := processed + [EventTypeInfo(unique[i], eventType, subject)];
    }
    assert unique[..|unique|] == unique;
    assert forall t :: t in s.types ==> t in unique && !Rejected(s, prefix, t);
    infos := Some(processed);
  }

  lemma SubjectSegments(source: string, eventType: string, prefix: string)
    ensures |Split(MeshSubject(CleanSource(source), CleanEventType(eventType), prefix))|
            == |Split(prefix)| + 1 + Min(MAX_SEGMENTS, |Split(eventType)|)
  {
    hide Split, CleanEventType, CleanSource;
    CleanSourceIsOneSegment(source);
    CleanSegments(eventType);
    SplitConcat(prefix, CleanSource(source));
    SplitConcat(prefix + [DOT] + CleanSource(source), CleanEventType(eventType));
  }

  /** Whether processing fails can be told from the segments alone. */
  lemma ProcessingFailsIff(s: Subscription, prefix: string)
    ensures ProcessedTypes(s, prefix).None? <==>
            s.typeMatching.Standard? && exists t :: t in s.types && |Split(prefix)| + 1 + Min(3, |Split(t)|) > 7
  {
    hide Split, CleanEventType, CleanSource, MeshSubject;
    forall t | t in s.types
      ensures Rejected(s, prefix, t) <==>
              s.typeMatching.Standard? && |Split(prefix)| + 1 + Min(3, |Split(t)|) > 7
    {
      SubjectSegments(s.source, t, prefix);
    }
  }

  /** With a prefix of at most three segments no event type can be too long. */
  lemma ShortPrefixNeverFails(s: Subscription, prefix: string)
    requires |Split(prefix)| <= 3
    ensures ProcessedTypes(s, prefix).Some?
  {
    ProcessingFailsIff(s, prefix);
  }

  /** GetQos, which reads dashes as underscores. */
  function Qos(s: string): string {
    var normal := seq(|s|, i requires 0 <= i < |s| => if s[i] == '-' then '_' else s[i]);
    if normal == AT_MOST_ONCE then AT_MOST_ONCE else AT_LEAST_ONCE
  }

  /** strconv.ParseBool. */
  function ParseBool(s: string): Option<bool> {
    if s in {"1", "t", "T", "TRUE", "true", "True"} then Some(true)
    else if s in {"0", "f", "F", "FALSE", "false", "False"} then Some(false)
    else None
  }

  /** The credentials: the default ones unless the spec names an authentication type, whatever it is. */
  function AuthOf(config: map<string, string>, default: WebhookAuth): WebhookAuth {
    if "type" !in config then default
    else
      WebhookAuth(OAUTH2,
                  if "grantType" in config then CLIENT_CREDENTIALS else "",
                  if "clientId" in config then config["clientId"] else "",
                  if "clientSecret" in config then config["clientSecret"] else "",
                  if "tokenUrl" in config then config["tokenUrl"] else "")
  }

  function EventsOf(infos: seq<EventTypeInfo>, s: Subscription, namespace: string): seq<Event> {
    var source := if s.typeMatching.Exact? && s.source != "" then s.source else namespace;
    seq(|infos|, i requires 0 <= i < |infos| =>
      Event(source, if s.typeMatching.Exact? then infos[i].originalType else infos[i].processedType))
  }

  method GetEventMeshEvents(infos: seq<EventTypeInfo>, s: Subscription, namespace: string) returns (events: seq<Event>)
    ensures events == EventsOf(infos, s, namespace)
  {
    var source := namespace;
    if s.typeMatching.Exact? && s.source != "" {
      source := s.source;
    }
    events := [];
    for i := 0 to |infos|
      invariant events == EventsOf(infos, s, namespace)[..i]
    {
      var eventType := infos[i].processedType;
      if s.typeMatching.Exact? {
        eventType := infos[i].originalType;
      }
      events := events + [Event(source, eventType)];
    }
  }

  /** What has to be registered at EventMesh for `s`. */
  function Desired(s: Subscription, settings: Settings, infos: seq<EventTypeInfo>, apiRule: ApiRule): (desired: Option<MeshSubscription>)
    ensures desired.Some? ==> desired.value.name == settings.nameOf(s.name, s.namespace) && desired.value.report == NO_REPORT
  {
    match ExposedUrl(settings.parse, apiRule, s.sink)
    case None => None
    case Some(url) => Some(MeshSubscription(
      settings.nameOf(s.name, s.namespace),
      EventsOf(infos, s, settings.namespace),
      url,
      Some(AuthOf(s.config, settings.webhookAuth)),
      Qos(if "qos" in s.config then s.config["qos"] else settings.qos),
      if "exemptHandshake" !in s.config then settings.exemptHandshake else ParseBool(s.config["exemptHandshake"]) != Some(false),
      if "contentMode" in s.config && s.config["contentMode"] != "" then s.config["contentMode"] else settings.contentMode,
      NO_REPORT))
  }

  method ConvertKymaSubToEventMeshSub(s: Subscription, settings: Settings, infos: seq<EventTypeInfo>, apiRule: ApiRule)
    returns (desired: Option<MeshSubscription>)
    ensures desired == Desired(s, settings, infos, apiRule)
  {
    var qos, exemptHandshake, contentMode := Qos(settings.qos), settings.exemptHandshake, settings.contentMode;
    var name := settings.nameOf(s.name, s.namespace);
    if "qos" in s.config {
      qos := Qos(s.config["qos"]);
    }
    if "contentMode" in s.config && s.config["contentMode"] != "" {
      contentMode := s.config["contentMode"];
    }
    if "exemptHandshake" in s.config {
      var handshake := ParseBool(s.config["exemptHandshake"]);
      exemptHandshake := if handshake.None? then true else handshake.value;
    }
    var events := GetEventMeshEvents(infos, s, settings.namespace);
    var url := GetExposedURLFromAPIRule(settings.parse, apiRule, s.sink);
    if url.None? {
      return None;
    }
    var auth := AuthOf(s.config, settings.webhookAuth);
    desired := Some(MeshSubscription(name, events, url.value, Some(auth), qos, exemptHandshake, contentMode, NO_REPORT));
  }

  /** The text is the literal, if dashes are read as underscores. */
  predicate Reads(text: string, literal: string) {
    |text| == |literal| && forall i :: 0 <= i < |text| ==> text[i] == literal[i] || (text[i] == '-' && literal[i] == '_')
  }

  /** The value of a key, or the given text without it. */
  function Configured(config: map<string, string>, key: string, otherwise: string): string {
    if key in config then config[key] else otherwise
  }

  /** The entry delivers as the config of the spec says, and where that says nothing as the backend is set up. */
  predicate DeliversAs(config: map<string, string>, settings: Settings, e: MeshSubscription) {
    && e.qos in {"AT_MOST_ONCE", "AT_LEAST_ONCE"}
    && (e.qos == "AT_MOST_ONCE" <==> Reads(Configured(config, "qos", settings.qos), "AT_MOST_ONCE"))
    && e.contentMode == (if Configured(config, "contentMode", "") == "" then settings.contentMode else config["contentMode"])
    && (if "exemptHandshake" in config then !e.exemptHandshake <==> config["exemptHandshake"] in {"0", "f", "F", "FALSE", "false", "False"}
        else e.exemptHandshake == settings.exemptHandshake)
  }

  /** The entry carries the credentials of the config, if that names a type of them, and else the default ones. */
  predicate AuthenticatesAs(config: map<string, string>, settings: Settings, auth: WebhookAuth) {
    if "type" !in config then auth == settings.webhookAuth
    else
      && auth.authType == "oauth2"
      && auth.grantType == (if "grantType" in config then "client_credentials" else "")
      && auth.clientId == Configured(config, "clientId", "")
      && auth.clientSecret == Configured(config, "clientSecret", "")
      && auth.tokenUrl == Configured(config, "tokenUrl", "")
  }

  lemma DesiredAsConfigured(s: Subscription, settings: Settings, infos: seq<EventTypeInfo>, apiRule: ApiRule)
    requires Desired(s, settings, infos, apiRule).Some?
    ensures var e := Desired(s, settings, infos, apiRule).value;
            && DeliversAs(s.config, settings, e)
            && e.webhookAuth.Some? && AuthenticatesAs(s.config, settings, e.webhookAuth.value)
  {
    var e := Desired(s, settings, infos, apiRule).value;
    QosIff(Configured(s.config, "qos", settings.qos));
    hide Qos, ExposedUrl, EventsOf, Reads;
    assert e.qos == Qos(Configured(s.config, "qos", settings.qos));
  }

  lemma QosIff(text: string)
    ensures Qos(text) in {"AT_MOST_ONCE", "AT_LEAST_ONCE"}
    ensures Qos(text) == "AT_MOST_ONCE" <==> Reads(text, "AT_MOST_ONCE")
  {
    var normal := seq(|text|, i requires 0 <= i < |text| => if text[i] == '-' then '_' else text[i]);
    assert |AT_MOST_ONCE| != |AT_LEAST_ONCE|;
    if Reads(text, "AT_MOST_ONCE") {
      assert normal == AT_MOST_ONCE;
    }
    if normal == AT_MOST_ONCE {
      assert forall i :: 0 <= i < |text| ==> normal[i] == AT_MOST_ONCE[i] && AT_MOST_ONCE[i] != '-';
    }
  }

  /** The type under which `t` is registered. */
  function RegisteredType(s: Subscription, settings: Settings, t: string): string {
    if s.typeMatching.Exact? then t else settings.prefix + "." + CleanSource(s.source) + "." + CleanEventType(t)
  }

  /** Every type of the spec is registered. */
  ghost predicate NoTypeMissing(s: Subscription, settings: Settings, events: seq<Event>) {
    forall t :: t in s.types ==> exists event :: event in events && event.eventType == RegisteredType(s, settings, t)
  }

  /** Nothing else is, and all have the right source. */
  ghost predicate NoOtherEvent(s: Subscription, settings: Settings, events: seq<Event>) {
    forall event :: event in events ==>
      && event.source == (if s.typeMatching.Exact? && s.source != "" then s.source else settings.namespace)
      && exists t :: t in s.types && event.eventType == RegisteredType(s, settings, t)
  }

  /** The entry is the one that the spec asks for: its name, address, events, settings and credentials. */
  ghost predicate AsSpecified(s: Subscription, settings: Settings, apiRule: ApiRule, e: MeshSubscription) {
    && e.name == settings.nameOf(s.name, s.namespace)
    && settings.parse(s.sink).Some? && AddressAt(e.webhookUrl, apiRule, settings.parse(s.sink).value.path, "")
    && NoTypeMissing(s, settings, e.events) && NoOtherEvent(s, settings, e.events)
    && DeliversAs(s.config, settings, e)
    && e.webhookAuth.Some? && AuthenticatesAs(s.config, settings, e.webhookAuth.value)
  }

  lemma DesiredAsSpecified(s: Subscription, settings: Settings, apiRule: ApiRule)
    requires ProcessedTypes(s, settings.prefix).Some?
    requires Desired(s, settings, ProcessedTypes(s, settings.prefix).value, apiRule).Some?
    ensures AsSpecified(s, settings, apiRule, Desired(s, settings, ProcessedTypes(s, settings.prefix).value, apiRule).value)
  {
    var infos := ProcessedTypes(s, settings.prefix).value;
    DesiredAsConfigured(s, settings, infos, apiRule);
    DesiredEventsAsSpecified(s, settings, apiRule);
    ExposedUrlMeans(settings.parse, apiRule, s.sink);
    DesiredAddress(s, settings, infos, apiRule);
    hide Desired, ProcessedTypes, NoTypeMissing, NoOtherEvent, DeliversAs, AuthenticatesAs, AddressAt, ExposedUrl;
  }

  lemma DesiredEventsAsSpecified(s: Subscription, settings: Settings, apiRule: ApiRule)
    requires ProcessedTypes(s, settings.prefix).Some?
    requires Desired(s, settings, ProcessedTypes(s, settings.prefix).value, apiRule).Some?
    ensures var events := Desired(s, settings, ProcessedTypes(s, settings.prefix).value, apiRule).value.events;
            NoTypeMissing(s, settings, events) && NoOtherEvent(s, settings, events)
  {
    hide Desired, ProcessedTypes, RegisteredType, Processed, MeshSubject, CleanSource, CleanEventType, Unique, NoTypeMissing, NoOtherEvent;
    var unique := Unique(s.types);
    var events := Desired(s, settings, ProcessedTypes(s, settings.prefix).value, apiRule).value.events;
    UniqueMembers(s.types);
    DesiredEventsAt(s, settings, apiRule);
    forall i | 0 <= i < |unique|
      ensures events[i].eventType == RegisteredType(s, settings, unique[i])
    {
      TypeRegistered(s, settings, unique[i]);
    }
    EveryTypeByPosition(s, settings, unique, events);
    NoOtherByPosition(s, settings, unique, events);
  }

  lemma EveryTypeByPosition(s: Subscription, settings: Settings, unique: seq<string>, events: seq<Event>)
    requires |events| == |unique| && forall t :: t in s.types ==> t in unique
    requires forall i :: 0 <= i < |unique| ==> events[i].eventType == RegisteredType(s, settings, unique[i])
    ensures NoTypeMissing(s, settings, events)
  {
    hide RegisteredType;
    forall t | t in s.types
      ensures exists event :: event in events && event.eventType == RegisteredType(s, settings, t)
    {
      var i :| 0 <= i < |unique| && unique[i] == t;
      assert events[i] in events;
    }
  }

  lemma NoOtherByPosition(s: Subscription, settings: Settings, unique: seq<string>, events: seq<Event>)
    requires |events| == |unique| && forall t :: t in unique ==> t in s.types
    requires forall i :: 0 <= i < |unique| ==>
               && events[i].eventType == RegisteredType(s, settings, unique[i])
               && events[i].source == if s.typeMatching.Exact? && s.source != "" then s.source else settings.namespace
    ensures NoOtherEvent(s, settings, events)
  {
    hide RegisteredType;
    forall event | event in events
      ensures exists t :: t in s.types && event.eventType == RegisteredType(s, settings, t)
    {
      var i :| 0 <= i < |events| && events[i] == event;
      assert unique[i] in unique;
    }
  }

  lemma TypeRegistered(s: Subscription, settings: Settings, t: string)
    ensures RegisteredType(s, settings, t) == Processed(s, settings.prefix, t).processedType
    ensures RegisteredType(s, settings, t)
            == if s.typeMatching.Exact? then t else MeshSubject(CleanSource(s.source), CleanEventType(t), settings.prefix)
  {
    hide CleanSource, CleanEventType;
  }

  lemma DesiredAddress(s: Subscription, settings: Settings, infos: seq<EventTypeInfo>, apiRule: ApiRule)
    requires Desired(s, settings, infos, apiRule).Some?
    ensures ExposedUrl(settings.parse, apiRule, s.sink) == Some(Desired(s, settings, infos, apiRule).value.webhookUrl)
  {
  }

  /** What the server may report does not matter for that. */
  lemma ReportDoesNotMatter(s: Subscription, settings: Settings, apiRule: ApiRule, e: MeshSubscription, f: MeshSubscription)
    requires AsSpecified(s, settings, apiRule, e) && f.(report := NO_REPORT) == e.(report := NO_REPORT)
    ensures AsSpecified(s, settings, apiRule, f)
  {
    assert f.events == f.(report := NO_REPORT).events && f.name == f.(report := NO_REPORT).name;
    assert f.webhookAuth == f.(report := NO_REPORT).webhookAuth && f.webhookUrl == f.(report := NO_REPORT).webhookUrl;
    assert f.qos == f.(report := NO_REPORT).qos && f.contentMode == f.(report := NO_REPORT).contentMode
           && f.exemptHandshake == f.(report := NO_REPORT).exemptHandshake;
  }

  /** Every type of the spec is registered, and nothing else is. */
  lemma DesiredEventsExact(s: Subscription, settings: Settings, apiRule: ApiRule)
    requires ProcessedTypes(s, settings.prefix).Some?
    requires var infos := ProcessedTypes(s, settings.prefix).value; Desired(s, settings, infos, apiRule).Some?
    ensures var infos := ProcessedTypes(s, settings.prefix).value;
            var events := Desired(s, settings, infos, apiRule).value.events;
            && (forall t :: t in s.types ==>
                  exists e :: e in events && e.eventType == if s.typeMatching.Exact? then t
                                                            else MeshSubject(CleanSource(s.source), CleanEventType(t), settings.prefix))
            && (forall e :: e in events ==>
                  && e.source == (if s.typeMatching.Exact? && s.source != "" then s.source else settings.namespace)
                  && exists t :: t in s.types && e.eventType == Processed(s, settings.prefix, t).processedType)
  {
    hide CleanEventType, CleanSource, MeshSubject, Unique, ProcessedTypes, Desired;
    var unique := Unique(s.types);
    var events := Desired(s, settings, ProcessedTypes(s, settings.prefix).value, apiRule).value.events;
    UniqueMembers(s.types);
    DesiredEventsAt(s, settings, apiRule);
    forall t | t in s.types
      ensures exists e :: e in events && e.eventType == Processed(s, settings.prefix, t).processedType
    {
      var i :| 0 <= i < |unique| && unique[i] == t;
      assert events[i] in events;
    }
  }

  lemma DesiredEventsAt(s: Subscription, settings: Settings, apiRule: ApiRule)
    requires ProcessedTypes(s, settings.prefix).Some?
    requires Desired(s, settings, ProcessedTypes(s, settings.prefix).value, apiRule).Some?
    ensures var unique := Unique(s.types);
            var events := Desired(s, settings, ProcessedTypes(s, settings.prefix).value, apiRule).value.events;
            && |events| == |unique|
            && forall i :: 0 <= i < |unique| ==>
                 && events[i].source == (if s.typeMatching.Exact? && s.source != "" then s.source else settings.namespace)
                 && events[i].eventType == Processed(s, settings.prefix, unique[i]).processedType
  {
    hide CleanEventType, CleanSource, MeshSubject, Rejected, Unique, ExposedUrl, AuthOf, Qos, ParseBool;
  }

  /** A change of the default credentials is not a change of the subscription proper. */
  lemma CredentialRotation(s: Subscription, settings: Settings, auth: WebhookAuth, infos: seq<EventTypeInfo>, apiRule: ApiRule)
    requires Desired(s, settings, infos, apiRule).Some?
    ensures var rotated := Desired(s, settings.(webhookAuth := auth), infos, apiRule);
            && rotated.Some?
            && Cleaned(rotated.value) == Cleaned(Desired(s, settings, infos, apiRule).value)
            && (rotated.value.webhookAuth == Some(auth) <==> "type" !in s.config || AuthOf(s.config, auth) == auth)
  {
  }
}
