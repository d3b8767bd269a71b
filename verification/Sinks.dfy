/** Sink addresses, and the rule of the API gateway that exposes them.  Parsing an address
    (url.ParseRequestURI) is a parameter of the model. */
module Sinks {
  import opened Segments
  import opened Subscriptions
  import opened Numerals

  /** `host` still contains the port. */
  datatype Url = Url(scheme: string, host: string, port: string, path: string)

  type Parser = string -> Option<Url>

  const HTTP_PORT := 80
  const HTTPS_PORT := 443

  function SinkPath(url: Url): string {
    if url.path == "" then "/" else url.path
  }

  /** getSvcNsAndName: the namespace and the name of the service. */
  function ServiceOf(host: string): Option<(string, string)> {
    var parts := Split(host);
    if |parts| < 2 then None else Some((parts[1], parts[0]))
  }

  function ToLower(c: char): char {
    if 'A' <= c <= 'Z' then c - 'A' + 'a' else c
  }

  /** strconv.ParseUint in base 10 with 32 bits. */
  function ParseUint32(s: string): Option<nat> {
    if s == "" || exists c :: c in s && !('0' <= c <= '9') then None
    else
      var n := Decimal(s);
      if 0 <= n < 0x1_0000_0000 then Some(n) else None
  }

  /** GetPortNumberFromURL: an absent or zero port is the default one of the scheme. */
  function PortOf(url: Url): Option<nat> {
    var port := if url.port == "" then Some(0) else ParseUint32(url.port);
    if port == Some(0) then
      Some(if seq(|url.scheme|, i requires 0 <= i < |url.scheme| => ToLower(url.scheme[i])) == "https" then HTTPS_PORT else HTTP_PORT)
    else port
  }

  ghost predicate IsHttps(scheme: string) {
    |scheme| == 5 && forall i :: 0 <= i < 5 ==> scheme[i] == "https"[i] || scheme[i] == "HTTPS"[i]
  }

  /** The port that is written in the address, or else the usual one of its scheme. */
  ghost predicate LeadsTo(url: Url, port: nat) {
    if url.port == "" || Spells(url.port, 0) then port == if IsHttps(url.scheme) then 443 else 80
    else port < 0x1_0000_0000 && Spells(url.port, port)
  }

  lemma PortIff(url: Url, port: nat)
    ensures PortOf(url) == Some(port) <==> LeadsTo(url, port)
  {
    SchemeIff(url.scheme);
    hide Spells, Decimal, IsHttps;
    ParseUint32Iff(url.port, 0);
    ParseUint32Iff(url.port, port);
  }

  lemma ParseUint32Iff(s: string, n: nat)
    ensures ParseUint32(s) == Some(n) <==> n < 0x1_0000_0000 && Spells(s, n)
  {
    hide Decimal, Spells;
    SpellsIff(s, n);
    assert AllDigits(s) <==> !exists c :: c in s && !('0' <= c <= '9');
    if s != "" && AllDigits(s) {
      EveryDigitsSpell(s);
    }
  }

  lemma SchemeIff(scheme: string)
    ensures IsHttps(scheme) <==> seq(|scheme|, i requires 0 <= i < |scheme| => ToLower(scheme[i])) == "https"
  {
    var lower := seq(|scheme|, i requires 0 <= i < |scheme| => ToLower(scheme[i]));
    if |scheme| == 5 {
      assert lower == "https" <==> lower[0] == 'h' && lower[1] == 't' && lower[2] == 't' && lower[3] == 'p' && lower[4] == 's';
    }
  }

  /** The host starts with the name and the namespace of the service. */
  predicate NamesService(host: string, namespace: string, name: string) {
    && DOT !in name && DOT !in namespace
    && var front := name + [DOT] + namespace;
       host == front || front + [DOT] <= host
  }

  lemma ServiceIff(host: string, namespace: string, name: string)
    ensures ServiceOf(host) == Some((namespace, name)) <==> NamesService(host, namespace, name)
  {
    hide Split;
    if DOT !in host {
      SplitDotFree(host);
    } else {
      var first, tail := SplitUnfolds(host);
      if DOT !in tail {
        SplitDotFree(tail);
      } else {
        var second, rest := SplitUnfolds(tail);
        assert host == first + [DOT] + second + [DOT] + rest;
      }
    }
    if NamesService(host, namespace, name) {
      ServiceRead(host, namespace, name);
    }
  }

  lemma ServiceRead(host: string, namespace: string, name: string)
    requires NamesService(host, namespace, name)
    ensures ServiceOf(host) == Some((namespace, name))
  {
    hide Split;
    var front := name + [DOT] + namespace;
    if host == front {
      SplitAtFirst(name, namespace);
      SplitDotFree(namespace);
    } else {
      var rest := host[|front| + 1..];
      assert host == name + [DOT] + (namespace + [DOT] + rest);
      SplitAtFirst(name, namespace + [DOT] + rest);
      SplitAtFirst(namespace, rest);
    }
  }

  datatype Service = Service(name: string, port: nat, isExternal: bool)

  /** How requests are admitted: checked against the token issuer, or by an external authorizer. */
  datatype Access = Jwt(certsUrl: string) | ExtAuth

  datatype Rule = Rule(path: string, methods: seq<string>, service: Service, access: Access)

  datatype Owner = Owner(apiVersion: string, kind: string, name: string, uid: string, blockOwnerDeletion: bool)

  /** `hosts` is None for a nil list; a nil entry of the list is None. */
  datatype ApiRule = ApiRule(
    namespace: string, name: string, labels: map<string, string>, owners: seq<Owner>,
    service: Option<Service>, hosts: Option<seq<Option<string>>>, gateway: string, rules: seq<Rule>,
    state: string)

  function HostOf(apiRule: ApiRule): string {
    if apiRule.hosts.Some? && apiRule.hosts.value != [] && apiRule.hosts.value[0].Some? then apiRule.hosts.value[0].value
    else ""
  }

  predicate Exposes(apiRule: ApiRule, path: string) {
    exists i :: 0 <= i < |apiRule.rules| && apiRule.rules[i].path == path
  }

  /** The address that EventMesh is told to deliver to.  A path that no rule exposes is dropped. */
  function ExposedUrl(parse: Parser, apiRule: ApiRule, sink: string): Option<string> {
    match parse(sink)
    case None => None
    case Some(url) =>
      Some("https://" + HostOf(apiRule) + if Exposes(apiRule, SinkPath(url)) then SinkPath(url) else "")
  }

  /** An address at the first host of the rule, with the path of the sink if some path of the rule is that. */
  predicate AddressAt(address: string, apiRule: ApiRule, path: string, otherwise: string) {
    && "https://" <= address
    && var rest := address[8..];
       var paths := set i | 0 <= i < |apiRule.rules| :: apiRule.rules[i].path;
       var tail := if (if path == "" then "/" else path) !in paths then otherwise else if path == "" then "/" else path;
       match apiRule.hosts
       case Some(hosts) => if hosts == [] || hosts[0].None? then rest == tail else rest == hosts[0].value + tail
       case None => rest == tail
  }

  lemma ExposedUrlMeans(parse: Parser, apiRule: ApiRule, sink: string)
    requires ExposedUrl(parse, apiRule, sink).Some?
    ensures parse(sink).Some? && AddressAt(ExposedUrl(parse, apiRule, sink).value, apiRule, parse(sink).value.path, "")
  {
    var path := SinkPath(parse(sink).value);
    var address := ExposedUrl(parse, apiRule, sink).value;
    var paths := set i | 0 <= i < |apiRule.rules| :: apiRule.rules[i].path;
    assert path in paths <==> Exposes(apiRule, path);
    assert address == "https://" + (HostOf(apiRule) + if Exposes(apiRule, path) then path else "");
  }

  method GetExposedURLFromAPIRule(parse: Parser, apiRule: ApiRule, sink: string) returns (url: Option<string>)
    ensures url == ExposedUrl(parse, apiRule, sink)
  {
    var parsed := parse(sink);
    if parsed.None? {
      return None;
    }
    var path := "";
    for i := 0 to |apiRule.rules|
      invariant path == ""
      invariant forall j :: 0 <= j < i ==> apiRule.rules[j].path != SinkPath(parsed.value)
    {
      if apiRule.rules[i].path == SinkPath(parsed.value) {
        path := apiRule.rules[i].path;
        break;
      }
    }
    url := Some("https://" + HostOf(apiRule) + path);
  }
}
