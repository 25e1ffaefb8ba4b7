/** How the wanted records are built from the metadata (metadata/metadata.go). */
module Building {
  import opened Records
  import opened Naming
  import opened Zones

  datatype Container = Container(
    name: string, ports: seq<string>, serviceName: string, stackName: string,
    hostUUID: string, state: string, healthState: string)

  datatype Service = Service(name: string, kind: string, labels: map<string, string>, containers: seq<Container>)

  datatype Host = Host(name: string, agentIP: string, labels: map<string, string>)

  /** The fixed inputs: configuration, the two library functions left uninterpreted (template
      parsing and IP syntax), and the host table. A host lookup fails when the table lacks it. */
  datatype Setting = Setting(
    rootDomainName: string, ttl: int, nameTemplate: string,
    parse: string -> seq<TemplatePart>, validIP: string -> bool, hosts: map<string, Host>)

  const SERVICE_POLICY_LABEL := "io.pasturestack.service.external_dns"
  const HOST_POLICY_LABEL := "io.pasturestack.host.external_dns"
  const HOST_EXTERNAL_IP_LABEL := "io.pasturestack.host.external_dns_ip"
  const SERVICE_NAME_TEMPLATE_LABEL := "io.pasturestack.service.external_dns_name_template"
  const LEGACY_SERVICE_POLICY_LABEL := "io.rancher.service.external_dns"
  const LEGACY_HOST_POLICY_LABEL := "io.rancher.host.external_dns"
  const LEGACY_HOST_EXTERNAL_IP_LABEL := "io.rancher.host.external_dns_ip"
  const LEGACY_SERVICE_NAME_TEMPLATE_LABEL := "io.rancher.service.external_dns_name_template"

  /** The value of the neutral label if there is one, else of the historical label. */
  function CompatibilityLabelValue(labels: map<string, string>, primary: string, legacy: string): Option<string> {
    if primary in labels then Some(labels[primary])
    else if legacy in labels then Some(labels[legacy])
    else None
  }

  predicate ContainerStateOK(c: Container) {
    c.state == "running" && c.healthState in {"healthy", "updating-healthy", ""}
  }

  function Split(s: string, sep: char): (r: seq<string>)
    ensures r != []
  {
    if s == "" then [""]
    else
      var rest := Split(s[1..], sep);
      if s[0] == sep then [""] + rest else [[s[0]] + rest[0]] + rest[1..]
  }

  /** Takes 'ip:publicPort:privatePort' and returns a usable address. */
  function ParsePortToIP(port: string): (r: Option<string>)
    ensures r.Some? ==> r.value != "" && r.value != "0.0.0.0"
  {
    var parts := Split(port, ':');
    if |parts| == 3 && parts[0] != "" && parts[0] != "0.0.0.0" then Some(parts[0]) else None
  }

  // ---- which containers count, and for what ----

  function PolicyOf(s: Service): string {
    match CompatibilityLabelValue(s.labels, SERVICE_POLICY_LABEL, LEGACY_SERVICE_POLICY_LABEL)
    case Some(policy) => policy
    case None => "auto"
  }

  predicate ServiceCounts(s: Service) {
    PolicyOf(s) != "never" && s.kind in {"service", "loadBalancerService"}
  }

  predicate ContainerCounts(g: Setting, s: Service, c: Container) {
    && (c.ports != [] || PolicyOf(s) == "always")
    && ContainerStateOK(c)
    && c.hostUUID != "" && c.hostUUID in g.hosts
    && CompatibilityLabelValue(g.hosts[c.hostUUID].labels, HOST_POLICY_LABEL, LEGACY_HOST_POLICY_LABEL) != Some("false")
  }

  /** The host's label if set and non-empty, else the address of the first published port, else
      the host's agent address. */
  function ExternalIP(host: Host, c: Container): string {
    match CompatibilityLabelValue(host.labels, HOST_EXTERNAL_IP_LABEL, LEGACY_HOST_EXTERNAL_IP_LABEL)
    case Some(ip) => if ip != "" then ip else PortOrAgentIP(host, c)
    case None => PortOrAgentIP(host, c)
  }

  function PortOrAgentIP(host: Host, c: Container): string {
    if c.ports == [] then host.agentIP else
    match ParsePortToIP(c.ports[0])
    case Some(ip) => ip
    case None => host.agentIP
  }

  function NameOf(g: Setting, environment: string, s: Service, c: Container): string {
    var template := match CompatibilityLabelValue(s.labels, SERVICE_NAME_TEMPLATE_LABEL, LEGACY_SERVICE_NAME_TEMPLATE_LABEL)
                    case Some(t) => t
                    case None => g.nameTemplate;
    FqdnFromTemplate(g.parse(template), c.serviceName, c.stackName, environment, g.rootDomainName)
  }

  /** One address for one name, on behalf of one container's service and stack. */
  datatype Entry = Entry(fqdn: string, ip: string, service: string, stack: string)

  /** What one container of one service contributes. */
  function Contribution(g: Setting, environment: string, s: Service, c: Container): Option<Entry> {
    if ServiceCounts(s) && ContainerCounts(g, s, c) && g.validIP(ExternalIP(g.hosts[c.hostUUID], c))
    then Some(Entry(NameOf(g, environment, s, c), ExternalIP(g.hosts[c.hostUUID], c), c.serviceName, c.stackName))
    else None
  }

  function OfContainers(g: Setting, environment: string, s: Service, cs: seq<Container>): seq<Entry> {
    if cs == [] then [] else
    var last := |cs| - 1;
    OfContainers(g, environment, s, cs[..last]) +
      match Contribution(g, environment, s, cs[last]) { case Some(e) => [e] case None => [] }
  }

  function OfServices(g: Setting, environment: string, ss: seq<Service>): seq<Entry> {
    if ss == [] then [] else
    var last := |ss| - 1;
    OfServices(g, environment, ss[..last]) + OfContainers(g, environment, ss[last], ss[last].containers)
  }

  // ---- collecting entries into records ----

  /** addToDnsEntries: a new address is appended and the record taken over by the entry's
      service; an address already there changes nothing. */
  function AddEntry(ttl: int, d: Desired, e: Entry): Desired {
    if e.fqdn in d && e.ip in d[e.fqdn].record.records then d
    else
      var records := (if e.fqdn in d then d[e.fqdn].record.records else []) + [e.ip];
      d[e.fqdn := MetadataDnsRecord(e.service, e.stack, DnsRecord(e.fqdn, records, "A", ttl))]
  }

  function Collect(ttl: int, es: seq<Entry>): Desired {
    if es == [] then map[] else AddEntry(ttl, Collect(ttl, es[..|es| - 1]), es[|es| - 1])
  }

  function NamesOf(es: seq<Entry>): set<string> {
    set e | e in es :: e.fqdn
  }

  ghost function Build(g: Setting, environment: string, sf: string, ss: seq<Service>): Desired {
    var es := OfServices(g, environment, ss);
    if es == [] then map[]
    else Collect(g.ttl, es)[sf := MetadataDnsRecord("", "", StateRecordOf(sf, g.ttl, NamesOf(es)))]
  }

  /** The metadata client: a name that is refreshed on every read, an identity that is not. */
  class MetadataClient {
    var environmentName: string
    const environmentUUID: string

    constructor (environmentName: string, environmentUUID: string)
      ensures this.environmentName == environmentName && this.environmentUUID == environmentUUID
    {
      this.environmentName, this.environmentUUID := environmentName, environmentUUID;
    }

    /** `stack` and `services` are what the two metadata reads return, if they succeed. */
    method GetMetadataDnsRecords(g: Setting, stack: Option<string>, services: Option<seq<Service>>)
      returns (dnsEntries: Desired, err: bool)
      modifies this
      ensures environmentName == if stack.Some? then stack.value else old(environmentName)
      ensures err <==> stack.None? || services.None?
      ensures err ==> dnsEntries == map[]
      ensures !err ==> dnsEntries == Build(g, stack.value, StateFqdn(environmentUUID, g.rootDomainName), services.value)
    {
      dnsEntries := map[];
      err := UpdateEnvironmentName(stack);
      if err { return; }
      dnsEntries, err := GetContainersDnsRecords(g, services);
    }

    method UpdateEnvironmentName(stack: Option<string>) returns (err: bool)
      modifies this
      ensures err == stack.None?
      ensures environmentName == if stack.Some? then stack.value else old(environmentName)
    {
      if stack.None? { return true; }
      environmentName := stack.value;
      err := false;
    }

    /** The nested loops, with a cache of the hosts looked up so far. */
    method GetContainersDnsRecords(g: Setting, read: Option<seq<Service>>) returns (dnsEntries: Desired, err: bool)
      ensures err == read.None?
      ensures err ==> dnsEntries == map[]
      ensures !err ==> dnsEntries == Build(g, environmentName, StateFqdn(environmentUUID, g.rootDomainName), read.value)
    {
      hide StateFqdn, StateRecordOf, AddEntry, CompatibilityLabelValue, OfContainers, Contribution;
      dnsEntries, err := map[], false;
      if read.None? { return map[], true; }
      var services := read.value;
      var ourFqdns: set<string> := {};
      var hostMeta: map<string, Host> := map[];
      ghost var es: seq<Entry> := [];
      for i := 0 to |services|
        invariant es == OfServices(g, environmentName, services[..i])
        invariant dnsEntries == Collect(g.ttl, es) && ourFqdns == NamesOf(es)
        invariant forall u | u in hostMeta :: u in g.hosts && hostMeta[u] == g.hosts[u]
      {
        var service := services[i];
        assert services[..i + 1][..i] == services[..i];
        NothingFrom(g, environmentName, service, service.containers);
        var policy := "auto";
        var policyLabel := CompatibilityLabelValue(service.labels, SERVICE_POLICY_LABEL, LEGACY_SERVICE_POLICY_LABEL);
        if policyLabel.Some? {
          policy := policyLabel.value;
          if policy == "never" { continue; }
        }
        if service.kind != "service" && service.kind != "loadBalancerService" { continue; }
        dnsEntries, ourFqdns, hostMeta := AddService(g, service, policy, dnsEntries, ourFqdns, hostMeta, es);
        es := es + OfContainers(g, environmentName, service, service.containers);
      }
      assert services[..|services|] == services;
      if ourFqdns != {} {
        var stateFqdn := StateFqdn(environmentUUID, g.rootDomainName);
        var stateRec := StateRecord(stateFqdn, g.ttl, ourFqdns);
        dnsEntries := dnsEntries[stateFqdn := MetadataDnsRecord("", "", stateRec)];
      }
      assert es != [] ==> es[0].fqdn in ourFqdns;
    }

    /** The inner loop: the containers of one service that takes part. */
    method AddService(g: Setting, service: Service, policy: string, entries: Desired, names: set<string>,
                      cache: map<string, Host>, ghost before: seq<Entry>)
      returns (dnsEntries: Desired, ourFqdns: set<string>, hostMeta: map<string, Host>)
      requires ServiceCounts(service) && policy == PolicyOf(service)
      requires entries == Collect(g.ttl, before) && names == NamesOf(before)
      requires forall u | u in cache :: u in g.hosts && cache[u] == g.hosts[u]
      ensures var es := before + OfContainers(g, environmentName, service, service.containers);
              dnsEntries == Collect(g.ttl, es) && ourFqdns == NamesOf(es)
      ensures forall u | u in hostMeta :: u in g.hosts && hostMeta[u] == g.hosts[u]
    {
      hide Collect, NamesOf, Contribution;
      dnsEntries, ourFqdns, hostMeta := entries, names, cache;
      ghost var es := before;
      for j := 0 to |service.containers|
        invariant es == before + OfContainers(g, environmentName, service, service.containers[..j])
        invariant dnsEntries == Collect(g.ttl, es) && ourFqdns == NamesOf(es)
        invariant forall u | u in hostMeta :: u in g.hosts && hostMeta[u] == g.hosts[u]
      {
        var entry;
        entry, hostMeta := Consider(g, service, policy, service.containers[j], hostMeta);
        assert service.containers[..j + 1][..j] == service.containers[..j];
        if entry.Some? {
          CollectStep(g.ttl, es, entry.value);
          es := es + [entry.value];
          dnsEntries := AddToDnsEntries(g.ttl, dnsEntries, entry.value);
          ourFqdns := ourFqdns + {entry.value.fqdn};
        }
      }
      assert service.containers[..|service.containers|] == service.containers;
    }

    /** The body of the inner loop up to the point where the container's entry is known. */
    method Consider(g: Setting, service: Service, policy: string, container: Container, cache: map<string, Host>)
      returns (entry: Option<Entry>, hostMeta: map<string, Host>)
      requires ServiceCounts(service) && policy == PolicyOf(service)
      requires forall u | u in cache :: u in g.hosts && cache[u] == g.hosts[u]
      ensures entry == Contribution(g, environmentName, service, container)
      ensures forall u | u in hostMeta :: u in g.hosts && hostMeta[u] == g.hosts[u]
    {
      hide FqdnFromTemplate, ParsePortToIP, ContainerStateOK;
      entry, hostMeta := None, cache;
      if (|container.ports| == 0 && policy != "always") || !ContainerStateOK(container) { return; }
      var hostUUID := container.hostUUID;
      if |hostUUID| == 0 { return; }
      var host;
      if hostUUID in hostMeta {
        host := hostMeta[hostUUID];
      } else {
        if hostUUID !in g.hosts { return; }
        host := g.hosts[hostUUID];
        hostMeta := hostMeta[hostUUID := host];
      }
      var hostPolicy := CompatibilityLabelValue(host.labels, HOST_POLICY_LABEL, LEGACY_HOST_POLICY_LABEL);
      if hostPolicy == Some("false") { return; }
      var externalIP := "";
      var ipLabel := CompatibilityLabelValue(host.labels, HOST_EXTERNAL_IP_LABEL, LEGACY_HOST_EXTERNAL_IP_LABEL);
      if ipLabel.Some? && |ipLabel.value| > 0 {
        externalIP := ipLabel.value;
      } else if |container.ports| > 0 {
        var parsed := ParsePortToIP(container.ports[0]);
        if parsed.Some? { externalIP := parsed.value; }
      }
      if |externalIP| == 0 { externalIP := host.agentIP; }
      if !g.validIP(externalIP) { return; }
      var templateLabel := CompatibilityLabelValue(service.labels, SERVICE_NAME_TEMPLATE_LABEL, LEGACY_SERVICE_NAME_TEMPLATE_LABEL);
      var nameTemplate := if templateLabel.Some? then templateLabel.value else g.nameTemplate;
      var fqdn := FqdnFromTemplate(g.parse(nameTemplate), container.serviceName, container.stackName,
                                   environmentName, g.rootDomainName);
      entry := Some(Entry(fqdn, externalIP, container.serviceName, container.stackName));
    }

    method AddToDnsEntries(ttl: int, dnsEntries: Desired, e: Entry) returns (r: Desired)
      ensures r == AddEntry(ttl, dnsEntries, e)
    {
      var records := [e.ip];
      if e.fqdn in dnsEntries {
        records := dnsEntries[e.fqdn].record.records;
        for i := 0 to |records|
          invariant forall k | 0 <= k < i :: records[k] != e.ip
        {
          if records[i] == e.ip { return dnsEntries; }
        }
        records := records + [e.ip];
      } else {
        assert [] + [e.ip] == [e.ip];
      }
      r := dnsEntries[e.fqdn := MetadataDnsRecord(e.service, e.stack, DnsRecord(e.fqdn, records, "A", ttl))];
    }
  }

  lemma CollectStep(ttl: int, es: seq<Entry>, e: Entry)
    ensures Collect(ttl, es + [e]) == AddEntry(ttl, Collect(ttl, es), e)
    ensures NamesOf(es + [e]) == NamesOf(es) + {e.fqdn}
  {
    assert (es + [e])[..|es|] == es;
  }

  lemma NothingFrom(g: Setting, environment: string, s: Service, cs: seq<Container>)
    ensures !ServiceCounts(s) ==> OfContainers(g, environment, s, cs) == []
  {
    if cs != [] { NothingFrom(g, environment, s, cs[..|cs| - 1]); }
  }
}
