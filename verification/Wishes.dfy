/** What the builder's records mean, and that they are what the reconciler needs. */
module Wishes {
  import opened Records
  import opened Ordering
  import opened Naming
  import opened Zones
  import opened Planning
  import opened Safety
  import opened Building

  // ---- which container is published, where, with which address ----

  /** A label under its neutral name, else under its historical name, else the default. */
  function LabelOr(labels: map<string, string>, neutral: string, historical: string, default: string): string {
    if neutral in labels then labels[neutral] else if historical in labels then labels[historical] else default
  }

  /** A port reads address:port:port. */
  ghost predicate IsTriple(port: string, ip: string, a: string, b: string) {
    ':' !in a && ':' !in b && port == ip + ":" + a + ":" + b
  }

  ghost predicate PortGives(port: string, ip: string) {
    ip != "" && ip != "0.0.0.0" && ':' !in ip && exists a, b :: IsTriple(port, ip, a, b)
  }

  /** The host's label decides; without one, the first published port if it names an address;
      otherwise the host's agent. */
  ghost predicate HasAddress(host: Host, c: Container, ip: string) {
    var fixed := LabelOr(host.labels, "io.pasturestack.host.external_dns_ip", "io.rancher.host.external_dns_ip", "");
    if fixed != "" then ip == fixed
    else if c.ports != [] && exists x :: PortGives(c.ports[0], x) then PortGives(c.ports[0], ip)
    else ip == host.agentIP
  }

  /** The rules of the metadata labels and states, in terms of the metadata. */
  ghost predicate Publishes(g: Setting, environment: string, s: Service, c: Container, n: string, ip: string) {
    var policy := LabelOr(s.labels, "io.pasturestack.service.external_dns", "io.rancher.service.external_dns", "auto");
    var template := LabelOr(s.labels, "io.pasturestack.service.external_dns_name_template",
                            "io.rancher.service.external_dns_name_template", g.nameTemplate);
    && (s.kind == "service" || s.kind == "loadBalancerService") && policy != "never"
    && c.state == "running" && (c.healthState == "healthy" || c.healthState == "updating-healthy" || c.healthState == "")
    && (c.ports != [] || policy == "always")
    && c.hostUUID != "" && c.hostUUID in g.hosts
    && LabelOr(g.hosts[c.hostUUID].labels, "io.pasturestack.host.external_dns", "io.rancher.host.external_dns", "true") != "false"
    && HasAddress(g.hosts[c.hostUUID], c, ip) && g.validIP(ip)
    && n == FqdnFromTemplate(g.parse(template), c.serviceName, c.stackName, environment, g.rootDomainName)
  }

  lemma AddressIff(host: Host, c: Container, ip: string)
    ensures ExternalIP(host, c) == ip <==> HasAddress(host, c, ip)
  {
    hide Split, ParsePortToIP, IsTriple;
    if c.ports != [] {
      forall x ensures ParsePortToIP(c.ports[0]) == Some(x) <==> PortGives(c.ports[0], x) { PortYieldsAddressIff(c.ports[0], x); }
    }
  }

  /** What a container contributes is what these rules publish, for its own service and stack. */
  lemma ContributionIff(g: Setting, environment: string, s: Service, c: Container, e: Entry)
    ensures Contribution(g, environment, s, c) == Some(e) <==>
            Publishes(g, environment, s, c, e.fqdn, e.ip) && e.service == c.serviceName && e.stack == c.stackName
  {
    hide HasAddress, ExternalIP, FqdnFromTemplate;
    if c.hostUUID in g.hosts {
      var host := g.hosts[c.hostUUID];
      AddressIff(host, c, e.ip);
      AddressIff(host, c, ExternalIP(host, c));
    }
  }

  /** Some container of some service maps to this name with this address. */
  ghost predicate Maps(g: Setting, environment: string, ss: seq<Service>, n: string, ip: string) {
    exists s, c :: s in ss && c in s.containers && Yields(g, environment, s, c, n, ip)
  }

  predicate Yields(g: Setting, environment: string, s: Service, c: Container, n: string, ip: string) {
    match Contribution(g, environment, s, c)
    case Some(e) => e.fqdn == n && e.ip == ip
    case None => false
  }

  lemma {:induction false} EntriesOfContainers(g: Setting, environment: string, s: Service, cs: seq<Container>, n: string, ip: string)
    ensures (exists e :: e in OfContainers(g, environment, s, cs) && e.fqdn == n && e.ip == ip) <==>
            (exists c :: c in cs && Yields(g, environment, s, c, n, ip))
    decreases |cs|
  {
    hide Contribution;
    if cs != [] {
      var front, c := cs[..|cs| - 1], cs[|cs| - 1];
      EntriesOfContainers(g, environment, s, front, n, ip);
      var es := OfContainers(g, environment, s, cs);
      assert cs == front + [c];
      if Yields(g, environment, s, c, n, ip) {
        assert es[|es| - 1] in es;
      }
      if e :| e in es && e.fqdn == n && e.ip == ip && e !in OfContainers(g, environment, s, front) {
        assert Yields(g, environment, s, c, n, ip);
      }
    }
  }

  lemma {:induction false} EntriesOfServices(g: Setting, environment: string, ss: seq<Service>, n: string, ip: string)
    ensures (exists e :: e in OfServices(g, environment, ss) && e.fqdn == n && e.ip == ip) <==> Maps(g, environment, ss, n, ip)
    decreases |ss|
  {
    hide Yields, OfContainers;
    if ss != [] {
      var front, s := ss[..|ss| - 1], ss[|ss| - 1];
      EntriesOfServices(g, environment, front, n, ip);
      EntriesOfContainers(g, environment, s, s.containers, n, ip);
      assert ss == front + [s];
    }
  }

  // ---- what collecting does ----

  /** Keeps the first of each value. */
  function Distinct(xs: seq<string>): (r: seq<string>)
    ensures forall x :: x in r <==> x in xs
    ensures forall i, j | 0 <= i < j < |r| :: r[i] != r[j]
  {
    if xs == [] then [] else
    var front := Distinct(xs[..|xs| - 1]);
    if xs[|xs| - 1] in front then front else front + [xs[|xs| - 1]]
  }

  /** The addresses entered for one name, in order. */
  function AddressesFor(es: seq<Entry>, n: string): seq<string> {
    if es == [] then [] else
    AddressesFor(es[..|es| - 1], n) + if es[|es| - 1].fqdn == n then [es[|es| - 1].ip] else []
  }

  lemma AddressesStep(es: seq<Entry>, e: Entry, n: string)
    ensures AddressesFor(es + [e], n) == AddressesFor(es, n) + if e.fqdn == n then [e.ip] else []
  {
    assert (es + [e])[..|es|] == es;
  }

  lemma DistinctStep(xs: seq<string>, x: string)
    ensures Distinct(xs + [x]) == if x in xs then Distinct(xs) else Distinct(xs) + [x]
  {
    assert (xs + [x])[..|xs|] == xs;
  }

  lemma {:induction false} AddressMembers(es: seq<Entry>, n: string, ip: string)
    ensures ip in AddressesFor(es, n) <==> exists e :: e in es && e.fqdn == n && e.ip == ip
    decreases |es|
  {
    if es != [] {
      var front, e := es[..|es| - 1], es[|es| - 1];
      AddressMembers(front, n, ip);
      assert es == front + [e];
    }
  }

  /** The record collected for a name holds the addresses entered for it, each once, in order
      of first appearance. */
  ghost predicate RecordIsRight(ttl: int, d: Desired, es: seq<Entry>, n: string) {
    && (n in d <==> n in NamesOf(es)) && (n in d <==> AddressesFor(es, n) != [])
    && (n in d ==> d[n].record == DnsRecord(n, Distinct(AddressesFor(es, n)), "A", ttl))
  }

  lemma AddingKeepsRight(ttl: int, d: Desired, es: seq<Entry>, e: Entry, n: string)
    requires RecordIsRight(ttl, d, es, n)
    ensures RecordIsRight(ttl, AddEntry(ttl, d, e), es + [e], n)
  {
    hide AddressesFor, Distinct, NamesOf, Collect;
    var xs := AddressesFor(es, n);
    AddressesStep(es, e, n);
    CollectStep(ttl, es, e);
    if e.fqdn != n {
      assert xs + [] == xs;
    } else {
      DistinctStep(xs, e.ip);
      EmptyDistinct();
      assert e.ip in Distinct(xs) <==> e.ip in xs;
      assert xs == [] ==> xs + [e.ip] == [e.ip] && Distinct([e.ip]) == [e.ip];
    }
  }

  lemma EmptyDistinct()
    ensures Distinct([]) == [] && forall x :: Distinct([x]) == [x]
  {
    forall x ensures Distinct([x]) == [x] { assert [x][..0] == []; }
  }

  lemma {:induction false} CollectedRecord(ttl: int, es: seq<Entry>, n: string)
    ensures RecordIsRight(ttl, Collect(ttl, es), es, n)
    decreases |es|
  {
    if es != [] {
      var front, e := es[..|es| - 1], es[|es| - 1];
      CollectedRecord(ttl, front, n);
      AddingKeepsRight(ttl, Collect(ttl, front), front, e, n);
      assert es == front + [e];
    }
  }

  /** Entry i is the last one that brought in a new address for n. */
  ghost predicate LastNew(es: seq<Entry>, n: string, i: nat) {
    && i < |es| && es[i].fqdn == n && es[i].ip !in AddressesFor(es[..i], n)
    && forall k | i < k < |es| && es[k].fqdn == n :: es[k].ip in AddressesFor(es[..k], n)
  }

  /** The record is credited to the service of the last entry that brought in a new address. */
  lemma {:induction false} CollectedOwner(ttl: int, es: seq<Entry>, n: string) returns (i: nat)
    requires n in NamesOf(es)
    ensures LastNew(es, n, i) && n in Collect(ttl, es)
    ensures Collect(ttl, es)[n].serviceName == es[i].service && Collect(ttl, es)[n].stackName == es[i].stack
    decreases |es|
  {
    hide AddressesFor, Distinct, Collect;
    var front, e := es[..|es| - 1], es[|es| - 1];
    assert es == front + [e];
    CollectStep(ttl, front, e);
    CollectedRecord(ttl, front, n);
    if e.fqdn == n && e.ip !in AddressesFor(front, n) {
      i := |es| - 1;
    } else {
      i := CollectedOwner(ttl, front, n);
      forall k | i <= k < |front| ensures front[..k] == es[..k] {}
    }
  }

  // ---- what is built ----

  /** A record is wanted at a name exactly when an eligible container maps to it, and its
      values are exactly those containers' addresses, each once. */
  lemma BuiltAddressesAreExact(g: Setting, environment: string, sf: string, ss: seq<Service>, n: string)
    requires n != sf
    ensures var d := Build(g, environment, sf, ss);
            && (n in d <==> exists ip :: Maps(g, environment, ss, n, ip))
            && (n in d ==>
                  var r := d[n].record;
                  && r.fqdn == n && r.rtype == "A" && r.ttl == g.ttl && r.records != []
                  && (forall ip :: ip in r.records <==> Maps(g, environment, ss, n, ip))
                  && (forall i, j | 0 <= i < j < |r.records| :: r.records[i] != r.records[j]))
  {
    hide OfServices, Maps, Collect, Distinct, AddressesFor;
    var es := OfServices(g, environment, ss);
    CollectedRecord(g.ttl, es, n);
    forall ip ensures ip in AddressesFor(es, n) <==> Maps(g, environment, ss, n, ip) {
      AddressMembers(es, n, ip);
      EntriesOfServices(g, environment, ss, n, ip);
    }
    if n in NamesOf(es) {
      var first := AddressesFor(es, n)[0];
      assert Maps(g, environment, ss, n, first);
      assert first in Distinct(AddressesFor(es, n));
    }
  }

  /** An address is wanted at a name exactly when some container of some service is published there
      with it. */
  lemma BuiltIff(g: Setting, environment: string, sf: string, ss: seq<Service>, n: string, ip: string)
    requires n != sf
    ensures var d := Build(g, environment, sf, ss);
            n in d && ip in d[n].record.records <==>
            exists s, c :: s in ss && c in s.containers && Publishes(g, environment, s, c, n, ip)
  {
    hide Build, Publishes, Contribution;
    BuiltAddressesAreExact(g, environment, sf, ss, n);
    MapsIff(g, environment, ss, n, ip);
  }

  lemma MapsIff(g: Setting, environment: string, ss: seq<Service>, n: string, ip: string)
    ensures Maps(g, environment, ss, n, ip) <==>
            exists s, c :: s in ss && c in s.containers && Publishes(g, environment, s, c, n, ip)
  {
    hide Publishes, Contribution;
    forall s, c ensures Yields(g, environment, s, c, n, ip) <==> Publishes(g, environment, s, c, n, ip) {
      ContributionIff(g, environment, s, c, Entry(n, ip, c.serviceName, c.stackName));
      if e :| Contribution(g, environment, s, c) == Some(e) { ContributionIff(g, environment, s, c, e); }
    }
  }

  /** Entries come service by service and container by container, in the order of the metadata. */
  lemma {:induction false} EntriesInOrder(g: Setting, environment: string, ss: seq<Service>, ts: seq<Service>)
    ensures OfServices(g, environment, ss + ts) == OfServices(g, environment, ss) + OfServices(g, environment, ts)
    decreases |ts|
  {
    hide OfContainers;
    if ts == [] {
      assert ss + ts == ss;
    } else {
      EntriesInOrder(g, environment, ss, ts[..|ts| - 1]);
      assert (ss + ts)[..|ss + ts| - 1] == ss + ts[..|ts| - 1];
    }
  }

  lemma {:induction false} ContainersInOrder(g: Setting, environment: string, s: Service, cs: seq<Container>, ds: seq<Container>)
    ensures OfContainers(g, environment, s, cs + ds) == OfContainers(g, environment, s, cs) + OfContainers(g, environment, s, ds)
    decreases |ds|
  {
    hide Contribution;
    if ds == [] {
      assert cs + ds == cs;
    } else {
      ContainersInOrder(g, environment, s, cs, ds[..|ds| - 1]);
      assert (cs + ds)[..|cs + ds| - 1] == cs + ds[..|ds| - 1];
    }
  }

  lemma OneAtATime(g: Setting, environment: string, s: Service, c: Container, e: Entry)
    ensures OfServices(g, environment, [s]) == OfContainers(g, environment, s, s.containers)
    ensures OfContainers(g, environment, s, [c]) == [e] <==>
            Publishes(g, environment, s, c, e.fqdn, e.ip) && e.service == c.serviceName && e.stack == c.stackName
    ensures OfContainers(g, environment, s, [c]) == [] || exists x :: OfContainers(g, environment, s, [c]) == [x]
  {
    hide Contribution, Publishes;
    assert [s][..0] == [] && [c][..0] == [] && OfServices(g, environment, []) == [];
    ContributionIff(g, environment, s, c, e);
    assert OfContainers(g, environment, s, [c]) ==
           match Contribution(g, environment, s, c) { case Some(x) => [x] case None => [] };
  }

  /** The state record is wanted exactly when some container is eligible, and without it
      nothing is wanted. */
  lemma StateRecordIsWantedIff(g: Setting, environment: string, sf: string, ss: seq<Service>)
    ensures sf in Build(g, environment, sf, ss) <==> exists n, ip :: Maps(g, environment, ss, n, ip)
    ensures sf !in Build(g, environment, sf, ss) ==> Build(g, environment, sf, ss) == map[]
  {
    hide OfServices, Maps, Collect, Listing;
    var es := OfServices(g, environment, ss);
    NamesAreMapped(g, environment, ss);
    forall n, ip | Maps(g, environment, ss, n, ip) ensures n in NamesOf(es) {}
    if es != [] {
      assert es[0].fqdn in NamesOf(es);
    }
  }

  /** The state record lists exactly the names mapped to, strictly ascending. */
  lemma BuiltStateRecordIsExact(g: Setting, environment: string, sf: string, ss: seq<Service>)
    requires sf in Build(g, environment, sf, ss)
    ensures var r := Build(g, environment, sf, ss)[sf].record;
            && r.fqdn == sf && r.rtype == "TXT" && r.ttl == g.ttl && r.records != []
            && (forall n :: n in r.records <==> exists ip :: Maps(g, environment, ss, n, ip))
            && forall i, j | 0 <= i < j < |r.records| :: StrLess(r.records[i], r.records[j])
  {
    hide OfServices, Maps, Collect, Listing;
    var es := OfServices(g, environment, ss);
    NamesAreMapped(g, environment, ss);
    StateRecordIsCanonical(sf, g.ttl, NamesOf(es), StateRecordOf(sf, g.ttl, NamesOf(es)).records);
    assert es[0].fqdn in NamesOf(es);
  }

  lemma NamesAreMapped(g: Setting, environment: string, ss: seq<Service>)
    ensures forall n :: n in NamesOf(OfServices(g, environment, ss)) <==> exists ip :: Maps(g, environment, ss, n, ip)
  {
    hide OfServices, Maps;
    var es := OfServices(g, environment, ss);
    forall n ensures n in NamesOf(es) <==> exists ip :: Maps(g, environment, ss, n, ip) {
      if n in NamesOf(es) {
        var e :| e in es && e.fqdn == n;
        EntriesOfServices(g, environment, ss, n, e.ip);
      }
      if ip :| Maps(g, environment, ss, n, ip) {
        EntriesOfServices(g, environment, ss, n, ip);
      }
    }
  }

  /** What is built is fit for the reconciler exactly when no container maps to the state
      record's own name. */
  lemma BuiltIsWellFormedIff(g: Setting, environment: string, sf: string, ss: seq<Service>)
    ensures WellFormed(Build(g, environment, sf, ss), sf) <==> !exists ip :: Maps(g, environment, ss, sf, ip)
  {
    hide Maps, Build;
    var d := Build(g, environment, sf, ss);
    StateRecordIsWantedIff(g, environment, sf, ss);
    if sf in d { BuiltStateRecordIsExact(g, environment, sf, ss); }
    forall n | n != sf
      ensures n in d <==> exists ip :: Maps(g, environment, ss, n, ip)
      ensures n in d ==> d[n].record.fqdn == n && d[n].record.records != [] && d[n].record.rtype == "A"
    {
      BuiltAddressesAreExact(g, environment, sf, ss, n);
    }
    if sf in d && !exists ip :: Maps(g, environment, ss, sf, ip) {
      assert forall n :: n in ValueSet(d[sf].record.records) <==> n in d.Keys - {sf};
    }
  }

  /** Values come in order of first appearance in the metadata. */
  lemma BuiltOrderIsFirstAppearance(g: Setting, environment: string, sf: string, ss: seq<Service>, n: string)
    requires n != sf && n in Build(g, environment, sf, ss)
    ensures Build(g, environment, sf, ss)[n].record.records == Distinct(AddressesFor(OfServices(g, environment, ss), n))
  {
    hide OfServices, Collect, Distinct, AddressesFor;
    CollectedRecord(g.ttl, OfServices(g, environment, ss), n);
  }

  // ---- order of the metadata ----

  /** Which containers belong to which services, forgetting all order and repetition. */
  function Pairs(ss: seq<Service>): set<(Service, Container)> {
    set s, c | s in ss && c in s.containers :: (s.(containers := []), c)
  }

  /** The order of the metadata shows in what is built: two containers that give one name different
      addresses, listed the other way round, are the same pairs but other wishes by value. So the
      comparison with the cache can report a change where the reconciler sees none. */
  lemma OrderShowsInTheRecords(g: Setting, environment: string, sf: string, s: Service, a: Container, b: Container, x: Entry, y: Entry)
    requires Contribution(g, environment, s, a) == Some(x) && Contribution(g, environment, s, b) == Some(y)
    requires x.fqdn == y.fqdn != sf && x.ip != y.ip
    ensures var ss, ts := [s.(containers := [a, b])], [s.(containers := [b, a])];
            Pairs(ss) == Pairs(ts) && Build(g, environment, sf, ss) != Build(g, environment, sf, ts)
  {
    hide Contribution, Collect, Listing, Pairs;
    var ss, ts := [s.(containers := [a, b])], [s.(containers := [b, a])];
    assert Pairs(ts) == Pairs(ss) by {
      assert multiset([b, a]) == multiset(ss[0].containers);
      PermutedContainersKeepPairs(ss, 0, [b, a]);
      assert ss[0 := ss[0].(containers := [b, a])] == ts;
    }
    TwoContainers(g, environment, sf, s, a, b, x, y);
    TwoContainers(g, environment, sf, s, b, a, y, x);
  }

  lemma TwoContainers(g: Setting, environment: string, sf: string, s: Service, a: Container, b: Container, x: Entry, y: Entry)
    requires Contribution(g, environment, s, a) == Some(x) && Contribution(g, environment, s, b) == Some(y)
    requires x.fqdn == y.fqdn != sf && x.ip != y.ip
    ensures var d := Build(g, environment, sf, [s.(containers := [a, b])]);
            x.fqdn in d && d[x.fqdn].record.records == [x.ip, y.ip]
  {
    hide Contribution, Collect, Listing, StateRecordOf;
    var t := s.(containers := [a, b]);
    SameServiceContributes(g, environment, s, t, a);
    SameServiceContributes(g, environment, s, t, b);
    assert [a, b][..1] == [a] && [a][..0] == [] && [t][..0] == [];
    assert OfContainers(g, environment, t, [a]) == [x];
    assert OfServices(g, environment, [t]) == [x, y];
    TwoEntries(g.ttl, x, y);
  }

  lemma TwoEntries(ttl: int, x: Entry, y: Entry)
    requires x.fqdn == y.fqdn && x.ip != y.ip
    ensures x.fqdn in Collect(ttl, [x, y]) && Collect(ttl, [x, y])[x.fqdn].record.records == [x.ip, y.ip]
  {
    assert [x, y][..1] == [x] && [x][..0] == [];
    assert Collect(ttl, [x]) == AddEntry(ttl, map[], x);
  }

  lemma SameServiceContributes(g: Setting, environment: string, s: Service, t: Service, c: Container)
    requires t == s.(containers := t.containers)
    ensures Contribution(g, environment, t, c) == Contribution(g, environment, s, c)
  {}

  lemma PermutedServicesKeepPairs(ss: seq<Service>, ts: seq<Service>)
    requires multiset(ss) == multiset(ts)
    ensures Pairs(ss) == Pairs(ts)
  {
    forall s ensures s in ss <==> s in ts { assert s in multiset(ss) <==> s in multiset(ts); }
  }

  lemma PermutedContainersKeepPairs(ss: seq<Service>, i: nat, cs: seq<Container>)
    requires i < |ss| && multiset(cs) == multiset(ss[i].containers)
    ensures Pairs(ss[i := ss[i].(containers := cs)]) == Pairs(ss)
  {
    var t := ss[i].(containers := cs);
    var ts := ss[i := t];
    forall c ensures c in cs <==> c in ss[i].containers { assert c in multiset(cs) <==> c in multiset(ss[i].containers); }
    assert t.(containers := []) == ss[i].(containers := []);
    forall p | p in Pairs(ts) ensures p in Pairs(ss) {
      var s, c :| s in ts && c in s.containers && p == (s.(containers := []), c);
      if s == t { assert ss[i] in ss && c in ss[i].containers; } else { assert s in ss; }
    }
    forall p | p in Pairs(ss) ensures p in Pairs(ts) {
      var s, c :| s in ss && c in s.containers && p == (s.(containers := []), c);
      if s == ss[i] { assert ts[i] in ts && c in ts[i].containers; }
      else {
        var k :| 0 <= k < |ss| && ss[k] == s;
        assert ts[k] == s;
      }
    }
  }

  lemma PairsDecideMaps(g: Setting, environment: string, ss: seq<Service>, ts: seq<Service>, n: string, ip: string)
    requires Pairs(ss) <= Pairs(ts) && Maps(g, environment, ss, n, ip)
    ensures Maps(g, environment, ts, n, ip)
  {
    var s, c :| s in ss && c in s.containers && Yields(g, environment, s, c, n, ip);
    assert (s.(containers := []), c) in Pairs(ts);
    var t, c' :| t in ts && c' in t.containers && (t.(containers := []), c') == (s.(containers := []), c);
    assert Contribution(g, environment, t, c) == Contribution(g, environment, s, c);
  }

  /** The same names and types with the same values, in whatever order. */
  ghost predicate SameWishes(d: Desired, d': Desired) {
    d.Keys == d'.Keys && forall n | n in d ::
      && KeyOf(d[n].record) == KeyOf(d'[n].record) && d[n].record.ttl == d'[n].record.ttl
      && ValueSet(d[n].record.records) == ValueSet(d'[n].record.records)
  }

  /** Order insensitivity of the builder: the key set, each key's value set and the exact state
      record depend only on which containers belong to which services. */
  lemma BuiltIgnoresOrder(g: Setting, environment: string, sf: string, ss: seq<Service>, ts: seq<Service>)
    requires Pairs(ss) == Pairs(ts)
    ensures var d, d' := Build(g, environment, sf, ss), Build(g, environment, sf, ts);
            SameWishes(d, d') && (sf in d ==> d'[sf] == d[sf])
  {
    hide Maps, Collect, Listing, Pairs, OfServices, WellFormed;
    var d, d' := Build(g, environment, sf, ss), Build(g, environment, sf, ts);
    forall n, ip ensures Maps(g, environment, ss, n, ip) <==> Maps(g, environment, ts, n, ip) {
      if Maps(g, environment, ss, n, ip) { PairsDecideMaps(g, environment, ss, ts, n, ip); }
      if Maps(g, environment, ts, n, ip) { PairsDecideMaps(g, environment, ts, ss, n, ip); }
    }
    StateRecordIsWantedIff(g, environment, sf, ss);
    StateRecordIsWantedIff(g, environment, sf, ts);
    NamesAreMapped(g, environment, ss);
    NamesAreMapped(g, environment, ts);
    assert NamesOf(OfServices(g, environment, ss)) == NamesOf(OfServices(g, environment, ts));
    forall n | n != sf
      ensures n in d <==> n in d'
      ensures n in d ==> KeyOf(d[n].record) == KeyOf(d'[n].record) && d[n].record.ttl == d'[n].record.ttl
                         && ValueSet(d[n].record.records) == ValueSet(d'[n].record.records)
    {
      BuiltAddressesAreExact(g, environment, sf, ss, n);
      BuiltAddressesAreExact(g, environment, sf, ts, n);
    }
  }

  lemma SameWishesSameSync(z: Zone, d: Desired, d': Desired, sf: string)
    requires SameWishes(d, d')
    ensures InSync(z, d, sf) <==> InSync(z, d', sf)
  {
    forall n | n in d ensures Holds(z, d[n].record) <==> Holds(z, d'[n].record) {}
    forall k ensures Dropped(z, d, sf, k) <==> Dropped(z, d', sf, k) {}
  }

  /** End to end: after a completed attempt for one reading of the metadata, a reading that
      differs only in order asks for no provider call, though the two may compare unequal. */
  lemma ReorderedMetadataIsIdle(g: Setting, environment: string, sf: string, ss: seq<Service>, ts: seq<Service>, z: Zone)
    requires Pairs(ss) == Pairs(ts) && ZoneOk(z, sf)
    requires !exists ip :: Maps(g, environment, ss, sf, ip)
    ensures var d, d' := Build(g, environment, sf, ss), Build(g, environment, sf, ts);
            Plan(ApplyAll(z, Plan(z, d, sf)), d', sf) == []
  {
    hide Plan, Build, Maps, Pairs, Target, InSync;
    var d, d' := Build(g, environment, sf, ss), Build(g, environment, sf, ts);
    BuiltIsWellFormedIff(g, environment, sf, ss);
    BuiltIsWellFormedIff(g, environment, sf, ts);
    if ip :| Maps(g, environment, ts, sf, ip) { PairsDecideMaps(g, environment, ts, ss, sf, ip); }
    BuiltIgnoresOrder(g, environment, sf, ss, ts);
    CompletedAttemptReachesTarget(z, d, sf);
    TargetIsInSync(z, d, sf);
    SameWishesSameSync(Target(z, d, sf), d, d', sf);
    NothingToDoIff(Target(z, d, sf), d', sf);
  }

  // ---- ports ----

  lemma {:induction false} SplitAtFirst(a: string, rest: string)
    requires ':' !in a
    ensures Split(a, ':') == [a] && Split(a + ":" + rest, ':') == [a] + Split(rest, ':')
    decreases |a|
  {
    if a == "" {
      assert (a + ":" + rest)[1..] == rest;
    } else {
      SplitAtFirst(a[1..], rest);
      assert (a + ":" + rest)[1..] == a[1..] + ":" + rest;
      assert [a[0]] + a[1..] == a;
    }
  }

  function Rejoin(parts: seq<string>): string
    requires parts != []
  {
    if |parts| == 1 then parts[0] else parts[0] + ":" + Rejoin(parts[1..])
  }

  lemma {:induction false} SplitRejoins(s: string)
    ensures Rejoin(Split(s, ':')) == s
    ensures forall i | 0 <= i < |Split(s, ':')| :: ':' !in Split(s, ':')[i]
    decreases |s|
  {
    if s != "" {
      SplitRejoins(s[1..]);
      var rest := Split(s[1..], ':');
      assert s == [s[0]] + s[1..];
      if s[0] == ':' {
        assert ([""] + rest)[1..] == rest;
      } else {
        assert ([[s[0]] + rest[0]] + rest[1..])[1..] == rest[1..];
      }
    }
  }

  /** A port string yields an address exactly when it reads address:port:port with an address
      that is neither empty nor the wildcard. */
  lemma PortYieldsAddressIff(port: string, ip: string)
    ensures ParsePortToIP(port) == Some(ip) <==>
            && ip != "" && ip != "0.0.0.0" && ':' !in ip
            && exists a, b :: IsTriple(port, ip, a, b)
  {
    hide Split, IsTriple;
    var parts := Split(port, ':');
    if |parts| == 3 { PartsMakeTriple(port); }
    if a, b :| ':' !in ip && IsTriple(port, ip, a, b) { TripleSplits(port, ip, a, b); }
  }

  lemma PartsMakeTriple(port: string)
    requires |Split(port, ':')| == 3
    ensures var parts := Split(port, ':'); ':' !in parts[0] && IsTriple(port, parts[0], parts[1], parts[2])
  {
    hide Split;
    SplitRejoins(port);
    var parts := Split(port, ':');
    assert parts[1..][1..] == [parts[2]] && Rejoin(parts[1..]) == parts[1] + ":" + parts[2];
    assert port == parts[0] + ":" + (parts[1] + ":" + parts[2]) == parts[0] + ":" + parts[1] + ":" + parts[2];
  }

  lemma TripleSplits(port: string, ip: string, a: string, b: string)
    requires ':' !in ip && IsTriple(port, ip, a, b)
    ensures Split(port, ':') == [ip, a, b]
  {
    hide Split;
    SplitAtFirst(ip, a + ":" + b);
    SplitAtFirst(a, b);
    SplitAtFirst(b, "");
    assert port == ip + ":" + (a + ":" + b);
    assert [ip] + ([a] + [b]) == [ip, a, b];
  }
}
