/** The Gandi adapter: every change is made on a fresh copy of the zone and takes effect when
    the copy becomes the active version (providers/gandi/gandi.go). */
module Gandi {
  import opened Records
  import opened Zones
  import opened Naming

  datatype GandiRecord = GandiRecord(id: nat, name: string, rtype: string, value: string, ttl: int)

  function TrimSuffix(s: string, suffix: string): string {
    if HasSuffix(s, suffix) then s[..|s| - |suffix|] else s
  }

  /** A suffix is cut off once, if it is there. */
  lemma TrimSuffixIs(s: string, suffix: string, r: string)
    ensures TrimSuffix(s, suffix) == r <==> s == r + suffix || (s == r && !exists front :: s == front + suffix)
  {
    HasSuffixIff(s, suffix);
    if s == r + suffix { assert r == s[..|s| - |suffix|]; }
    if HasSuffix(s, suffix) { assert s == s[..|s| - |suffix|] + suffix; }
  }

  lemma SuffixSharesEnd(s: string, suffix: string)
    requires suffix != ""
    ensures HasSuffix(s, suffix) ==> s[|s| - 1] == suffix[|suffix| - 1]
  {
    if HasSuffix(s, suffix) {
      assert s[|s| - |suffix|..][|suffix| - 1] == s[|s| - 1];
    }
  }

  // ---- names ----

  function ParseName(zoneDomain: string, fqdn: string): string {
    TrimSuffix(fqdn, "." + zoneDomain)
  }

  /** The name under which values are added. */
  function SubName(zoneDomain: string, fqdn: string): string {
    TrimSuffix(ParseName(zoneDomain, fqdn), "." + zoneDomain + ".")
  }

  /** The comparison by which existing values are found. */
  predicate Addresses(zoneDomain: string, r: GandiRecord, record: DnsRecord) {
    r.name + "." + zoneDomain + "." == ParseName(zoneDomain, record.fqdn) && r.rtype == record.rtype
  }

  /** Below the apex the two agree: a name inside the zone addresses exactly the records stored
      under its label, and adds under that label. */
  lemma InZoneNameAddressesItsLabel(zoneDomain: string, name: string, r: GandiRecord, record: DnsRecord)
    requires zoneDomain != "" && zoneDomain[|zoneDomain| - 1] != '.'
    requires record.fqdn == name + "." + zoneDomain + "."
    ensures SubName(zoneDomain, record.fqdn) == name
    ensures Addresses(zoneDomain, r, record) <==> r.name == name && r.rtype == record.rtype
  {
    var fqdn, suffix := record.fqdn, "." + zoneDomain;
    assert fqdn[|fqdn| - 1] == '.' && suffix[|suffix| - 1] == zoneDomain[|zoneDomain| - 1];
    SuffixSharesEnd(fqdn, suffix);
    var long := "." + zoneDomain + ".";
    assert fqdn == name + long;
    assert fqdn[|fqdn| - |long|..] == long && fqdn[..|fqdn| - |long|] == name;
    if Addresses(zoneDomain, r, record) {
      assert r.name + long == name + long;
      assert |r.name| == |name|;
      assert r.name == (r.name + long)[..|name|] && name == (name + long)[..|name|];
    }
  }

  /** Nor do they agree for a name without its final dot: it is added under its label, but no stored
      record is found, so an update removes nothing. */
  lemma DotlessNameIsAddedButNotFound(zoneDomain: string, name: string, r: GandiRecord, record: DnsRecord)
    requires record.fqdn == name + "." + zoneDomain && !exists front :: name == front + ("." + zoneDomain + ".")
    ensures SubName(zoneDomain, record.fqdn) == name
    ensures !Addresses(zoneDomain, r, record)
  {
    assert record.fqdn == name + ("." + zoneDomain);
    TrimSuffixIs(record.fqdn, "." + zoneDomain, name);
    TrimSuffixIs(name, "." + zoneDomain + ".", name);
    assert r.name + "." + zoneDomain + "." == r.name + ("." + zoneDomain + ".");
  }

  /** At the apex they do not: no stored record is ever found, so an update there removes
      nothing, and what it adds goes under a label of its own. */
  lemma ApexIsNeverFound(zoneDomain: string, r: GandiRecord, record: DnsRecord)
    requires zoneDomain != "" && zoneDomain[|zoneDomain| - 1] != '.' && record.fqdn == zoneDomain + "."
    ensures !Addresses(zoneDomain, r, record)
    ensures SubName(zoneDomain, record.fqdn) == zoneDomain + "."
  {
    var fqdn, suffix := record.fqdn, "." + zoneDomain;
    SuffixSharesEnd(fqdn, suffix);
    assert |r.name + "." + zoneDomain + "."| > |fqdn|;
  }

  // ---- contents of a version ----

  function Others(zoneDomain: string, rs: seq<GandiRecord>, record: DnsRecord): seq<GandiRecord> {
    if rs == [] then [] else
    var last := rs[|rs| - 1];
    Others(zoneDomain, rs[..|rs| - 1], record) + if Addresses(zoneDomain, last, record) then [] else [last]
  }

  function Found(zoneDomain: string, rs: seq<GandiRecord>, record: DnsRecord): seq<GandiRecord> {
    if rs == [] then [] else
    var last := rs[|rs| - 1];
    Found(zoneDomain, rs[..|rs| - 1], record) + if Addresses(zoneDomain, last, record) then [last] else []
  }

  function WithoutIds(rs: seq<GandiRecord>, ids: set<nat>): seq<GandiRecord> {
    if rs == [] then [] else
    var last := rs[|rs| - 1];
    WithoutIds(rs[..|rs| - 1], ids) + if last.id in ids then [] else [last]
  }

  ghost predicate UniqueIds(rs: seq<GandiRecord>, next: nat) {
    && (forall i, j | 0 <= i < j < |rs| :: rs[i].id != rs[j].id)
    && (forall i | 0 <= i < |rs| :: rs[i].id < next)
  }

  lemma {:induction false} WithoutMore(rs: seq<GandiRecord>, ids: set<nat>, id: nat)
    ensures WithoutIds(WithoutIds(rs, ids), {id}) == WithoutIds(rs, ids + {id})
    decreases |rs|
  {
    if rs != [] {
      var front, last := rs[..|rs| - 1], rs[|rs| - 1];
      WithoutMore(front, ids, id);
      var w := WithoutIds(front, ids);
      if last.id !in ids {
        assert (w + [last])[..|w|] == w;
      } else {
        assert w + [] == w;
      }
    }
  }

  lemma {:induction false} WithoutNone(rs: seq<GandiRecord>)
    ensures WithoutIds(rs, {}) == rs
    decreases |rs|
  {
    if rs != [] {
      WithoutNone(rs[..|rs| - 1]);
      assert rs == rs[..|rs| - 1] + [rs[|rs| - 1]];
    }
  }

  lemma {:induction false} WithoutKeepsUnique(rs: seq<GandiRecord>, ids: set<nat>, next: nat)
    requires UniqueIds(rs, next)
    ensures UniqueIds(WithoutIds(rs, ids), next)
    ensures forall r | r in WithoutIds(rs, ids) :: r in rs
    decreases |rs|
  {
    if rs != [] {
      var front, last := rs[..|rs| - 1], rs[|rs| - 1];
      WithoutKeepsUnique(front, ids, next);
      assert rs == front + [last];
      var w := WithoutIds(front, ids);
      forall i | 0 <= i < |w| ensures w[i].id != last.id {
        assert w[i] in front;
        var j :| 0 <= j < |front| && front[j] == w[i];
        assert rs[j] == w[i];
      }
    }
  }

  function IdsOf(rs: seq<GandiRecord>): set<nat> {
    set r | r in rs :: r.id
  }

  lemma {:induction false} FoundMembers(zoneDomain: string, rs: seq<GandiRecord>, record: DnsRecord)
    ensures forall r :: r in Found(zoneDomain, rs, record) <==> r in rs && Addresses(zoneDomain, r, record)
    decreases |rs|
  {
    hide Addresses;
    if rs != [] {
      FoundMembers(zoneDomain, rs[..|rs| - 1], record);
      assert rs == rs[..|rs| - 1] + [rs[|rs| - 1]];
    }
  }

  lemma {:induction false} DroppingIdsDropsAddressed(zoneDomain: string, rs: seq<GandiRecord>, record: DnsRecord, ids: set<nat>)
    requires forall r | r in rs :: r.id in ids <==> Addresses(zoneDomain, r, record)
    ensures WithoutIds(rs, ids) == Others(zoneDomain, rs, record)
    decreases |rs|
  {
    hide Addresses;
    if rs != [] {
      var front := rs[..|rs| - 1];
      assert rs[|rs| - 1] in rs && forall r | r in front :: r in rs;
      DroppingIdsDropsAddressed(zoneDomain, front, record, ids);
    }
  }

  /** Deleting every record found leaves exactly the other ones. */
  lemma DeletingFoundLeavesOthers(zoneDomain: string, rs: seq<GandiRecord>, record: DnsRecord, next: nat)
    requires UniqueIds(rs, next)
    ensures WithoutIds(rs, IdsOf(Found(zoneDomain, rs, record))) == Others(zoneDomain, rs, record)
  {
    hide Addresses, Others, WithoutIds, Found;
    FoundMembers(zoneDomain, rs, record);
    var found := Found(zoneDomain, rs, record);
    forall r | r in rs ensures r.id in IdsOf(found) <==> Addresses(zoneDomain, r, record) {
      if r.id in IdsOf(found) {
        var f :| f in found && f.id == r.id;
        var i :| 0 <= i < |rs| && rs[i] == r;
        var j :| 0 <= j < |rs| && rs[j] == f;
      }
    }
    DroppingIdsDropsAddressed(zoneDomain, rs, record, IdsOf(found));
  }

  /** These records hold the first values of the record, in order. */
  ghost predicate AreFor(added: seq<GandiRecord>, sub: string, record: DnsRecord) {
    |added| <= |record.records| && forall i | 0 <= i < |added| ::
      added[i].name == sub && added[i].rtype == record.rtype && added[i].value == record.records[i] && added[i].ttl == record.ttl
  }

  // ---- the server ----

  class VersionedZone {
    var versions: map<nat, seq<GandiRecord>>
    var active: nat
    var nextVersion: nat
    var nextId: nat
    var script: seq<Fate>

    ghost predicate Valid()
      reads this
    {
      && active in versions
      && forall v | v in versions :: v < nextVersion && UniqueIds(versions[v], nextId)
    }

    constructor (script: seq<Fate>)
      ensures Valid() && Live() == [] && this.script == script
    {
      versions, active, nextVersion, nextId := map[0 := []], 0, 1, 0;
      this.script := script;
    }

    /** The records the world sees. */
    ghost function Live(): seq<GandiRecord>
      requires Valid()
      reads this
    {
      versions[active]
    }

    method Fails() returns (fate: Fate)
      modifies this`script
      ensures fate == NextFate(old(script)) && script == Later(old(script))
    {
      fate := NextFate(script);
      script := Later(script);
    }

    method New(from: nat) returns (version: nat, err: bool)
      requires Valid() && from in versions
      modifies this
      ensures Valid() && active == old(active) && version !in old(versions) && script == Later(old(script))
      ensures versions == if NextFate(old(script)) == Refused then old(versions) else old(versions)[version := old(versions)[from]]
      ensures err == (NextFate(old(script)) != Completes)
    {
      var fate := Fails();
      version := nextVersion;
      if fate != Refused {
        versions := versions[version := versions[from]];
        nextVersion := nextVersion + 1;
      }
      err := fate != Completes;
    }

    method Add(version: nat, name: string, rtype: string, value: string, ttl: int) returns (err: bool)
      requires Valid() && version in versions
      modifies this
      ensures Valid() && active == old(active) && script == Later(old(script))
      ensures versions == if NextFate(old(script)) == Refused then old(versions)
                          else old(versions)[version := old(versions)[version] + [GandiRecord(old(nextId), name, rtype, value, ttl)]]
      ensures err == (NextFate(old(script)) != Completes)
    {
      var fate := Fails();
      if fate != Refused {
        versions := versions[version := versions[version] + [GandiRecord(nextId, name, rtype, value, ttl)]];
        nextId := nextId + 1;
      }
      err := fate != Completes;
    }

    method Delete(version: nat, id: nat) returns (err: bool)
      requires Valid() && version in versions
      modifies this
      ensures Valid() && active == old(active) && nextId == old(nextId) && script == Later(old(script))
      ensures versions == if NextFate(old(script)) == Refused then old(versions)
                          else old(versions)[version := WithoutIds(old(versions)[version], {id})]
      ensures err == (NextFate(old(script)) != Completes)
    {
      var fate := Fails();
      if fate != Refused {
        WithoutKeepsUnique(versions[version], {id}, nextId);
        versions := versions[version := WithoutIds(versions[version], {id})];
      }
      err := fate != Completes;
    }

    method Set(version: nat) returns (err: bool)
      requires Valid() && version in versions
      modifies this
      ensures Valid() && versions == old(versions) && script == Later(old(script))
      ensures active == if NextFate(old(script)) == Refused then old(active) else version
      ensures err == (NextFate(old(script)) != Completes)
    {
      var fate := Fails();
      if fate != Refused { active := version; }
      err := fate != Completes;
    }
  }

  class GandiProvider {
    const zone: VersionedZone
    const zoneDomain: string

    constructor (zone: VersionedZone, zoneDomain: string)
      ensures this.zone == zone && this.zoneDomain == zoneDomain
    {
      this.zone, this.zoneDomain := zone, zoneDomain;
    }

    /** A copy of the active version; the active version itself is not touched. */
    method NewZoneVersion() returns (version: nat, err: bool)
      requires zone.Valid()
      modifies zone
      ensures zone.Valid() && zone.active == old(zone.active) && zone.Live() == old(zone.Live())
      ensures !err ==> version in zone.versions && version != zone.active && zone.versions[version] == old(zone.Live())
      ensures (forall f | f in old(zone.script) :: f == Completes) ==> !err && forall f | f in zone.script :: f == Completes
    {
      version := 0;
      ghost var script := zone.script;
      assert script != [] ==> script[0] in script;
      var fate := zone.Fails();
      ghost var later := zone.script;
      assert forall f | f in later :: f in script;
      assert later != [] ==> later[0] in later;
      if fate != Completes { return 0, true; }
      version, err := zone.New(zone.active);
      assert forall f | f in zone.script :: f in later;
    }

    /** Values are added one by one to a version that is not active. */
    method VersionAddRecord(version: nat, record: DnsRecord) returns (err: bool, ghost added: seq<GandiRecord>)
      requires zone.Valid() && version in zone.versions && version != zone.active
      modifies zone
      ensures zone.Valid() && version in zone.versions
      ensures zone.active == old(zone.active) && zone.Live() == old(zone.Live())
      ensures zone.versions[version] == old(zone.versions)[version] + added
      ensures AreFor(added, SubName(zoneDomain, record.fqdn), record) && (!err ==> |added| == |record.records|)
      ensures (forall f | f in old(zone.script) :: f == Completes) ==> !err && forall f | f in zone.script :: f == Completes
    {
      hide UniqueIds, TrimSuffix;
      added, err := [], false;
      for i := 0 to |record.records|
        invariant zone.Valid() && version in zone.versions && |added| == i && !err
        invariant zone.active == old(zone.active) && zone.Live() == old(zone.Live())
        invariant zone.versions[version] == old(zone.versions)[version] + added
        invariant AreFor(added, SubName(zoneDomain, record.fqdn), record)
        invariant (forall f | f in old(zone.script) :: f == Completes) ==> forall f | f in zone.script :: f == Completes
      {
        var sub := TrimSuffix(ParseName(zoneDomain, record.fqdn), "." + zoneDomain + ".");
        ghost var script, id, before := zone.script, zone.nextId, zone.versions[version];
        assert script != [] ==> script[0] in script;
        err := zone.Add(version, sub, record.rtype, record.records[i], record.ttl);
        assert forall f | f in zone.script :: f in script;
        if NextFate(script) != Refused {
          added := added + [GandiRecord(id, sub, record.rtype, record.records[i], record.ttl)];
        }
        if err { return; }
      }
    }

    method FindRecords(version: nat, record: DnsRecord) returns (records: seq<GandiRecord>, err: bool)
      requires zone.Valid() && version in zone.versions
      modifies zone`script
      ensures zone.script == Later(old(zone.script)) && err == (NextFate(old(zone.script)) != Completes)
      ensures !err ==> records == Found(zoneDomain, zone.versions[version], record)
    {
      records := [];
      var fate := zone.Fails();
      err := fate != Completes;
      if err { return; }
      var resp := zone.versions[version];
      for i := 0 to |resp|
        invariant records == Found(zoneDomain, resp[..i], record)
      {
        assert resp[..i + 1][..i] == resp[..i];
        if Addresses(zoneDomain, resp[i], record) {
          records := records + [resp[i]];
        }
      }
      assert resp[..|resp|] == resp;
    }

    method VersionRemoveRecord(version: nat, record: DnsRecord) returns (err: bool)
      requires zone.Valid() && version in zone.versions && version != zone.active
      modifies zone
      ensures zone.Valid() && version in zone.versions
      ensures zone.active == old(zone.active) && zone.Live() == old(zone.Live())
      ensures !err ==> zone.versions[version] == Others(zoneDomain, old(zone.versions)[version], record)
      ensures (forall f | f in old(zone.script) :: f == Completes) ==> !err && forall f | f in zone.script :: f == Completes
    {
      hide UniqueIds, WithoutIds, Addresses, Found, Others;
      ghost var before, next := zone.versions[version], zone.nextId;
      ghost var start := zone.script;
      assert start != [] ==> start[0] in start;
      assert forall f | f in Later(start) :: f in start;
      var records;
      records, err := FindRecords(version, record);
      if err { return; }
      WithoutNone(before);
      assert IdsOf(records[..0]) == {};
      for i := 0 to |records|
        invariant zone.Valid() && version in zone.versions && !err && zone.nextId == next
        invariant zone.active == old(zone.active) && zone.Live() == old(zone.Live())
        invariant zone.versions[version] == WithoutIds(before, IdsOf(records[..i]))
        invariant (forall f | f in old(zone.script) :: f == Completes) ==> forall f | f in zone.script :: f == Completes
      {
        ghost var script := zone.script;
        assert script != [] ==> script[0] in script;
        err := zone.Delete(version, records[i].id);
        assert forall f | f in zone.script :: f in script;
        if err { return; }
        WithoutMore(before, IdsOf(records[..i]), records[i].id);
        assert records[..i + 1] == records[..i] + [records[i]];
        assert IdsOf(records[..i + 1]) == IdsOf(records[..i]) + {records[i].id};
      }
      assert records[..|records|] == records;
      DeletingFoundLeavesOthers(zoneDomain, before, record, next);
    }

    /** Copy, remove, add, switch. Whatever fails and wherever, the live zone is either wholly
        as it was or wholly the new one: the old records less those addressed, plus one record
        per value. A completed update is always the latter. */
    method UpdateRecord(record: DnsRecord) returns (err: bool, ghost added: seq<GandiRecord>)
      requires zone.Valid()
      modifies zone
      ensures zone.Valid()
      ensures var changed := Others(zoneDomain, old(zone.Live()), record) + added;
              && (zone.Live() == old(zone.Live()) || zone.Live() == changed)
              && (!err ==> zone.Live() == changed)
              && (zone.Live() != old(zone.Live()) || !err ==>
                    |added| == |record.records| && AreFor(added, SubName(zoneDomain, record.fqdn), record))
      ensures (forall f | f in old(zone.script) :: f == Completes) ==> !err
    {
      hide UniqueIds, Others;
      added := [];
      var newVersion;
      newVersion, err := NewZoneVersion();
      if err { return; }
      err := VersionRemoveRecord(newVersion, record);
      if err { return; }
      err, added := VersionAddRecord(newVersion, record);
      if err { return; }
      assert zone.script != [] ==> zone.script[0] in zone.script;
      err := zone.Set(newVersion);
    }

    method AddRecord(record: DnsRecord) returns (err: bool, ghost added: seq<GandiRecord>)
      requires zone.Valid()
      modifies zone
      ensures zone.Valid()
      ensures var changed := old(zone.Live()) + added;
              && (zone.Live() == old(zone.Live()) || zone.Live() == changed)
              && (!err ==> zone.Live() == changed && |added| == |record.records|)
              && AreFor(added, SubName(zoneDomain, record.fqdn), record)
      ensures (forall f | f in old(zone.script) :: f == Completes) ==> !err
    {
      hide UniqueIds;
      added := [];
      var newVersion;
      newVersion, err := NewZoneVersion();
      if err { return; }
      err, added := VersionAddRecord(newVersion, record);
      if err { return; }
      assert zone.script != [] ==> zone.script[0] in zone.script;
      err := zone.Set(newVersion);
    }

    method RemoveRecord(record: DnsRecord) returns (err: bool)
      requires zone.Valid()
      modifies zone
      ensures zone.Valid()
      ensures var changed := Others(zoneDomain, old(zone.Live()), record);
              && (zone.Live() == old(zone.Live()) || zone.Live() == changed)
              && (!err ==> zone.Live() == changed)
      ensures (forall f | f in old(zone.script) :: f == Completes) ==> !err
    {
      hide UniqueIds, Others;
      var newVersion;
      newVersion, err := NewZoneVersion();
      if err { return; }
      err := VersionRemoveRecord(newVersion, record);
      if err { return; }
      assert zone.script != [] ==> zone.script[0] in zone.script;
      err := zone.Set(newVersion);
    }
  }

  /** For a name below the apex a completed update leaves exactly the new values under it. */
  lemma UpdatedSetHoldsNewValuesOnly(zoneDomain: string, name: string, rs: seq<GandiRecord>, added: seq<GandiRecord>, record: DnsRecord)
    requires zoneDomain != "" && zoneDomain[|zoneDomain| - 1] != '.'
    requires record.fqdn == name + "." + zoneDomain + "."
    requires AreFor(added, SubName(zoneDomain, record.fqdn), record)
    ensures Found(zoneDomain, Others(zoneDomain, rs, record) + added, record) == added
    ensures Others(zoneDomain, Others(zoneDomain, rs, record) + added, record) == Others(zoneDomain, rs, record)
  {
    hide Addresses, SubName;
    forall i | 0 <= i < |added| ensures Addresses(zoneDomain, added[i], record) {
      InZoneNameAddressesItsLabel(zoneDomain, name, added[i], record);
    }
    OthersHaveNone(zoneDomain, rs, record);
    AppendAddressed(zoneDomain, Others(zoneDomain, rs, record), added, record);
    assert [] + added == added;
  }

  lemma {:induction false} OthersHaveNone(zoneDomain: string, rs: seq<GandiRecord>, record: DnsRecord)
    ensures var os := Others(zoneDomain, rs, record);
            Found(zoneDomain, os, record) == [] && Others(zoneDomain, os, record) == os
    decreases |rs|
  {
    hide Addresses;
    if rs != [] {
      var front, last := rs[..|rs| - 1], rs[|rs| - 1];
      OthersHaveNone(zoneDomain, front, record);
      var os := Others(zoneDomain, front, record);
      if !Addresses(zoneDomain, last, record) {
        assert (os + [last])[..|os|] == os;
      } else {
        assert os + [] == os;
      }
    }
  }

  lemma {:induction false} AppendAddressed(zoneDomain: string, rs: seq<GandiRecord>, added: seq<GandiRecord>, record: DnsRecord)
    requires forall i | 0 <= i < |added| :: Addresses(zoneDomain, added[i], record)
    ensures Found(zoneDomain, rs + added, record) == Found(zoneDomain, rs, record) + added
    ensures Others(zoneDomain, rs + added, record) == Others(zoneDomain, rs, record)
    decreases |added|
  {
    hide Addresses;
    if added == [] {
      assert rs + added == rs;
    } else {
      var front, last := added[..|added| - 1], added[|added| - 1];
      AppendAddressed(zoneDomain, rs, front, record);
      assert (rs + added)[..|rs + added| - 1] == rs + front && added == front + [last];
    }
  }
}
