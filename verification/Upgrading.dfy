/** The upgrade step: before the first attempt, A records that an earlier version left behind
    without a state record are adopted by writing one. */
module Upgrading {
  import opened Records
  import opened Ordering
  import opened Naming
  import opened Zones
  import opened Planning
  import opened Safety

  function LegacySuffix(environmentName: string, root: string): string {
    "." + ToLower(environmentName + "." + root)
  }

  predicate IsLegacy(r: DnsRecord, suffix: string, ttl: int) {
    r.rtype == "A" && HasSuffix(r.fqdn, suffix) && r.ttl == ttl
  }

  /** The A names an earlier version is taken to have written. */
  function LegacyNames(z: Zone, suffix: string, ttl: int): set<string> {
    set k | k in z && IsLegacy(RecordAt(z, k), suffix, ttl) :: k.name
  }

  ghost function AdoptionRecord(z: Zone, sf: string, suffix: string, ttl: int): DnsRecord {
    StateRecordOf(sf, ttl, LegacyNames(z, suffix, ttl))
  }

  ghost predicate NeedsAdoption(z: Zone, sf: string, suffix: string, ttl: int) {
    StateKey(sf) !in z && LegacyNames(z, suffix, ttl) != {}
  }

  ghost function Upgraded(z: Zone, sf: string, suffix: string, ttl: int): Zone {
    if NeedsAdoption(z, sf, suffix, ttl) then Apply(z, Call(Add, AdoptionRecord(z, sf, suffix, ttl))) else z
  }

  /** An A record with the configured TTL whose name ends in the lower-cased environment name and
      root domain. */
  ghost predicate WasWritten(z: Zone, environmentName: string, root: string, ttl: int, n: string) {
    RRKey(n, "A") in z && z[RRKey(n, "A")].ttl == ttl && exists front :: n == front + ("." + ToLower(environmentName) + "." + ToLower(root))
  }

  /** What the upgrade adopts, and when, in terms of the stored sets. */
  lemma AdoptionInFields(z: Zone, sf: string, environmentName: string, root: string, ttl: int)
    ensures var suffix := LegacySuffix(environmentName, root);
            var r := AdoptionRecord(z, sf, suffix, ttl);
            && (NeedsAdoption(z, sf, suffix, ttl) <==>
                  RRKey(sf, "TXT") !in z && exists n :: WasWritten(z, environmentName, root, ttl, n))
            && r.fqdn == sf && r.rtype == "TXT" && r.ttl == ttl
            && forall n :: n in r.records <==> WasWritten(z, environmentName, root, ttl, n)
  {
    hide HasSuffix, LegacyNames, ToLower, Listing;
    var suffix := LegacySuffix(environmentName, root);
    LowerJoined(environmentName, root);
    assert suffix == "." + ToLower(environmentName) + "." + ToLower(root);
    forall n ensures n in LegacyNames(z, suffix, ttl) <==> WasWritten(z, environmentName, root, ttl, n) {
      LegacyMembers(z, suffix, ttl, n);
      HasSuffixIff(n, suffix);
    }
  }

  method EnsureUpgradeToStateRRSet(provider: Provider, stateFqdn: string, environmentName: string, root: string, ttl: int)
    returns (err: bool)
    modifies provider
    ensures var s := old(provider.Now()).(script := Later(old(provider.script)));
            var suffix := LegacySuffix(environmentName, root);
            if NextFate(old(provider.script)) != Completes then err && provider.Now() == s
            else if !NeedsAdoption(s.zone, stateFqdn, suffix, ttl) then !err && provider.Now() == s
            else Ran(s, [Call(Add, AdoptionRecord(s.zone, stateFqdn, suffix, ttl))], provider.Now(), if err then 0 else 1, err)
    ensures if NextFate(old(provider.script)) != Completes || RRKey(stateFqdn, "TXT") in old(provider.zone) ||
               !exists n :: WasWritten(old(provider.zone), environmentName, root, ttl, n)
            then provider.log == old(provider.log)
            else exists names :: provider.log == old(provider.log) + [Call(Add, DnsRecord(stateFqdn, names, "TXT", ttl))] &&
                                 forall n :: n in names <==> WasWritten(old(provider.zone), environmentName, root, ttl, n)
  {
    ghost var z := provider.zone;
    var recs;
    recs, err := provider.GetRecords();
    if err { return; }
    AdoptionInFields(z, stateFqdn, environmentName, root, ttl);
    EnumerationMirrors(recs, z);
    var i := 0;
    while i < |recs|
      invariant 0 <= i <= |recs|
      invariant forall r | r in recs[..i] :: KeyOf(r) != StateKey(stateFqdn)
    {
      var rec := recs[i];
      if rec.fqdn == stateFqdn && rec.rtype == "TXT" {
        assert rec in recs && KeyOf(rec) == StateKey(stateFqdn);
        return;
      }
      i := i + 1;
    }
    assert recs[..i] == recs && StateKey(stateFqdn) !in z;
    var suffix := LegacySuffix(environmentName, root);
    var ourFqdns := CollectLegacy(recs, suffix, ttl, z);
    if ourFqdns != {} {
      var stateRec := StateRecord(stateFqdn, ttl, ourFqdns);
      err := provider.AddRecord(stateRec);
    }
  }

  method CollectLegacy(recs: seq<DnsRecord>, suffix: string, ttl: int, ghost z: Zone) returns (ourFqdns: set<string>)
    requires Mirrors(recs, z)
    ensures ourFqdns == LegacyNames(z, suffix, ttl)
  {
    ourFqdns := {};
    var i := 0;
    while i < |recs|
      invariant 0 <= i <= |recs|
      invariant ourFqdns == set r | r in recs[..i] && IsLegacy(r, suffix, ttl) :: r.fqdn
    {
      var rec := recs[i];
      assert recs[..i + 1] == recs[..i] + [rec];
      if rec.rtype == "A" && HasSuffix(rec.fqdn, suffix) && rec.ttl == ttl {
        ourFqdns := ourFqdns + {rec.fqdn};
      }
      i := i + 1;
    }
    assert recs[..i] == recs;
    forall n | n in LegacyNames(z, suffix, ttl) ensures n in ourFqdns {
      var k :| k in z && IsLegacy(RecordAt(z, k), suffix, ttl) && k.name == n;
      assert RecordAt(z, k) in recs;
    }
    forall n | n in ourFqdns ensures n in LegacyNames(z, suffix, ttl) {
      var r :| r in recs && IsLegacy(r, suffix, ttl) && r.fqdn == n;
      assert RecordAt(z, KeyOf(r)) == r;
    }
  }

  lemma LegacyMembers(z: Zone, suffix: string, ttl: int, n: string)
    ensures n in LegacyNames(z, suffix, ttl) <==> AKey(n) in z && HasSuffix(n, suffix) && z[AKey(n)].ttl == ttl
  {
    if AKey(n) in z && HasSuffix(n, suffix) && z[AKey(n)].ttl == ttl {
      assert IsLegacy(RecordAt(z, AKey(n)), suffix, ttl);
    }
  }

  /** The upgrade writes the state record and nothing else. Where there was none it then lists
      exactly the legacy names (and stays absent when there are none); a second run finds
      nothing to do, and the zone stays fit for the reconciler. */
  lemma UpgradeIsExactAndIdempotent(z: Zone, sf: string, suffix: string, ttl: int)
    requires ZoneOk(z, sf)
    ensures var y := Upgraded(z, sf, suffix, ttl);
            && ZoneOk(y, sf)
            && (forall k | k != StateKey(sf) :: Lookup(y, k) == Lookup(z, k))
            && (StateKey(sf) in z ==> y == z)
            && (StateKey(sf) !in z ==> Listed(y, sf) == LegacyNames(z, suffix, ttl))
            && (StateKey(sf) !in z ==> (StateKey(sf) in y <==> LegacyNames(z, suffix, ttl) != {}))
            && !NeedsAdoption(y, sf, suffix, ttl) && Upgraded(y, sf, suffix, ttl) == y
    ensures NeedsAdoption(z, sf, suffix, ttl) ==> Accepts(z, Call(Add, AdoptionRecord(z, sf, suffix, ttl)))
  {
    StateRecordIsCanonical(sf, ttl, LegacyNames(z, suffix, ttl), []);
    hide Listing, LegacyNames;
  }

  /** The first attempt after an upgrade removes, of all A records, exactly the legacy ones
      that are no longer wanted. */
  lemma FirstAttemptRemovesExactlyLegacy(z: Zone, d: Desired, sf: string, suffix: string, ttl: int, n: string)
    requires Sound(z, d, sf) && StateKey(sf) !in z && AKey(n) in z
    ensures var y := Upgraded(z, sf, suffix, ttl);
            && (Call(Remove, RecordAt(z, AKey(n))) in Plan(y, d, sf) <==> IsLegacy(RecordAt(z, AKey(n)), suffix, ttl) && n !in d)
            && (AKey(n) in ApplyAll(y, Plan(y, d, sf)) <==> !IsLegacy(RecordAt(z, AKey(n)), suffix, ttl) || n in d)
  {
    hide Plan;
    var y := Upgraded(z, sf, suffix, ttl);
    UpgradeIsExactAndIdempotent(z, sf, suffix, ttl);
    LegacyMembers(z, suffix, ttl, n);
    assert Lookup(y, AKey(n)) == Lookup(z, AKey(n)) && AKey(n) in y && RecordAt(y, AKey(n)) == RecordAt(z, AKey(n));
    assert Owned(y, sf, n) <==> n in LegacyNames(z, suffix, ttl);
    RemovalTracksOwnership(y, d, sf, n);
  }

  lemma RemovalTracksOwnership(y: Zone, d: Desired, sf: string, n: string)
    requires Sound(y, d, sf) && AKey(n) in y
    ensures Call(Remove, RecordAt(y, AKey(n))) in Plan(y, d, sf) <==> Owned(y, sf, n) && n !in d
    ensures AKey(n) in ApplyAll(y, Plan(y, d, sf)) <==> !Owned(y, sf, n) || n in d
  {
    hide Plan;
    PlanMembers(y, d, sf, Call(Remove, RecordAt(y, AKey(n))));
    CompletedAttemptReachesTarget(y, d, sf);
    TargetLookup(y, d, sf, AKey(n));
  }
}
