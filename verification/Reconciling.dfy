/** The reconciler of external-dns.go, loop by loop. */
module Reconciling {
  import opened Records
  import opened Ordering
  import opened Zones
  import opened Planning

  function Unwrap(recs: seq<MetadataDnsRecord>, op: Op): seq<Call> {
    seq(|recs|, i requires 0 <= i < |recs| => Call(op, recs[i].record))
  }

  /** The keys of a sequence that belong to a set, in their order. */
  ghost function Kept(keys: seq<string>, names: set<string>): (r: seq<string>)
    ensures forall k :: k in r <==> k in keys && k in names
  {
    if keys == [] then []
    else
      var front := Kept(keys[..|keys| - 1], names);
      if keys[|keys| - 1] in names then front + [keys[|keys| - 1]] else front
  }

  lemma KeptStep(keys: seq<string>, names: set<string>, i: nat)
    requires i < |keys|
    ensures Kept(keys[..i + 1], names) == Kept(keys[..i], names) + if keys[i] in names then [keys[i]] else []
  {
    assert keys[..i + 1][..i] == keys[..i];
  }

  /** Picking from an ascending listing gives the ascending listing of what was picked. */
  lemma {:induction false} KeptLists(less: (string, string) -> bool, keys: seq<string>, s: set<string>, names: set<string>)
    requires StrictOrderOn(less, s) && Lists(less, keys, s) && names <= s
    ensures Kept(keys, names) == Listing(less, names)
  {
    KeptAscends(less, keys, names);
    assert forall k | k in s :: k in keys;
    assert Elements(Kept(keys, names)) == names;
    ListingLists(less, names);
    ListingIsUnique(less, Kept(keys, names), Listing(less, names), names);
  }

  lemma {:induction false} KeptAscends(less: (string, string) -> bool, keys: seq<string>, names: set<string>)
    requires Ascending(less, keys)
    ensures Ascending(less, Kept(keys, names))
    decreases |keys|
  {
    if keys != [] {
      var front := keys[..|keys| - 1];
      KeptAscends(less, front, names);
      forall k | k in Kept(front, names) ensures less(k, keys[|keys| - 1]) {
        var i :| 0 <= i < |front| && front[i] == k;
        assert keys[i] == k;
      }
      assert forall i | 0 <= i < |Kept(front, names)| :: Kept(front, names)[i] in Kept(front, names);
    }
  }

  ghost function RecordsAt(d: Desired, names: seq<string>): seq<MetadataDnsRecord>
    requires forall k | k in names :: k in d
  {
    seq(|names|, i requires 0 <= i < |names| => d[names[i]])
  }

  ghost function Unowned(recs: map<string, DnsRecord>, names: seq<string>): seq<MetadataDnsRecord>
    requires forall k | k in names :: k in recs
  {
    seq(|names|, i requires 0 <= i < |names| => MetadataDnsRecord("", "", recs[names[i]]))
  }

  lemma RecordsAtStep(d: Desired, names: seq<string>, k: string)
    requires k in d && forall n | n in names :: n in d
    ensures RecordsAt(d, names + [k]) == RecordsAt(d, names) + [d[k]]
  {
    assert forall n | n in names + [k] :: n in d;
    assert RecordsAt(d, names + [k]) == RecordsAt(d, names) + [d[k]];
  }

  lemma UnownedStep(recs: map<string, DnsRecord>, names: seq<string>, k: string)
    requires k in recs && forall n | n in names :: n in recs
    ensures Unowned(recs, names + [k]) == Unowned(recs, names) + [MetadataDnsRecord("", "", recs[k])]
  {
    assert forall n | n in names + [k] :: n in recs;
    assert Unowned(recs, names + [k]) == Unowned(recs, names) + [MetadataDnsRecord("", "", recs[k])];
  }

  /** Some of the wanted records, A before TXT and then by name. */
  ghost function InOrder(d: Desired, names: set<string>): seq<MetadataDnsRecord>
    requires names <= d.Keys
  {
    RecordsAt(d, Listing(KeyOrder(TypesOf(RecordsOf(d))), names))
  }

  /** What a completed attempt reports: the records it added, then those it changed. */
  ghost function Written(z: Zone, d: Desired, sf: string): seq<MetadataDnsRecord> {
    InOrder(d, d.Keys - AllRecords(z, sf).Keys) + InOrder(d, Differing(d, AllRecords(z, sf)))
  }

  ghost predicate Sortable(recs: map<string, DnsRecord>) {
    forall n | n in recs :: recs[n].rtype in {"A", "TXT"}
  }

  lemma PhaseOfDesired(op: Op, d: Desired, names: set<string>)
    requires names <= d.Keys
    ensures Unwrap(InOrder(d, names), op) == Phase(op, RecordsOf(d), names)
  {}

  lemma PhaseOfRead(op: Op, recs: map<string, DnsRecord>, names: set<string>)
    requires names <= recs.Keys
    ensures Unwrap(Unowned(recs, Listing(KeyOrder(TypesOf(recs)), names)), op) == Phase(op, recs, names)
  {}

  /** What is reported is what the calls were for: after the removals, one call for each reported
      record, in the order of the report, additions before updates. */
  ghost predicate ReportsCalls(d: Desired, updated: seq<MetadataDnsRecord>, calls: seq<Call>) {
    var k := |calls| - |updated|;
    && k >= 0 && (forall i | 0 <= i < |calls| :: calls[i].op == Remove <==> i < k)
    && (forall i, j | 0 <= i < j < |calls| :: calls[i].op == Update ==> calls[j].op == Update)
    && forall i | 0 <= i < |updated| :: updated[i] in d.Values && calls[k + i].record == updated[i].record
  }

  lemma ReportFollowsPlan(z: Zone, d: Desired, sf: string)
    ensures ReportsCalls(d, Written(z, d, sf), Plan(z, d, sf))
  {
    hide Listing, InOrder, AllRecords, Phase;
    var all, ours := AllRecords(z, sf), OurRecords(z, sf);
    PhaseHasOp(Remove, ours, ours.Keys - d.Keys);
    InOrderReports(d, d.Keys - all.Keys);
    InOrderReports(d, Differing(d, all));
    PhaseOfDesired(Add, d, d.Keys - all.Keys);
    PhaseOfDesired(Update, d, Differing(d, all));
  }

  lemma PhaseHasOp(op: Op, recs: map<string, DnsRecord>, names: set<string>)
    requires names <= recs.Keys
    ensures forall i | 0 <= i < |Phase(op, recs, names)| :: Phase(op, recs, names)[i].op == op
  {}

  lemma InOrderReports(d: Desired, names: set<string>)
    requires names <= d.Keys
    ensures forall i | 0 <= i < |InOrder(d, names)| :: InOrder(d, names)[i] in d.Values
  {
    hide Listing;
    var ks := Listing(KeyOrder(TypesOf(RecordsOf(d))), names);
    forall i | 0 <= i < |InOrder(d, names)| ensures InOrder(d, names)[i] in d.Values {
      assert ks[i] in names && InOrder(d, names)[i] == d[ks[i]];
    }
  }

  lemma NothingKept(keys: seq<string>, names: set<string>)
    ensures Kept(keys[..0], names) == []
  {}

  /** How one attempt ended: completed, or failed with some number of calls applied. */
  datatype Outcome = Succeeded | Failed(applied: nat)

  /** The outcome a script gives an attempt: the read comes first, then the planned calls. */
  ghost function OutcomeOf(z: Zone, d: Desired, sf: string, script: seq<Fate>): Outcome {
    if NextFate(script) != Completes then Failed(0) else
    var r := Run(z, Plan(z, d, sf), Later(script));
    if r.err then Failed(r.applied) else Succeeded
  }

  lemma SortedIsListing(records: map<string, DnsRecord>, keys: seq<string>)
    requires Sortable(records) && forall k :: k in keys <==> k in records
    requires forall i, j | 0 <= i < j < |keys| :: keys[i] != keys[j]
    ensures Sort(KeyOrder(TypesOf(records)), keys) == Listing(KeyOrder(TypesOf(records)), records.Keys)
  {
    hide Sort, Listing, StrictOrderOn;
    var less := KeyOrder(TypesOf(records));
    KeyOrderIsStrict(TypesOf(records), records.Keys);
    assert Elements(keys) == records.Keys;
    SortLists(less, keys, records.Keys);
    ListingLists(less, records.Keys);
    ListingIsUnique(less, Sort(less, keys), Listing(less, records.Keys), records.Keys);
  }

  lemma Picked(recs: map<string, DnsRecord>, keys: seq<string>, names: set<string>)
    requires Sortable(recs) && names <= recs.Keys && keys == Listing(KeyOrder(TypesOf(recs)), recs.Keys)
    ensures Kept(keys, names) == Listing(KeyOrder(TypesOf(recs)), names)
  {
    var less := KeyOrder(TypesOf(recs));
    KeyOrderIsStrict(TypesOf(recs), recs.Keys);
    ListingLists(less, recs.Keys);
    KeptLists(less, keys, recs.Keys, names);
  }

  class Reconciler {
    const provider: Provider
    const stateFqdn: string

    constructor (provider: Provider, stateFqdn: string)
      ensures this.provider == provider && this.stateFqdn == stateFqdn
    {
      this.provider, this.stateFqdn := provider, stateFqdn;
    }

    /** Keys of a map in plan order, whatever order they were ranged over in. */
    method SortedDnsRecordKeys(records: map<string, DnsRecord>) returns (keys: seq<string>)
      ensures forall k :: k in keys <==> k in records
      ensures Sortable(records) ==> keys == Listing(KeyOrder(TypesOf(records)), records.Keys)
    {
      keys := [];
      var rest := records.Keys;
      while rest != {}
        invariant rest <= records.Keys && forall k :: k in keys <==> k in records && k !in rest
        invariant forall i, j | 0 <= i < j < |keys| :: keys[i] != keys[j]
        decreases rest
      {
        var key :| key in rest;
        keys := keys + [key];
        rest := rest - {key};
      }
      var less := KeyOrder(TypesOf(records));
      if Sortable(records) { SortedIsListing(records, keys); }
      keys := Sort(less, keys);
    }

    method SortedKeys(records: Desired) returns (keys: seq<string>)
      ensures forall k :: k in keys <==> k in records
      ensures Sortable(RecordsOf(records)) ==> keys == Listing(KeyOrder(TypesOf(RecordsOf(records))), records.Keys)
    {
      keys := SortedDnsRecordKeys(RecordsOf(records));
      assert RecordsOf(records).Keys == records.Keys;
    }

    /** Issues one call per record and stops at the first error. */
    method UpdateRecords(toChange: seq<MetadataDnsRecord>, op: Op)
      returns (changed: seq<MetadataDnsRecord>, err: bool, ghost acked: nat)
      modifies provider
      ensures Ran(old(provider.Now()), Unwrap(toChange, op), provider.Now(), acked, err)
      ensures acked <= |toChange| && (!err ==> acked == |toChange|)
      ensures changed == if op == Remove then [] else toChange[..acked]
    {
      hide Ran;
      changed, err, acked := [], false, 0;
      ghost var calls := Unwrap(toChange, op);
      ghost var start := provider.Now();
      RanNothing(start);
      var i := 0;
      while i < |toChange|
        invariant 0 <= i == acked <= |toChange|
        invariant Ran(start, calls[..i], provider.Now(), i, false)
        invariant changed == if op == Remove then [] else toChange[..i]
      {
        var value := toChange[i];
        ghost var before := provider.Now();
        match op {
          case Add => err := provider.AddRecord(value.record);
          case Remove => err := provider.RemoveRecord(value.record);
          case Update => err := provider.UpdateRecord(value.record);
        }
        assert calls[..i + 1] == calls[..i] + [Call(op, value.record)];
        RanOn(start, calls[..i], before, [Call(op, value.record)], provider.Now(), if err then 0 else 1, err);
        if err {
          RanStopped(start, calls[..i + 1], provider.Now(), i, calls[i + 1..]);
          assert calls == calls[..i + 1] + calls[i + 1..];
          return;
        }
        if op != Remove {
          changed := changed + [value];
        }
        i, acked := i + 1, acked + 1;
      }
      assert calls[..|toChange|] == calls;
    }

    method RemoveExtraRecords(metadataRecs: Desired, providerRecs: map<string, DnsRecord>) returns (err: bool, ghost acked: nat)
      requires Sortable(providerRecs)
      modifies provider
      ensures Ran(old(provider.Now()), Phase(Remove, providerRecs, providerRecs.Keys - metadataRecs.Keys),
                  provider.Now(), acked, err)
    {
      var toRemove := ExtraRecords(metadataRecs, providerRecs);
      var changed;
      changed, err, acked := UpdateRecords(toRemove, Remove);
    }

    method ExtraRecords(metadataRecs: Desired, providerRecs: map<string, DnsRecord>) returns (toRemove: seq<MetadataDnsRecord>)
      requires Sortable(providerRecs)
      ensures Unwrap(toRemove, Remove) == Phase(Remove, providerRecs, providerRecs.Keys - metadataRecs.Keys)
    {
      hide Listing, Kept, Unwrap, Phase, Sortable;
      toRemove := [];
      var keys := SortedDnsRecordKeys(providerRecs);
      ghost var names := providerRecs.Keys - metadataRecs.Keys;
      ghost var kept: seq<string> := [];
      NothingKept(keys, names);
      var i := 0;
      while i < |keys|
        invariant 0 <= i <= |keys|
        invariant kept == Kept(keys[..i], names)
        invariant toRemove == Unowned(providerRecs, kept)
      {
        KeptStep(keys, names, i);
        if keys[i] !in metadataRecs {
          UnownedStep(providerRecs, kept, keys[i]);
          kept := kept + [keys[i]];
          toRemove := toRemove + [MetadataDnsRecord("", "", providerRecs[keys[i]])];
        }
        i := i + 1;
      }
      assert keys[..|keys|] == keys;
      Picked(providerRecs, keys, names);
      PhaseOfRead(Remove, providerRecs, names);
    }

    method AddMissingRecords(metadataRecs: Desired, providerRecs: map<string, DnsRecord>)
      returns (added: seq<MetadataDnsRecord>, err: bool, ghost acked: nat)
      requires Sortable(RecordsOf(metadataRecs))
      modifies provider
      ensures Ran(old(provider.Now()), Phase(Add, RecordsOf(metadataRecs), metadataRecs.Keys - providerRecs.Keys),
                  provider.Now(), acked, err)
      ensures !err ==> added == InOrder(metadataRecs, metadataRecs.Keys - providerRecs.Keys)
    {
      var toAdd := MissingRecords(metadataRecs, providerRecs);
      PhaseOfDesired(Add, metadataRecs, metadataRecs.Keys - providerRecs.Keys);
      added, err, acked := UpdateRecords(toAdd, Add);
    }

    method MissingRecords(metadataRecs: Desired, providerRecs: map<string, DnsRecord>) returns (toAdd: seq<MetadataDnsRecord>)
      requires Sortable(RecordsOf(metadataRecs))
      ensures toAdd == InOrder(metadataRecs, metadataRecs.Keys - providerRecs.Keys)
    {
      hide Listing, Kept, Sortable;
      toAdd := [];
      var keys := SortedKeys(metadataRecs);
      ghost var names := metadataRecs.Keys - providerRecs.Keys;
      ghost var kept: seq<string> := [];
      NothingKept(keys, names);
      var i := 0;
      while i < |keys|
        invariant 0 <= i <= |keys|
        invariant kept == Kept(keys[..i], names)
        invariant toAdd == RecordsAt(metadataRecs, kept)
      {
        KeptStep(keys, names, i);
        if keys[i] !in providerRecs {
          RecordsAtStep(metadataRecs, kept, keys[i]);
          kept := kept + [keys[i]];
          toAdd := toAdd + [metadataRecs[keys[i]]];
        }
        i := i + 1;
      }
      assert RecordsOf(metadataRecs).Keys == metadataRecs.Keys;
      Picked(RecordsOf(metadataRecs), keys, names);
      assert keys[..|keys|] == keys;
    }

    /** Sets of values compared by size and then member by member, both ways. */
    method ValuesDiffer(metadataRecords: seq<string>, providerRecords: seq<string>) returns (update: bool)
      ensures update <==> ValueSet(metadataRecords) != ValueSet(providerRecords)
    {
      var metadataR := CollectValues(metadataRecords);
      var providerR := CollectValues(providerRecords);
      update := false;
      if |metadataR| != |providerR| {
        update := true;
      } else {
        var rest := metadataR;
        while rest != {}
          invariant rest <= metadataR && (update <==> !(metadataR - rest <= providerR))
          decreases rest
        {
          var key :| key in rest;
          if key !in providerR { update := true; }
          rest := rest - {key};
        }
        rest := providerR;
        while rest != {}
          invariant rest <= providerR && (update <==> !(metadataR <= providerR && providerR - rest <= metadataR))
          decreases rest
        {
          var key :| key in rest;
          if key !in metadataR { update := true; }
          rest := rest - {key};
        }
      }
    }

    method CollectValues(values: seq<string>) returns (r: set<string>)
      ensures r == ValueSet(values)
    {
      r := {};
      for i := 0 to |values|
        invariant r == ValueSet(values[..i])
      {
        r := r + {values[i]};
      }
      assert values[..|values|] == values;
    }

    method UpdateExistingRecords(metadataRecs: Desired, providerRecs: map<string, DnsRecord>)
      returns (changed: seq<MetadataDnsRecord>, err: bool, ghost acked: nat)
      requires Sortable(RecordsOf(metadataRecs))
      modifies provider
      ensures Ran(old(provider.Now()), Phase(Update, RecordsOf(metadataRecs), Differing(metadataRecs, providerRecs)),
                  provider.Now(), acked, err)
      ensures !err ==> changed == InOrder(metadataRecs, Differing(metadataRecs, providerRecs))
    {
      var toUpdate := DifferingRecords(metadataRecs, providerRecs);
      PhaseOfDesired(Update, metadataRecs, Differing(metadataRecs, providerRecs));
      changed, err, acked := UpdateRecords(toUpdate, Update);
    }

    method DifferingRecords(metadataRecs: Desired, providerRecs: map<string, DnsRecord>) returns (toUpdate: seq<MetadataDnsRecord>)
      requires Sortable(RecordsOf(metadataRecs))
      ensures toUpdate == InOrder(metadataRecs, Differing(metadataRecs, providerRecs))
    {
      hide Listing;
      toUpdate := [];
      var keys := SortedKeys(metadataRecs);
      ghost var names := Differing(metadataRecs, providerRecs);
      ghost var kept: seq<string> := [];
      NothingKept(keys, names);
      var i := 0;
      while i < |keys|
        invariant 0 <= i <= |keys|
        invariant kept == Kept(keys[..i], names)
        invariant toUpdate == RecordsAt(metadataRecs, kept)
      {
        KeptStep(keys, names, i);
        var key := keys[i];
        if key in providerRecs {
          var update := ValuesDiffer(metadataRecs[key].record.records, providerRecs[key].records);
          if update {
            RecordsAtStep(metadataRecs, kept, key);
            kept := kept + [key];
            toUpdate := toUpdate + [metadataRecs[key]];
          }
        }
        i := i + 1;
      }
      assert RecordsOf(metadataRecs).Keys == metadataRecs.Keys;
      Picked(RecordsOf(metadataRecs), keys, names);
      assert keys[..|keys|] == keys;
    }

    /** One read of the zone, split into what this service owns and what exists. */
    method GetProviderDnsRecords() returns (ours: map<string, DnsRecord>, all: map<string, DnsRecord>, err: bool)
      modifies provider`script
      ensures err == (NextFate(old(provider.script)) != Completes) && provider.script == Later(old(provider.script))
      ensures !err ==> ours == OurRecords(provider.zone, stateFqdn) && all == AllRecords(provider.zone, stateFqdn)
    {
      ours, all := map[], map[];
      var recs;
      recs, err := provider.GetRecords();
      if err { return; }
      ghost var z := provider.zone;
      if |recs| == 0 {
        assert recs == [] ==> z.Keys == {};
        return;
      }
      EnumerationMirrors(recs, z);
      var ourFqdns;
      ours, ourFqdns := FindState(recs, z);
      ours, all := SplitAddresses(recs, ourFqdns, ours, z);
      if stateFqdn in ours {
        all := all[stateFqdn := ours[stateFqdn]];
      }
      SplitIsSpec(z, stateFqdn);
    }

    /** The first loop over what was read: the state record, and the names it lists. */
    method FindState(recs: seq<DnsRecord>, ghost z: Zone) returns (ours: map<string, DnsRecord>, ourFqdns: set<string>)
      requires Mirrors(recs, z)
      ensures ours == StateOnly(z, stateFqdn) && ourFqdns == Listed(z, stateFqdn)
    {
      ours, ourFqdns := map[], {};
      var i := 0;
      while i < |recs|
        invariant 0 <= i <= |recs| && ourFqdns == {} && ours == map[]
        invariant forall r | r in recs[..i] :: KeyOf(r) != StateKey(stateFqdn)
      {
        var rec := recs[i];
        if rec.fqdn == stateFqdn && rec.rtype == "TXT" {
          ourFqdns := CollectValues(rec.records);
          ours := map[stateFqdn := rec];
          assert rec in recs && KeyOf(rec) == StateKey(stateFqdn);
          return;
        }
        i := i + 1;
      }
      assert StateKey(stateFqdn) in z ==> RecordAt(z, StateKey(stateFqdn)) in recs;
    }

    /** The second loop over what was read: every A record, and those among them that are listed. */
    method SplitAddresses(recs: seq<DnsRecord>, ourFqdns: set<string>, state: map<string, DnsRecord>, ghost z: Zone)
      returns (ours: map<string, DnsRecord>, all: map<string, DnsRecord>)
      requires Mirrors(recs, z)
      ensures all == Addresses(z) && ours == state + Among(Addresses(z), ourFqdns)
    {
      ours, all := state, map[];
      var i := 0;
      while i < |recs|
        invariant 0 <= i <= |recs|
        invariant forall r | r in recs[..i] && r.rtype == "A" :: r.fqdn in all
        invariant forall n | n in all :: AKey(n) in z && all[n] == RecordAt(z, AKey(n))
        invariant ours == state + Among(all, ourFqdns)
      {
        var rec := recs[i];
        if rec.rtype == "A" {
          assert rec in recs && KeyOf(rec) == AKey(rec.fqdn);
          AmongStep(state, all, ourFqdns, rec);
          all := all[rec.fqdn := rec];
          if rec.fqdn in ourFqdns {
            ours := ours[rec.fqdn := rec];
          }
        }
        i := i + 1;
      }
      forall n | AKey(n) in z ensures n in all {
        assert RecordAt(z, AKey(n)) in recs;
      }
      assert forall n | n in all :: AKey(n).name in Names(z);
      assert all == Addresses(z);
    }

    /** One attempt: read, remove, add, update, stopping at the first error. The zone ends
        where the plan, run under the script, ends; on success the added and then the changed
        records are returned, on failure none. */
    method UpdateProviderDnsRecords(metadataRecs: Desired)
      returns (updated: seq<MetadataDnsRecord>, err: bool, ghost acked: nat)
      requires Sortable(RecordsOf(metadataRecs))
      modifies provider
      ensures NextFate(old(provider.script)) != Completes ==>
                err && provider.Now() == old(provider.Now()).(script := Later(old(provider.script)))
      ensures NextFate(old(provider.script)) == Completes ==>
                Ran(old(provider.Now()).(script := Later(old(provider.script))),
                    Plan(old(provider.zone), metadataRecs, stateFqdn), provider.Now(), acked, err)
      ensures updated == if err then [] else Written(old(provider.zone), metadataRecs, stateFqdn)
      ensures |old(provider.log)| <= |provider.log|
      ensures !err ==> ReportsCalls(metadataRecs, updated, provider.log[|old(provider.log)|..])
    {
      hide Ran, Phase, InOrder, ReportsCalls;
      updated, acked := [], 0;
      ghost var z := provider.zone;
      var ours, all, e := GetProviderDnsRecords();
      err := e;
      if err { return; }
      ghost var d, sf := metadataRecs, stateFqdn;
      ghost var rs, xs, us := Removals(z, d, sf), Additions(z, d, sf), Updates(z, d, sf);
      ghost var start := provider.Now();
      err, acked := RemoveExtraRecords(metadataRecs, ours);
      ghost var afterRemove := provider.Now();
      if err {
        RanStopped(start, rs, afterRemove, acked, xs);
        RanStopped(start, rs + xs, afterRemove, acked, us);
        RanLogs(start, rs, afterRemove, acked, err);
        return;
      }
      RanAcked(start, rs, afterRemove, acked);
      var added;
      added, err, acked := AddMissingRecords(metadataRecs, all);
      ghost var afterAdd := provider.Now();
      RanOn(start, rs, afterRemove, xs, afterAdd, acked, err);
      if err {
        acked := |rs| + acked;
        RanStopped(start, rs + xs, afterAdd, acked, us);
        RanLogs(start, rs + xs, afterAdd, acked, err);
        return;
      }
      RanAcked(afterRemove, xs, afterAdd, acked);
      updated := updated + added;
      assert updated == InOrder(d, d.Keys - AllRecords(z, sf).Keys);
      var changed;
      changed, err, acked := UpdateExistingRecords(metadataRecs, all);
      RanOn(start, rs + xs, afterAdd, us, provider.Now(), acked, err);
      acked := |rs + xs| + acked;
      RanLogs(start, rs + xs + us, provider.Now(), acked, err);
      if err {
        updated := [];
        return;
      }
      updated := updated + changed;
      RanAcked(start, rs + xs + us, provider.Now(), acked);
      assert provider.log == start.log + Plan(z, d, sf);
      ReportFollowsPlan(z, d, sf);
    }
  }

  // ---- pieces of the specification above ----

  function StateOnly(z: Zone, sf: string): map<string, DnsRecord> {
    if StateKey(sf) in z then map[sf := RecordAt(z, StateKey(sf))] else map[]
  }

  function Addresses(z: Zone): map<string, DnsRecord> {
    map n | n in Names(z) && AKey(n) in z :: RecordAt(z, AKey(n))
  }

  function Among(recs: map<string, DnsRecord>, names: set<string>): map<string, DnsRecord> {
    map n | n in recs && n in names :: recs[n]
  }

  lemma AmongStep(state: map<string, DnsRecord>, all: map<string, DnsRecord>, names: set<string>, r: DnsRecord)
    ensures state + Among(all[r.fqdn := r], names) ==
            if r.fqdn in names then (state + Among(all, names))[r.fqdn := r] else state + Among(all, names)
  {
    assert Among(all[r.fqdn := r], names) ==
           if r.fqdn in names then Among(all, names)[r.fqdn := r] else Among(all, names);
  }

  lemma SplitIsSpec(z: Zone, sf: string)
    ensures var ours := StateOnly(z, sf) + Among(Addresses(z), Listed(z, sf));
            && ours == OurRecords(z, sf)
            && AllRecords(z, sf) == if sf in ours then Addresses(z)[sf := ours[sf]] else Addresses(z)
  {
    AddressesAt(z);
    OursAreSplit(z, sf);
    hide Listed, StateOnly, Among;
    var ours := OurRecords(z, sf);
    var all := if sf in ours then Addresses(z)[sf := ours[sf]] else Addresses(z);
    assert AllRecords(z, sf).Keys == all.Keys;
  }

  lemma AddressesAt(z: Zone)
    ensures forall n :: n in Addresses(z) <==> AKey(n) in z
    ensures forall n | AKey(n) in z :: Addresses(z)[n] == RecordAt(z, AKey(n))
  {
    assert forall n | AKey(n) in z :: AKey(n).name in Names(z);
  }

  lemma OursAreSplit(z: Zone, sf: string)
    ensures StateOnly(z, sf) + Among(Addresses(z), Listed(z, sf)) == OurRecords(z, sf)
  {
    AddressesAt(z);
    hide Addresses, Listed;
  }
}
