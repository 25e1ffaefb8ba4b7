/** The provider as the reconciler sees it: a zone of record sets changed by atomic calls,
    any of which may fail before or after taking effect. */
module Zones {
  import opened Records

  datatype Option<+T> = None | Some(value: T)
  {
    function GetOr(default: T): T {
      if Some? then value else default
    }
  }

  datatype RRKey = RRKey(name: string, rtype: string)
  datatype RRSet = RRSet(values: seq<string>, ttl: int)
  type Zone = map<RRKey, RRSet>

  function AKey(name: string): RRKey { RRKey(name, "A") }
  function KeyOf(r: DnsRecord): RRKey { RRKey(r.fqdn, r.rtype) }
  function SetOf(r: DnsRecord): RRSet { RRSet(r.records, r.ttl) }
  function RecordAt(z: Zone, k: RRKey): DnsRecord
    requires k in z
  {
    DnsRecord(k.name, z[k].values, k.rtype, z[k].ttl)
  }

  function Lookup(z: Zone, k: RRKey): Option<RRSet> {
    if k in z then Some(z[k]) else None
  }

  /** Zones that hold the same set under every key are the same zone. */
  lemma ZonesEqual(y: Zone, z: Zone)
    requires forall k :: Lookup(y, k) == Lookup(z, k)
    ensures y == z
  {
    forall k ensures k in y <==> k in z { assert Lookup(y, k) == Lookup(z, k); }
    forall k | k in y ensures y[k] == z[k] { assert Lookup(y, k) == Lookup(z, k); }
  }

  datatype Op = Add | Remove | Update
  datatype Call = Call(op: Op, record: DnsRecord)

  /** What happens to one provider call: it completes, it fails without effect, or it takes
      effect and the reply is lost. */
  datatype Fate = Completes | Refused | LostReply

  function NextFate(script: seq<Fate>): Fate {
    if script == [] then Completes else script[0]
  }

  function Later(script: seq<Fate>): seq<Fate> {
    if script == [] then [] else script[1..]
  }

  /** Add and Update both upsert: the set is replaced whole. */
  function Apply(z: Zone, c: Call): Zone {
    if c.op == Remove then z - {KeyOf(c.record)} else z[KeyOf(c.record) := SetOf(c.record)]
  }

  function Effect(c: Call): Option<RRSet> {
    if c.op == Remove then None else Some(SetOf(c.record))
  }

  /** A set without values is turned down, and a removal has to name the stored set. */
  predicate Accepts(z: Zone, c: Call) {
    c.record.records != [] &&
    (c.op == Remove ==> KeyOf(c.record) in z && z[KeyOf(c.record)] == SetOf(c.record))
  }

  /** Zone and error flag after one call. */
  function Respond(z: Zone, c: Call, f: Fate): (Zone, bool) {
    if !Accepts(z, c) || f == Refused then (z, true)
    else (Apply(z, c), f == LostReply)
  }

  /** Where a sequence of calls that stops at the first error ends up: `acked` calls were
      answered without error, `applied` calls took effect, `rest` is the unused script. */
  datatype RunResult = RunResult(zone: Zone, acked: nat, applied: nat, err: bool, rest: seq<Fate>)
  {
    function Issued(): nat { acked + if err then 1 else 0 }
  }

  function Run(z: Zone, calls: seq<Call>, script: seq<Fate>): RunResult
    decreases |calls|
  {
    if calls == [] then RunResult(z, 0, 0, false, script) else
    var (z', err) := Respond(z, calls[0], NextFate(script));
    if err then
      RunResult(z', 0, if Accepts(z, calls[0]) && NextFate(script) == LostReply then 1 else 0, true, Later(script))
    else
      var r := Run(z', calls[1..], Later(script));
      r.(acked := r.acked + 1, applied := r.applied + 1)
  }

  /** All calls applied in order, none failing. */
  function ApplyAll(z: Zone, calls: seq<Call>): Zone
    decreases |calls|
  {
    if calls == [] then z else ApplyAll(Apply(z, calls[0]), calls[1..])
  }

  ghost predicate AllAccepted(z: Zone, calls: seq<Call>) {
    forall i | 0 <= i < |calls| :: Accepts(ApplyAll(z, calls[..i]), calls[i])
  }

  lemma AcceptedTail(z: Zone, calls: seq<Call>)
    requires calls != [] && AllAccepted(z, calls)
    ensures Accepts(z, calls[0]) && AllAccepted(Apply(z, calls[0]), calls[1..])
  {
    hide Apply, Accepts;
    assert calls[..0] == [] && Accepts(ApplyAll(z, calls[..0]), calls[0]);
    var tail := calls[1..];
    forall i | 0 <= i < |tail| ensures Accepts(ApplyAll(Apply(z, calls[0]), tail[..i]), tail[i]) {
      assert calls[..i + 1][1..] == tail[..i];
      assert Accepts(ApplyAll(z, calls[..i + 1]), calls[i + 1]);
    }
  }

  /** A run leaves the zone after some prefix of its calls, and only the last issued call can
      be unacknowledged. */
  lemma {:induction false} RunIsPrefix(z: Zone, calls: seq<Call>, script: seq<Fate>)
    requires AllAccepted(z, calls)
    ensures var r := Run(z, calls, script);
            && r.acked <= r.applied <= |calls| && r.Issued() <= |calls|
            && r.zone == ApplyAll(z, calls[..r.applied])
            && (if r.err then r.applied <= r.acked + 1 else r.acked == |calls|)
    decreases |calls|
  {
    hide Apply, Accepts;
    if calls != [] {
      AcceptedTail(z, calls);
      assert calls[..0] == [] && calls[..1] == [calls[0]];
      if NextFate(script) == Completes {
        RunIsPrefix(Apply(z, calls[0]), calls[1..], Later(script));
        var applied := Run(z, calls, script).applied;
        assert calls[..applied][1..] == calls[1..][..applied - 1];
      }
    }
  }

  ghost predicate Smooth(script: seq<Fate>, n: nat) {
    forall i | 0 <= i < n && i < |script| :: script[i] == Completes
  }

  /** Calls the server accepts fail exactly when the script makes one of them fail. */
  lemma {:induction false} RunFailsIff(z: Zone, calls: seq<Call>, script: seq<Fate>)
    requires AllAccepted(z, calls)
    ensures Run(z, calls, script).err <==> !Smooth(script, |calls|)
    decreases |calls|
  {
    hide Apply, Accepts;
    if calls != [] {
      AcceptedTail(z, calls);
      var later := Later(script);
      assert script != [] ==> script[0] == NextFate(script);
      if NextFate(script) == Completes {
        RunFailsIff(Apply(z, calls[0]), calls[1..], later);
        assert forall i | 0 <= i < |later| :: later[i] == script[i + 1];
        assert forall i | 0 < i < |script| :: script[i] == later[i - 1];
      }
    }
  }

  lemma {:induction false} RunConcat(z: Zone, xs: seq<Call>, ys: seq<Call>, script: seq<Fate>)
    ensures var r := Run(z, xs, script);
            Run(z, xs + ys, script) ==
            if r.err then r
            else var t := Run(r.zone, ys, r.rest);
                 t.(acked := |xs| + t.acked, applied := |xs| + t.applied)
    ensures Run(z, xs, script).Issued() <= |xs|
    ensures !Run(z, xs, script).err ==> Run(z, xs, script).acked == |xs|
    decreases |xs|
  {
    hide Apply, Accepts;
    if xs == [] {
      assert xs + ys == ys;
    } else {
      assert (xs + ys)[0] == xs[0] && (xs + ys)[1..] == xs[1..] + ys;
      var (z', err) := Respond(z, xs[0], NextFate(script));
      if !err { RunConcat(z', xs[1..], ys, Later(script)); }
    }
  }

  /** recs holds the record sets of the zone and nothing else. */
  ghost predicate Mirrors(recs: seq<DnsRecord>, z: Zone) {
    && (forall r | r in recs :: KeyOf(r) in z && RecordAt(z, KeyOf(r)) == r)
    && (forall k | k in z :: RecordAt(z, k) in recs)
  }

  lemma EnumerationMirrors(recs: seq<DnsRecord>, z: Zone)
    requires Enumerates(recs, z)
    ensures Mirrors(recs, z)
  {}

  /** The provider's state at one moment: the zone, the fates to come, the calls issued. */
  datatype Snapshot = Snapshot(zone: Zone, script: seq<Fate>, log: seq<Call>)

  /** Running these calls leads from one moment to the other, with `acked` of them answered
      without error and `err` telling whether the run was cut short. */
  ghost predicate Ran(s: Snapshot, calls: seq<Call>, t: Snapshot, acked: nat, err: bool) {
    var r := Run(s.zone, calls, s.script);
    && t.zone == r.zone && t.script == r.rest && acked == r.acked && err == r.err
    && r.Issued() <= |calls| && t.log == s.log + calls[..r.Issued()]
  }

  lemma RanLogs(s: Snapshot, calls: seq<Call>, t: Snapshot, acked: nat, err: bool)
    requires Ran(s, calls, t, acked, err)
    ensures s.log <= t.log
  {}

  lemma RanNothing(s: Snapshot)
    ensures Ran(s, [], s, 0, false)
  {
    assert s.log + [] == s.log;
  }

  lemma RanOne(s: Snapshot, c: Call, t: Snapshot, err: bool)
    requires (t.zone, err) == Respond(s.zone, c, NextFate(s.script))
    requires t.script == Later(s.script) && t.log == s.log + [c]
    ensures Ran(s, [c], t, if err then 0 else 1, err)
  {
    assert [c][1..] == [] && [c][..1] == [c];
  }

  lemma RanStopped(s: Snapshot, xs: seq<Call>, t: Snapshot, acked: nat, ys: seq<Call>)
    requires Ran(s, xs, t, acked, true)
    ensures Ran(s, xs + ys, t, acked, true)
  {
    hide Run;
    RunConcat(s.zone, xs, ys, s.script);
    assert (xs + ys)[..acked + 1] == xs[..acked + 1];
  }

  lemma RanOn(s: Snapshot, xs: seq<Call>, t: Snapshot, ys: seq<Call>, u: Snapshot, acked: nat, err: bool)
    requires Ran(s, xs, t, |xs|, false) && Ran(t, ys, u, acked, err)
    ensures Ran(s, xs + ys, u, |xs| + acked, err)
  {
    hide Run;
    RunConcat(s.zone, xs, ys, s.script);
    var n := acked + if err then 1 else 0;
    assert xs[..|xs|] == xs;
    assert (xs + ys)[..|xs| + n] == xs + ys[..n];
    assert s.log + xs + ys[..n] == s.log + (xs + ys[..n]);
  }

  lemma RanAcked(s: Snapshot, xs: seq<Call>, t: Snapshot, acked: nat)
    requires Ran(s, xs, t, acked, false)
    ensures acked == |xs| && t.log == s.log + xs
  {
    hide Run;
    RunConcat(s.zone, xs, [], s.script);
    assert xs[..|xs|] == xs;
  }

  /** A key no call names keeps its set. */
  lemma {:induction false} Untouched(z: Zone, calls: seq<Call>, k: RRKey)
    requires forall i | 0 <= i < |calls| :: KeyOf(calls[i].record) != k
    ensures Lookup(ApplyAll(z, calls), k) == Lookup(z, k)
    decreases |calls|
  {
    if calls != [] {
      assert KeyOf(calls[0].record) != k;
      Untouched(Apply(z, calls[0]), calls[1..], k);
    }
  }

  /** A key ends as the last call naming it left it. */
  lemma {:induction false} Touched(z: Zone, calls: seq<Call>, i: nat)
    requires i < |calls|
    requires forall j | i < j < |calls| :: KeyOf(calls[j].record) != KeyOf(calls[i].record)
    ensures Lookup(ApplyAll(z, calls), KeyOf(calls[i].record)) == Effect(calls[i])
    decreases |calls|
  {
    if i == 0 {
      Untouched(Apply(z, calls[0]), calls[1..], KeyOf(calls[0].record));
    } else {
      Touched(Apply(z, calls[0]), calls[1..], i - 1);
    }
  }

  /** recs names every record set of the zone once, in some server order. */
  ghost predicate Enumerates(recs: seq<DnsRecord>, z: Zone) {
    && (forall i | 0 <= i < |recs| :: KeyOf(recs[i]) in z && z[KeyOf(recs[i])] == SetOf(recs[i]))
    && (forall i, j | 0 <= i < j < |recs| :: KeyOf(recs[i]) != KeyOf(recs[j]))
    && (forall k | k in z :: RecordAt(z, k) in recs)
  }

  /** The provider behind the reconciler. `script` fixes the fate of the calls to come, so a
      statement about every script is one about every failure; `log` lists the change calls
      issued so far, failed ones included. */
  class Provider {
    var zone: Zone
    var script: seq<Fate>
    var log: seq<Call>

    constructor (zone: Zone, script: seq<Fate>)
      ensures this.zone == zone && this.script == script && log == []
    {
      this.zone, this.script, this.log := zone, script, [];
    }

    ghost function Now(): Snapshot
      reads this
    {
      Snapshot(zone, script, log)
    }

    method GetRecords() returns (recs: seq<DnsRecord>, err: bool)
      modifies this`script
      ensures err == (NextFate(old(script)) != Completes) && script == Later(old(script))
      ensures !err ==> Enumerates(recs, zone)
    {
      err := NextFate(script) != Completes;
      script := Later(script);
      recs := [];
      if err { return; }
      var rest := zone.Keys;
      while rest != {}
        invariant rest <= zone.Keys
        invariant forall i | 0 <= i < |recs| ::
          KeyOf(recs[i]) in zone && KeyOf(recs[i]) !in rest && zone[KeyOf(recs[i])] == SetOf(recs[i])
        invariant forall i, j | 0 <= i < j < |recs| :: KeyOf(recs[i]) != KeyOf(recs[j])
        invariant forall k | k in zone && k !in rest :: RecordAt(zone, k) in recs
        decreases rest
      {
        var k :| k in rest;
        recs := recs + [RecordAt(zone, k)];
        rest := rest - {k};
      }
    }

    method Change(c: Call) returns (err: bool)
      modifies this
      ensures Ran(old(Now()), [c], Now(), if err then 0 else 1, err)
      ensures (zone, err) == Respond(old(zone), c, NextFate(old(script)))
      ensures script == Later(old(script)) && log == old(log) + [c]
    {
      var (z, e) := Respond(zone, c, NextFate(script));
      zone, script, log, err := z, Later(script), log + [c], e;
      RanOne(old(Now()), c, Now(), err);
    }

    method AddRecord(r: DnsRecord) returns (err: bool)
      modifies this
      ensures Ran(old(Now()), [Call(Add, r)], Now(), if err then 0 else 1, err)
      ensures log == old(log) + [Call(Add, r)]
      ensures err == (NextFate(old(script)) != Completes || r.records == [])
      ensures zone == if NextFate(old(script)) == Refused || r.records == [] then old(zone)
                      else old(zone)[RRKey(r.fqdn, r.rtype) := RRSet(r.records, r.ttl)]
    {
      err := Change(Call(Add, r));
    }

    method UpdateRecord(r: DnsRecord) returns (err: bool)
      modifies this
      ensures Ran(old(Now()), [Call(Update, r)], Now(), if err then 0 else 1, err)
      ensures log == old(log) + [Call(Update, r)]
      ensures err == (NextFate(old(script)) != Completes || r.records == [])
      ensures zone == if NextFate(old(script)) == Refused || r.records == [] then old(zone)
                      else old(zone)[RRKey(r.fqdn, r.rtype) := RRSet(r.records, r.ttl)]
    {
      err := Change(Call(Update, r));
    }

    method RemoveRecord(r: DnsRecord) returns (err: bool)
      modifies this
      ensures Ran(old(Now()), [Call(Remove, r)], Now(), if err then 0 else 1, err)
      ensures log == old(log) + [Call(Remove, r)]
      ensures var k := RRKey(r.fqdn, r.rtype);
              var named := r.records != [] && k in old(zone) && old(zone)[k] == RRSet(r.records, r.ttl);
              && err == (NextFate(old(script)) != Completes || !named)
              && zone == if NextFate(old(script)) == Refused || !named then old(zone) else old(zone) - {k}
    {
      err := Change(Call(Remove, r));
    }
  }
}
