/** Histories on the zone as Route 53 stores it: quoted values, changed request by request. */
module Stored {
  import opened Records
  import opened Zones
  import opened Planning
  import opened Reconciling
  import opened Histories
  import opened Route53

  /** An attempt for these wishes under these fates, the read's first. */
  datatype StoredAttempt = StoredAttempt(desired: Desired, script: seq<Fate>)

  ghost function StoredAfter(raw: Zone, a: StoredAttempt, sf: string): Zone {
    if NextFate(a.script) != Completes then raw
    else RawRun(raw, Plan(Decoded(raw), a.desired, sf), Later(a.script)).0
  }

  /** The stored zone when attempt i begins. */
  ghost function StoredAt(raw: Zone, h: seq<StoredAttempt>, sf: string, i: nat): Zone
    requires i <= |h|
  {
    if i == 0 then raw else StoredAfter(StoredAt(raw, h, sf, i - 1), h[i - 1], sf)
  }

  /** The attempt as the abstract provider would have it. */
  ghost function Read(raw: Zone, a: StoredAttempt, sf: string): Attempt {
    Attempt(a.desired, OutcomeOf(Decoded(raw), a.desired, sf, a.script))
  }

  ghost function ReadHistory(raw: Zone, h: seq<StoredAttempt>, sf: string, i: nat): (r: seq<Attempt>)
    requires i <= |h|
    ensures |r| == i
  {
    if i == 0 then [] else ReadHistory(raw, h, sf, i - 1) + [Read(StoredAt(raw, h, sf, i - 1), h[i - 1], sf)]
  }

  /** The names to be listed have no quote at either end. */
  predicate CleanNames(d: Desired, sf: string) {
    forall n | n in d && n != sf :: QuoteClean(n)
  }

  lemma StateRecordIsCleanIff(d: Desired, sf: string)
    requires WellFormed(d, sf) && sf in d
    ensures CleanRecord(d[sf].record) <==> CleanNames(d, sf)
  {
    hide QuoteClean;
    var values := d[sf].record.records;
    assert forall n :: n in values <==> n in ValueSet(values);
    assert forall n | n in d && n != sf :: n in d.Keys - {sf};
  }

  /** The state record, if there is one, is stored in the adapter's own form, and every attempt's
      wishes are well formed with names that survive quoting. */
  ghost predicate SoundStored(raw: Zone, h: seq<StoredAttempt>, sf: string) {
    && ZoneOk(Decoded(raw), sf) && FaithfulAt(raw, StateKey(sf))
    && forall i | 0 <= i < |h| :: WellFormed(h[i].desired, sf) && CleanNames(h[i].desired, sf)
  }

  lemma StoredStep(raw: Zone, a: StoredAttempt, sf: string)
    requires ZoneOk(Decoded(raw), sf) && FaithfulAt(raw, StateKey(sf))
    requires WellFormed(a.desired, sf) && CleanNames(a.desired, sf)
    ensures FaithfulAt(StoredAfter(raw, a, sf), StateKey(sf))
    ensures Decoded(StoredAfter(raw, a, sf)) == ZoneAfter(Decoded(raw), Read(raw, a, sf), sf)
  {
    hide Plan, Decoded, FaithfulAt, CleanNames, CleanRecord, Run, RawRun, ZoneAfter;
    var z := Decoded(raw);
    ScriptedAttempt(z, a.desired, sf, a.script);
    if NextFate(a.script) == Completes {
      if sf in a.desired { StateRecordIsCleanIff(a.desired, sf); }
      AttemptOnStoredZone(raw, a.desired, sf, Later(a.script));
    }
  }

  /** The stored zone through any history, failures included: what is read from it is what the
      abstract history leaves, and the state record stays in the adapter's own form. So all that
      holds of histories holds of the zone at Route 53. */
  lemma {:induction false} StoredHistoryRefinesHistory(raw: Zone, h: seq<StoredAttempt>, sf: string, i: nat)
    requires SoundStored(raw, h, sf) && i <= |h|
    ensures var r := ReadHistory(raw, h, sf, i);
            && SoundHistory(Decoded(raw), r, sf)
            && Decoded(StoredAt(raw, h, sf, i)) == ZoneAt(Decoded(raw), r, sf, i)
            && FaithfulAt(StoredAt(raw, h, sf, i), StateKey(sf))
    decreases i
  {
    hide Decoded, FaithfulAt, CleanNames, StoredAfter, ZoneAfter, OutcomeOf, WellFormed, ZoneOk;
    if i > 0 {
      StoredHistoryRefinesHistory(raw, h, sf, i - 1);
      var y, r, a := StoredAt(raw, h, sf, i - 1), ReadHistory(raw, h, sf, i - 1), h[i - 1];
      ZonesStaySound(Decoded(raw), r, sf, i - 1);
      StoredStep(y, a, sf);
      ZoneAtExtends(Decoded(raw), r, Read(y, a, sf), sf, i - 1);
    }
  }

  /** The leak bound at Route 53: an A record some attempt wrote and the stored zone still holds is
      listed, or a failed attempt wrote it and no later successful one desired it. */
  lemma StoredLeakBound(raw: Zone, h: seq<StoredAttempt>, sf: string, i: nat, m: nat, n: string)
    requires SoundStored(raw, h, sf) && m < i <= |h|
    requires Wrote(Decoded(raw), ReadHistory(raw, h, sf, i), sf, m, n) && AKey(n) in StoredAt(raw, h, sf, i)
    ensures var r := ReadHistory(raw, h, sf, i);
            Owned(Decoded(StoredAt(raw, h, sf, i)), sf, n) || exists l | 0 <= l < i :: Leaked(Decoded(raw), r, sf, l, i, n)
  {
    hide ReadHistory, StoredAt, ZoneAt, Wrote, Leaked;
    StoredHistoryRefinesHistory(raw, h, sf, i);
    LeakBound(Decoded(raw), ReadHistory(raw, h, sf, i), sf, m, i, n);
  }
}
