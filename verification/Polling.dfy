/** The polling loop of main.go: what triggers an attempt, what the cache suppresses, and how
    long a lost trigger can last. Times are in nanoseconds. */
module Polling {
  import opened Records
  import opened Zones
  import opened Planning
  import opened Safety
  import opened Reconciling
  import opened Histories

  const MINUTE: int := 60_000_000_000

  datatype LoopState = LoopState(
    currentVersion: string, lastUpdated: int, hasSynchronized: bool, cached: Desired, zone: Zone)

  /** What one round sees: the version read (if it succeeds), the clock then, the records read
      from metadata (if that succeeds), the fates of the provider calls, the clock at the end. */
  datatype Poll = Poll(version: Option<string>, now: int, metadata: Option<Desired>, script: seq<Fate>, finished: int)

  predicate VersionChanged(s: LoopState, p: Poll) {
    p.version.Some? && p.version.value != s.currentVersion
  }

  predicate Forced(s: LoopState, p: Poll) {
    p.version == Some(s.currentVersion) && p.now - s.lastUpdated >= MINUTE
  }

  predicate ShouldSynchronize(hasSynchronized: bool, updateForced: bool, recs: Desired, cached: Desired) {
    !hasSynchronized || updateForced || recs != cached
  }

  predicate ReadsMetadata(s: LoopState, p: Poll) {
    (VersionChanged(s, p) || Forced(s, p)) && p.metadata.Some?
  }

  predicate Attempts(s: LoopState, p: Poll) {
    ReadsMetadata(s, p) && ShouldSynchronize(s.hasSynchronized, Forced(s, p), p.metadata.value, s.cached)
  }

  /** The records were read and the cache keeps them from the provider. */
  predicate Skips(s: LoopState, p: Poll) {
    ReadsMetadata(s, p) && !Attempts(s, p)
  }

  /** The attempt a round makes, or would make. */
  ghost function AttemptOf(s: LoopState, p: Poll, sf: string): Attempt
    requires p.metadata.Some?
  {
    Attempt(p.metadata.value, OutcomeOf(s.zone, p.metadata.value, sf, p.script))
  }

  ghost predicate AttemptSucceeds(s: LoopState, p: Poll, sf: string)
    requires p.metadata.Some?
  {
    AttemptOf(s, p, sf).outcome.Succeeded?
  }

  function SeenVersion(s: LoopState, p: Poll): string {
    if p.version.Some? then p.version.value else s.currentVersion
  }

  /** The state after an attempt in this round. */
  ghost function Attempted(s: LoopState, p: Poll, sf: string): LoopState
    requires p.metadata.Some?
  {
    var z := ZoneAfter(s.zone, AttemptOf(s, p, sf), sf);
    if AttemptSucceeds(s, p, sf)
    then LoopState(SeenVersion(s, p), p.finished, true, p.metadata.value, z)
    else s.(currentVersion := SeenVersion(s, p), zone := z)
  }

  /** One round. A failed metadata read or attempt still consumes the version change. */
  ghost function Step(s: LoopState, p: Poll, sf: string): LoopState {
    if Attempts(s, p) then Attempted(s, p, sf) else s.(currentVersion := SeenVersion(s, p))
  }

  /** What starts an attempt. A new version: wishes other than the cached ones, or no success
      yet. The old version: one minute since the last success, and then wishes do not matter. A
      version or records that cannot be read: nothing. */
  lemma AttemptsIff(s: LoopState, p: Poll)
    ensures var due := p.now - s.lastUpdated >= 60 * 1_000_000_000;
            && (ReadsMetadata(s, p) <==> p.version.Some? && p.metadata.Some? && (p.version.value != s.currentVersion || due))
            && (Attempts(s, p) <==> p.version.Some? && p.metadata.Some? &&
                                    if p.version.value == s.currentVersion then due
                                    else !s.hasSynchronized || p.metadata.value != s.cached)
  {}

  /** What a round leaves in the loop's variables. The version is taken over whenever it was read,
      whatever fails afterwards; all else changes with a success only. */
  lemma RoundInFields(s: LoopState, p: Poll, sf: string)
    ensures var t := Step(s, p, sf);
            && t.currentVersion == (if p.version.Some? then p.version.value else s.currentVersion)
            && if Attempts(s, p) && AttemptSucceeds(s, p, sf)
               then t.lastUpdated == p.finished && t.hasSynchronized && t.cached == p.metadata.value
               else t.lastUpdated == s.lastUpdated && t.hasSynchronized == s.hasSynchronized && t.cached == s.cached
  {
    hide ZoneAfter, AttemptSucceeds, Attempts;
  }

  ghost function StateAt(s: LoopState, polls: seq<Poll>, sf: string, i: nat): LoopState
    requires i <= |polls|
  {
    if i == 0 then s else Step(StateAt(s, polls, sf, i - 1), polls[i - 1], sf)
  }

  ghost predicate SoundPoll(p: Poll, sf: string) {
    p.metadata.Some? ==> WellFormed(p.metadata.value, sf)
  }

  ghost predicate SoundRun(s: LoopState, polls: seq<Poll>, sf: string) {
    ZoneOk(s.zone, sf) && forall i | 0 <= i < |polls| :: SoundPoll(polls[i], sf)
  }

  lemma StepStaysSound(s: LoopState, p: Poll, sf: string)
    requires ZoneOk(s.zone, sf) && SoundPoll(p, sf)
    ensures ZoneOk(Step(s, p, sf).zone, sf)
  {
    hide Plan;
    if Attempts(s, p) {
      var a := AttemptOf(s, p, sf);
      SoundAfter(s.zone, a.desired, sf, Steps(s.zone, a, sf));
    }
  }

  lemma RunStaysSound(s: LoopState, polls: seq<Poll>, sf: string, i: nat)
    requires SoundRun(s, polls, sf) && i <= |polls|
    ensures ZoneOk(StateAt(s, polls, sf, i).zone, sf)
  {
    hide Step;
    if i > 0 {
      RunStaysSound(s, polls, sf, i - 1);
      StepStaysSound(StateAt(s, polls, sf, i - 1), polls[i - 1], sf);
    }
  }

  /** The attempts the loop has made after i rounds. */
  ghost function HistoryOf(s: LoopState, polls: seq<Poll>, sf: string, i: nat): seq<Attempt>
    requires i <= |polls|
  {
    if i == 0 then [] else
    var t, h := StateAt(s, polls, sf, i - 1), HistoryOf(s, polls, sf, i - 1);
    if Attempts(t, polls[i - 1]) then h + [AttemptOf(t, polls[i - 1], sf)] else h
  }

  lemma RoundMovesZone(s: LoopState, p: Poll, sf: string)
    ensures Step(s, p, sf).zone == if Attempts(s, p) then ZoneAfter(s.zone, AttemptOf(s, p, sf), sf) else s.zone
  {
    hide ZoneAfter, AttemptOf, AttemptSucceeds;
  }

  /** The loop composed with the reconciler: the zone after any number of rounds is the zone
      after the history of the attempts made, so what holds of histories holds of the loop. */
  lemma {:induction false} LoopRunsAreHistories(s: LoopState, polls: seq<Poll>, sf: string, i: nat)
    requires SoundRun(s, polls, sf) && i <= |polls|
    ensures var h := HistoryOf(s, polls, sf, i);
            SoundHistory(s.zone, h, sf) && ZoneAt(s.zone, h, sf, |h|) == StateAt(s, polls, sf, i).zone
    decreases i
  {
    hide ZoneAfter, Step, WellFormed, OutcomeOf;
    if i > 0 {
      LoopRunsAreHistories(s, polls, sf, i - 1);
      var t, h := StateAt(s, polls, sf, i - 1), HistoryOf(s, polls, sf, i - 1);
      RoundMovesZone(t, polls[i - 1], sf);
      if Attempts(t, polls[i - 1]) {
        var a := AttemptOf(t, polls[i - 1], sf);
        ZoneAtExtends(s.zone, h, a, sf, |h|);
        assert SoundPoll(polls[i - 1], sf);
      }
    }
  }

  /** The leak bound for the running service: a present record it wrote in any round is listed,
      or some failed attempt wrote it and no later successful one desired it. */
  lemma LoopLeakBound(s: LoopState, polls: seq<Poll>, sf: string, i: nat, m: nat, n: string)
    requires SoundRun(s, polls, sf) && i <= |polls| && m < |HistoryOf(s, polls, sf, i)|
    requires Wrote(s.zone, HistoryOf(s, polls, sf, i), sf, m, n) && AKey(n) in StateAt(s, polls, sf, i).zone
    ensures var h := HistoryOf(s, polls, sf, i);
            Owned(StateAt(s, polls, sf, i).zone, sf, n) || exists l | 0 <= l < |h| :: Leaked(s.zone, h, sf, l, |h|, n)
  {
    hide HistoryOf, StateAt, ZoneAt, Wrote, Leaked;
    LoopRunsAreHistories(s, polls, sf, i);
    var h := HistoryOf(s, polls, sf, i);
    LeakBound(s.zone, h, sf, m, |h|, n);
  }

  /** The records an attempt returns, those the platform is notified of. */
  ghost function Reported(z: Zone, a: Attempt, sf: string): seq<MetadataDnsRecord> {
    if a.outcome.Succeeded? then Written(z, a.desired, sf) else []
  }

  /** What a completed attempt reports is exactly what it wrote. */
  lemma ReportedIsWritten(z: Zone, d: Desired, sf: string, r: MetadataDnsRecord)
    requires Sound(z, d, sf)
    ensures r in Written(z, d, sf) <==>
            exists n :: n in d && r == d[n] && PlannedOp(z, d, sf, n).Some?
  {
    var all := AllRecords(z, sf);
    InOrderMembers(d, d.Keys - all.Keys, r);
    InOrderMembers(d, Differing(d, all), r);
    assert r in Written(z, d, sf) <==> r in InOrder(d, d.Keys - all.Keys) || r in InOrder(d, Differing(d, all));
    forall n | n in d ensures PlannedOp(z, d, sf, n).Some? <==> n in d.Keys - all.Keys || n in Differing(d, all) {
      CompareDesired(z, d, sf, n);
    }
  }

  lemma InOrderMembers(d: Desired, names: set<string>, r: MetadataDnsRecord)
    requires names <= d.Keys
    ensures r in InOrder(d, names) <==> exists n :: n in names && r == d[n]
  {
    var ks := Ordering.Listing(Ordering.KeyOrder(TypesOf(RecordsOf(d))), names);
    var out := InOrder(d, names);
    if r in out {
      var i :| 0 <= i < |out| && out[i] == r;
      assert ks[i] in names && r == d[ks[i]];
    }
    if n :| n in names && r == d[n] {
      var i :| 0 <= i < |ks| && ks[i] == n;
      assert out[i] == r;
    }
  }

  /** A record written by an attempt that then failed is never reported: the failed attempt
      reports nothing, and to the next one, whatever else it wishes for and however it ends, the
      record is already in place. */
  lemma InterruptedWritesGoUnreported(z: Zone, a: Attempt, next: Attempt, sf: string, n: string)
    requires Sound(z, a.desired, sf) && WellFormed(next.desired, sf) && a.outcome.Failed?
    requires n in a.desired && Reached(z, a.desired, sf, Steps(z, a, sf), KeyOf(a.desired[n].record))
    requires n in next.desired && next.desired[n] == a.desired[n]
    ensures Reported(z, a, sf) == [] && a.desired[n] !in Reported(ZoneAfter(z, a, sf), next, sf)
  {
    hide Plan, After, Written;
    var d, y, j, r := next.desired, ZoneAfter(z, a, sf), Steps(z, a, sf), a.desired[n];
    SoundAfter(z, a.desired, sf, j);
    AfterLookup(z, a.desired, sf, j, KeyOf(r.record));
    DesiredIsPlanned(z, a.desired, sf, n);
    assert Lookup(y, KeyOf(r.record)) == Some(SetOf(r.record));
    assert Holds(y, d[n].record);
    ReportedIsWritten(y, d, sf, r);
    assert forall m | m in d && r == d[m] :: m == d[m].record.fqdn == n;
  }

  /** The loop's variables and the reconciler they drive. */
  class Controller {
    var currentVersion: string
    var lastUpdated: int
    var hasSynchronized: bool
    var metadataRecsCached: Desired
    const reconciler: Reconciler

    constructor (reconciler: Reconciler, started: int)
      ensures this.reconciler == reconciler
      ensures State() == LoopState("init", started, false, map[], reconciler.provider.zone)
    {
      this.reconciler := reconciler;
      currentVersion, lastUpdated, hasSynchronized, metadataRecsCached := "init", started, false, map[];
    }

    ghost function State(): LoopState
      reads this, reconciler.provider
    {
      LoopState(currentVersion, lastUpdated, hasSynchronized, metadataRecsCached, reconciler.provider.zone)
    }

    /** One round of the loop. `updated` is what the platform would be notified of. */
    method Round(version: Option<string>, now: int, metadata: Option<Desired>, finished: int)
      returns (updated: seq<MetadataDnsRecord>)
      requires SoundPoll(Poll(version, now, metadata, [], finished), reconciler.stateFqdn)
      requires ZoneOk(reconciler.provider.zone, reconciler.stateFqdn)
      modifies this, reconciler.provider
      ensures var p := Poll(version, now, metadata, old(reconciler.provider.script), finished);
              && State() == Step(old(State()), p, reconciler.stateFqdn)
              && updated == (if Attempts(old(State()), p)
                             then Reported(old(reconciler.provider.zone), AttemptOf(old(State()), p, reconciler.stateFqdn), reconciler.stateFqdn)
                             else [])
              && (!Attempts(old(State()), p) ==> reconciler.provider.Now() == old(reconciler.provider.Now()))
    {
      hide Plan, Run, ZoneAfter, Written;
      updated := [];
      var update, updateForced := false, false;
      ghost var before, s := State(), reconciler.provider.Now();
      match version {
        case None => return;
        case Some(newVersion) =>
          if currentVersion != newVersion {
            currentVersion := newVersion;
            update := true;
          } else if now - lastUpdated >= MINUTE {
            updateForced := true;
          }
      }
      if !(update || updateForced) || metadata.None? { return; }
      var recs := metadata.value;
      if ShouldSynchronize(hasSynchronized, updateForced, recs, metadataRecsCached) {
        var err;
        ghost var acked;
        updated, err, acked := reconciler.UpdateProviderDnsRecords(recs);
        if NextFate(s.script) == Completes {
          ReconcilerMakesAttempts(s, recs, reconciler.stateFqdn, reconciler.provider.Now(), acked, err);
        } else {
          NothingApplied(s.zone, recs, reconciler.stateFqdn);
        }
        if err { return; }
        metadataRecsCached := recs;
        lastUpdated := finished;
        hasSynchronized := true;
      }
    }
  }
}
