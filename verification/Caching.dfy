/** What the cached wishes are worth: when a round that the cache keeps from the provider is
    harmless, and when the loop writes what a loop without the cache would write. */
module Caching {
  import opened Records
  import opened Zones
  import opened Planning
  import opened Safety
  import opened Reconciling
  import opened Histories
  import opened Polling

  /** Once synchronized, and after every later attempt, the last attempt succeeded. */
  ghost predicate NoFailureSinceSuccess(s: LoopState, polls: seq<Poll>, sf: string, i: nat)
    requires i <= |polls|
  {
    i > 0 &&
    var before := StateAt(s, polls, sf, i - 1);
    if Attempts(before, polls[i - 1]) then AttemptSucceeds(before, polls[i - 1], sf)
    else NoFailureSinceSuccess(s, polls, sf, i - 1)
  }

  /** While nothing has failed since the last success the zone is in sync with the cache. */
  lemma {:induction false} CacheIsCurrent(s: LoopState, polls: seq<Poll>, sf: string, i: nat)
    requires SoundRun(s, polls, sf) && i <= |polls| && NoFailureSinceSuccess(s, polls, sf, i)
    ensures var t := StateAt(s, polls, sf, i);
            t.hasSynchronized && Sound(t.zone, t.cached, sf) && InSync(t.zone, t.cached, sf)
    decreases i
  {
    hide Attempted, AttemptSucceeds, InSync, WellFormed;
    var before, p := StateAt(s, polls, sf, i - 1), polls[i - 1];
    RunStaysSound(s, polls, sf, i - 1);
    if Attempts(before, p) {
      assert SoundPoll(p, sf);
      SuccessIsInSync(before, p, sf);
    } else {
      CacheIsCurrent(s, polls, sf, i - 1);
    }
  }

  /** Cache soundness: while no attempt has failed since the last success, a round the cache
      skips would have issued no provider call. */
  lemma SkippedRoundsAreIdle(s: LoopState, polls: seq<Poll>, sf: string, i: nat)
    requires SoundRun(s, polls, sf) && i < |polls| && NoFailureSinceSuccess(s, polls, sf, i)
    requires Skips(StateAt(s, polls, sf, i), polls[i])
    ensures Plan(StateAt(s, polls, sf, i).zone, polls[i].metadata.value, sf) == []
  {
    hide Plan, StateAt, InSync;
    CacheIsCurrent(s, polls, sf, i);
    var t := StateAt(s, polls, sf, i);
    NothingToDoIff(t.zone, t.cached, sf);
  }

  // ---- in sync, name by name ----

  lemma ListedInSync(z: Zone, d: Desired, sf: string)
    requires Sound(z, d, sf) && InSync(z, d, sf)
    ensures Listed(z, sf) == d.Keys - {sf}
  {
    if sf in d { assert Holds(z, d[sf].record); }
    else if StateKey(sf) in z { assert Dropped(z, d, sf, StateKey(sf)); }
  }

  /** The name holds what the wishes say: its values, or nothing. */
  predicate HoldsAt(z: Zone, d: Desired, sf: string, n: string) {
    if n in d then Holds(z, d[n].record) else OwnKey(sf, n) !in z
  }

  lemma InSyncByName(z: Zone, d: Desired, sf: string)
    requires Sound(z, d, sf)
    ensures InSync(z, d, sf) <==> forall n | n in d.Keys + {sf} :: HoldsAt(z, d, sf, n)
  {
    if forall n | n in d.Keys + {sf} :: HoldsAt(z, d, sf, n) {
      assert HoldsAt(z, d, sf, sf);
      forall n | n in d ensures Holds(z, d[n].record) { assert HoldsAt(z, d, sf, n); }
      forall k | k in z ensures !Dropped(z, d, sf, k) {}
    } else if InSync(z, d, sf) {
      ListedInSync(z, d, sf);
      if sf !in d && StateKey(sf) in z { assert Dropped(z, d, sf, StateKey(sf)); }
    }
  }

  /** Two wishes agree on a name: the same values, or none in both. */
  predicate AgreeAt(a: Desired, b: Desired, n: string) {
    (n in a <==> n in b) && (n in a ==> ValueSet(a[n].record.records) == ValueSet(b[n].record.records))
  }

  predicate SameValues(a: Desired, b: Desired) {
    a.Keys == b.Keys && forall n | n in a :: AgreeAt(a, b, n)
  }

  /** A zone can be in sync with two wishes only if they ask for the same values. */
  lemma SyncDecidesWishes(z: Zone, c: Desired, d: Desired, sf: string)
    requires Sound(z, c, sf) && Sound(z, d, sf) && InSync(z, c, sf)
    ensures InSync(z, d, sf) <==> SameValues(d, c)
  {}

  // ---- skips after failures ----

  /** Cache soundness, exactly. From a zone in sync with `past`, after any attempts for any wishes,
      failed or not, skipping the wishes `past` is harmless if and only if, on the state record
      and on each name `past` wants, the last attempt whose call took effect wanted the same. */
  lemma FlipBackIsHarmlessIff(z: Zone, h: seq<Attempt>, past: Desired, sf: string)
    requires SoundHistory(z, h, sf) && WellFormed(past, sf) && InSync(z, past, sf)
    ensures Plan(ZoneAt(z, h, sf, |h|), past, sf) == [] <==>
            forall n | n in past.Keys + {sf} :: LastCallAgrees(z, h, past, sf, n)
  {
    hide Plan, InSync, LastCall, ZoneAt, LastCallAgrees, HoldsAt;
    var y := ZoneAt(z, h, sf, |h|);
    ZonesStaySound(z, h, sf, |h|);
    NothingToDoIff(y, past, sf);
    InSyncByName(z, past, sf);
    InSyncByName(y, past, sf);
    forall n | n in past.Keys + {sf} ensures HoldsAt(y, past, sf, n) <==> LastCallAgrees(z, h, past, sf, n) {
      HoldsByLastCall(z, h, past, sf, n);
    }
  }

  ghost predicate LastCallAgrees(z: Zone, h: seq<Attempt>, past: Desired, sf: string, n: string) {
    match LastCall(z, h, sf, |h|, OwnKey(sf, n))
    case Some(m) => AgreeAt(h[m].desired, past, n)
    case None => true
  }

  lemma HoldsByLastCall(z: Zone, h: seq<Attempt>, past: Desired, sf: string, n: string)
    requires SoundHistory(z, h, sf) && WellFormed(past, sf)
    requires n in past.Keys + {sf} && HoldsAt(z, past, sf, n)
    ensures HoldsAt(ZoneAt(z, h, sf, |h|), past, sf, n) <==> LastCallAgrees(z, h, past, sf, n)
  {
    hide Plan, ZoneAt, LastCall;
    var y, k := ZoneAt(z, h, sf, |h|), OwnKey(sf, n);
    HistoryLookup(z, h, sf, |h|, k);
    assert Lookup(y, k) == (if k in y then Some(y[k]) else None) && Lookup(z, k) == (if k in z then Some(z[k]) else None);
    assert n in past ==> KeyOf(past[n].record) == k;
  }

  /** The zone as the last successful attempt left it, and the failed attempts since. */
  ghost function SyncedZone(s: LoopState, polls: seq<Poll>, sf: string, i: nat): Zone
    requires i <= |polls|
  {
    if i == 0 then s.zone else
    var t, p := StateAt(s, polls, sf, i - 1), polls[i - 1];
    if Attempts(t, p) && AttemptSucceeds(t, p, sf) then Step(t, p, sf).zone else SyncedZone(s, polls, sf, i - 1)
  }

  ghost function FailedSince(s: LoopState, polls: seq<Poll>, sf: string, i: nat): seq<Attempt>
    requires i <= |polls|
  {
    if i == 0 then [] else
    var t, p := StateAt(s, polls, sf, i - 1), polls[i - 1];
    if !Attempts(t, p) then FailedSince(s, polls, sf, i - 1)
    else if AttemptSucceeds(t, p, sf) then []
    else FailedSince(s, polls, sf, i - 1) + [AttemptOf(t, p, sf)]
  }

  /** A loop that is not synchronized, or whose zone is in sync with its cache. */
  ghost predicate InStep(s: LoopState, sf: string) {
    ZoneOk(s.zone, sf) && (s.hasSynchronized ==> WellFormed(s.cached, sf) && InSync(s.zone, s.cached, sf))
  }

  lemma {:induction false} ZoneSinceSuccess(s: LoopState, polls: seq<Poll>, sf: string, i: nat)
    requires SoundRun(s, polls, sf) && InStep(s, sf) && i <= |polls|
    ensures var t, z, h := StateAt(s, polls, sf, i), SyncedZone(s, polls, sf, i), FailedSince(s, polls, sf, i);
            && SoundHistory(z, h, sf) && ZoneAt(z, h, sf, |h|) == t.zone
            && InStep(t.(zone := z), sf)
    decreases i
  {
    hide ZoneAfter, AttemptSucceeds, WellFormed, InSync;
    if i > 0 {
      ZoneSinceSuccess(s, polls, sf, i - 1);
      var t, p, h := StateAt(s, polls, sf, i - 1), polls[i - 1], FailedSince(s, polls, sf, i - 1);
      RunStaysSound(s, polls, sf, i - 1);
      if Attempts(t, p) {
        var a := AttemptOf(t, p, sf);
        assert SoundPoll(p, sf);
        if AttemptSucceeds(t, p, sf) {
          SuccessIsInSync(t, p, sf);
        } else {
          ZoneAtExtends(SyncedZone(s, polls, sf, i - 1), h, a, sf, |h|);
        }
      }
    }
  }

  lemma SuccessIsInSync(s: LoopState, p: Poll, sf: string)
    requires ZoneOk(s.zone, sf) && SoundPoll(p, sf) && Attempts(s, p) && AttemptSucceeds(s, p, sf)
    ensures Step(s, p, sf).hasSynchronized && InStep(Step(s, p, sf), sf)
  {
    hide ZoneAfter, InSync, Target;
    SucceededAttempt(s.zone, AttemptOf(s, p, sf), sf);
    TargetIsInSync(s.zone, p.metadata.value, sf);
  }

  /** For every run of the loop: a skipped round would have issued no call if and only if the
      attempts that failed since the last success agree, name by name, with the cache. */
  lemma SkipIsHarmlessIff(s: LoopState, polls: seq<Poll>, sf: string, i: nat)
    requires SoundRun(s, polls, sf) && InStep(s, sf) && i < |polls|
    requires Skips(StateAt(s, polls, sf, i), polls[i])
    ensures var t, z, h := StateAt(s, polls, sf, i), SyncedZone(s, polls, sf, i), FailedSince(s, polls, sf, i);
            Plan(t.zone, polls[i].metadata.value, sf) == [] <==>
            forall n | n in t.cached.Keys + {sf} :: LastCallAgrees(z, h, t.cached, sf, n)
  {
    hide StateAt, SyncedZone, FailedSince, ZoneAt, LastCallAgrees, Plan, WellFormed, InSync;
    ZoneSinceSuccess(s, polls, sf, i);
    var t, z, h := StateAt(s, polls, sf, i), SyncedZone(s, polls, sf, i), FailedSince(s, polls, sf, i);
    FlipBackIsHarmlessIff(z, h, t.cached, sf);
  }

  /** The same for a single failed attempt, by its calls. From a zone in sync with `past`, j calls of an
      attempt for `wish` are applied; when the wishes then flip back, the skip is harmless
      exactly when none of those calls named a record of `past` or the state record. */
  lemma OneFlipBackIsHarmlessIff(z: Zone, past: Desired, wish: Desired, sf: string, j: nat)
    requires Sound(z, past, sf) && InSync(z, past, sf) && WellFormed(wish, sf) && j <= |Plan(z, wish, sf)|
    ensures Plan(After(z, wish, sf, j), past, sf) == [] <==>
            forall i | 0 <= i < j :: Plan(z, wish, sf)[i].record.fqdn !in past.Keys + {sf}
  {
    hide Plan;
    var y := After(z, wish, sf, j);
    SoundAfter(z, wish, sf, j);
    NothingToDoIff(y, past, sf);
    if forall i | 0 <= i < j :: Plan(z, wish, sf)[i].record.fqdn !in past.Keys + {sf} {
      UnrelatedCallsKeepSync(z, past, wish, sf, j);
    } else {
      var i :| 0 <= i < j && Plan(z, wish, sf)[i].record.fqdn in past.Keys + {sf};
      RelatedCallBreaksSync(z, past, wish, sf, j, i);
    }
  }

  lemma UnrelatedCallsKeepSync(z: Zone, past: Desired, wish: Desired, sf: string, j: nat)
    requires Sound(z, past, sf) && InSync(z, past, sf) && WellFormed(wish, sf) && j <= |Plan(z, wish, sf)|
    requires forall i | 0 <= i < j :: Plan(z, wish, sf)[i].record.fqdn !in past.Keys + {sf}
    ensures InSync(After(z, wish, sf, j), past, sf)
  {
    hide Plan, After;
    var y := After(z, wish, sf, j);
    assert forall k: RRKey | k.name in past.Keys + {sf} :: !Reached(z, wish, sf, j, k);
    forall n | n in past ensures Holds(y, past[n].record) {
      AfterLookup(z, wish, sf, j, KeyOf(past[n].record));
      assert Holds(z, past[n].record);
      assert Lookup(y, KeyOf(past[n].record)) == Lookup(z, KeyOf(past[n].record));
    }
    AfterLookup(z, wish, sf, j, StateKey(sf));
    ListedAfter(z, wish, sf, j);
    ListedInSync(z, past, sf);
    forall k | k in y ensures !Dropped(y, past, sf, k) {
      if k == StateKey(sf) { assert Lookup(y, k) == Lookup(z, k); }
    }
  }

  lemma RelatedCallBreaksSync(z: Zone, past: Desired, wish: Desired, sf: string, j: nat, i: nat)
    requires Sound(z, past, sf) && InSync(z, past, sf) && WellFormed(wish, sf) && i < j <= |Plan(z, wish, sf)|
    requires Plan(z, wish, sf)[i].record.fqdn in past.Keys + {sf}
    ensures !InSync(After(z, wish, sf, j), past, sf)
  {
    hide Plan, After;
    var y, c := After(z, wish, sf, j), Plan(z, wish, sf)[i];
    var n, k := c.record.fqdn, KeyOf(c.record);
    PlannedAt(z, wish, sf, i);
    assert Reached(z, wish, sf, j, k);
    AfterLookup(z, wish, sf, j, k);
    assert Lookup(y, k) == if k in y then Some(y[k]) else None;
    if n in past {
      assert Holds(z, past[n].record) && KeyOf(past[n].record) == k;
      assert !Holds(y, past[n].record);
    } else {
      assert Dropped(z, past, sf, StateKey(sf));
      assert k == StateKey(sf) && k in y && Dropped(y, past, sf, k);
    }
  }

  // ---- the loop without the cache ----

  predicate CallsComplete(p: Poll) {
    forall f | f in p.script :: f == Completes
  }

  /** An attempt whose fates are all favourable succeeds. */
  lemma FavourableAttemptSucceeds(s: LoopState, p: Poll, sf: string)
    requires p.metadata.Some? && Sound(s.zone, p.metadata.value, sf)
    requires CallsComplete(p)
    ensures AttemptSucceeds(s, p, sf)
  {
    hide Plan, Run;
    assert p.script != [] ==> p.script[0] in p.script;
    assert forall i | 0 <= i < |Later(p.script)| :: Later(p.script)[i] in p.script;
    PlanIsAccepted(s.zone, p.metadata.value, sf);
    RunFailsIff(s.zone, Plan(s.zone, p.metadata.value, sf), Later(p.script));
  }

  lemma FavourableRound(s: LoopState, p: Poll, sf: string)
    requires p.metadata.Some? && Sound(s.zone, p.metadata.value, sf) && CallsComplete(p)
    ensures Attempted(s, p, sf) ==
            LoopState(SeenVersion(s, p), p.finished, true, p.metadata.value, Target(s.zone, p.metadata.value, sf))
  {
    hide ZoneAfter, Target, OutcomeOf;
    FavourableAttemptSucceeds(s, p, sf);
    SucceededAttempt(s.zone, AttemptOf(s, p, sf), sf);
  }

  /** One round of the loop without the cache: every round that reads the records attempts. */
  ghost function StepUncached(s: LoopState, p: Poll, sf: string): LoopState {
    if ReadsMetadata(s, p) then Attempted(s, p, sf) else s.(currentVersion := SeenVersion(s, p))
  }

  ghost function UncachedAt(s: LoopState, polls: seq<Poll>, sf: string, i: nat): LoopState
    requires i <= |polls|
  {
    if i == 0 then s else StepUncached(UncachedAt(s, polls, sf, i - 1), polls[i - 1], sf)
  }

  /** What a round does to a loop in step, skipped or not, except for the clock. */
  ghost predicate Follows(s: LoopState, t: LoopState, p: Poll, sf: string) {
    if ReadsMetadata(s, p) then
      t == LoopState(SeenVersion(s, p), t.lastUpdated, true, p.metadata.value, Target(s.zone, p.metadata.value, sf))
    else t == s.(currentVersion := SeenVersion(s, p))
  }

  lemma BothLoopsFollow(s: LoopState, p: Poll, sf: string)
    requires InStep(s, sf) && SoundPoll(p, sf) && CallsComplete(p)
    ensures Follows(s, StepUncached(s, p, sf), p, sf) && Follows(s, Step(s, p, sf), p, sf)
  {
    hide Attempted, InSync, Target, AttemptSucceeds;
    if ReadsMetadata(s, p) {
      FavourableRound(s, p, sf);
      if Skips(s, p) { InSyncIsOwnTarget(s.zone, s.cached, sf); }
    }
  }

  lemma FollowingStaysInStep(s: LoopState, t: LoopState, p: Poll, sf: string)
    requires InStep(s, sf) && SoundPoll(p, sf) && Follows(s, t, p, sf)
    ensures InStep(t, sf)
  {
    hide InSync, Target;
    if ReadsMetadata(s, p) { TargetIsInSync(s.zone, p.metadata.value, sf); }
  }

  /** The two loops are level: nothing but the time of the last update and the cached wishes may
      differ, and those only once both are in sync. */
  ghost predicate Level(s: LoopState, u: LoopState, sf: string) {
    && InStep(s, sf) && InStep(u, sf) && s.zone == u.zone
    && s.currentVersion == u.currentVersion && s.hasSynchronized == u.hasSynchronized
    && (!s.hasSynchronized ==> s == u)
  }

  /** Just one of the loops reads in this round, and what it reads is not what the cache holds. */
  predicate Parts(s: LoopState, u: LoopState, p: Poll) {
    ReadsMetadata(s, p) != ReadsMetadata(u, p) && !SameValues(p.metadata.value, s.cached)
  }

  lemma LevelStep(s: LoopState, u: LoopState, p: Poll, sf: string)
    requires Level(s, u, sf) && SoundPoll(p, sf) && CallsComplete(p)
    ensures var s', u' := Step(s, p, sf), StepUncached(u, p, sf);
            if Parts(s, u, p) then s'.zone != u'.zone else Level(s', u', sf)
  {
    hide InSync, Target, Step, StepUncached, SameValues, WellFormed;
    var s', u' := Step(s, p, sf), StepUncached(u, p, sf);
    BothLoopsFollow(s, p, sf);
    BothLoopsFollow(u, p, sf);
    FollowingStaysInStep(s, s', p, sf);
    FollowingStaysInStep(u, u', p, sf);
    if ReadsMetadata(s, p) != ReadsMetadata(u, p) {
      SyncDecidesWishes(s.zone, s.cached, p.metadata.value, sf);
      ChangesUnlessInSync(s.zone, p.metadata.value, sf);
    }
  }

  lemma ChangesUnlessInSync(z: Zone, d: Desired, sf: string)
    requires Sound(z, d, sf)
    ensures Target(z, d, sf) == z <==> InSync(z, d, sf)
  {
    hide Target, InSync;
    if InSync(z, d, sf) { InSyncIsOwnTarget(z, d, sf); }
    if Target(z, d, sf) == z { OwnTargetIsInSync(z, d, sf); }
  }

  /** The rounds read well-formed records, and every provider call completes. */
  ghost predicate CallsCompleteRun(s: LoopState, polls: seq<Poll>, sf: string) {
    InStep(s, sf) && forall i | 0 <= i < |polls| :: SoundPoll(polls[i], sf) && CallsComplete(polls[i])
  }

  ghost predicate PartsAt(s: LoopState, polls: seq<Poll>, sf: string, k: nat)
    requires k < |polls|
  {
    Parts(StateAt(s, polls, sf, k), UncachedAt(s, polls, sf, k), polls[k])
  }

  lemma {:induction false} LevelUntilTheyPart(s: LoopState, polls: seq<Poll>, sf: string, i: nat)
    requires CallsCompleteRun(s, polls, sf) && i <= |polls|
    requires forall k | 0 <= k < i :: !PartsAt(s, polls, sf, k)
    ensures Level(StateAt(s, polls, sf, i), UncachedAt(s, polls, sf, i), sf)
    decreases i
  {
    hide Step, StepUncached, Level, Parts, SoundPoll, CallsComplete;
    if i > 0 {
      LevelUntilTheyPart(s, polls, sf, i - 1);
      assert !PartsAt(s, polls, sf, i - 1);
      LevelStep(StateAt(s, polls, sf, i - 1), UncachedAt(s, polls, sf, i - 1), polls[i - 1], sf);
    } else {
      StartsLevel(s, sf);
    }
  }

  lemma StartsLevel(s: LoopState, sf: string)
    requires InStep(s, sf)
    ensures Level(s, s, sf)
  {}

  /** What the cache costs, exactly. While every call completes, the zone is at each moment the one
      a loop without the cache would have, if and only if, whenever just one of the two reads, it
      reads what the cache holds. The loop without the cache renews `lastUpdated` more often,
      so its forced updates fall due at other times. */
  lemma CachedLoopRefinesUncached(s: LoopState, polls: seq<Poll>, sf: string, i: nat)
    requires CallsCompleteRun(s, polls, sf) && i <= |polls|
    ensures (forall k | 0 <= k <= i :: StateAt(s, polls, sf, k).zone == UncachedAt(s, polls, sf, k).zone) <==>
            forall k | 0 <= k < i :: !PartsAt(s, polls, sf, k)
  {
    hide Level, PartsAt, CallsCompleteRun, StateAt, UncachedAt;
    if forall k | 0 <= k < i :: !PartsAt(s, polls, sf, k) {
      forall k | 0 <= k <= i ensures StateAt(s, polls, sf, k).zone == UncachedAt(s, polls, sf, k).zone {
        LevelUntilTheyPart(s, polls, sf, k);
        LevelZones(StateAt(s, polls, sf, k), UncachedAt(s, polls, sf, k), sf);
      }
    } else {
      var k := FirstParting(s, polls, sf, i);
      PartingShows(s, polls, sf, k);
    }
  }

  lemma PartingShows(s: LoopState, polls: seq<Poll>, sf: string, k: nat)
    requires CallsCompleteRun(s, polls, sf) && k < |polls|
    requires PartsAt(s, polls, sf, k) && forall m | 0 <= m < k :: !PartsAt(s, polls, sf, m)
    ensures StateAt(s, polls, sf, k + 1).zone != UncachedAt(s, polls, sf, k + 1).zone
  {
    hide Level, Parts, SoundPoll, CallsComplete, Step, StepUncached;
    LevelUntilTheyPart(s, polls, sf, k);
    LevelStep(StateAt(s, polls, sf, k), UncachedAt(s, polls, sf, k), polls[k], sf);
  }

  lemma LevelZones(s: LoopState, u: LoopState, sf: string)
    requires Level(s, u, sf)
    ensures s.zone == u.zone
  {}

  lemma FirstParting(s: LoopState, polls: seq<Poll>, sf: string, i: nat) returns (k: nat)
    requires i <= |polls| && exists m :: 0 <= m < i && PartsAt(s, polls, sf, m)
    ensures k < i && PartsAt(s, polls, sf, k) && forall m | 0 <= m < k :: !PartsAt(s, polls, sf, m)
  {
    hide PartsAt;
    k := 0;
    while !PartsAt(s, polls, sf, k)
      invariant k < i && forall m | 0 <= m < k :: !PartsAt(s, polls, sf, m)
      decreases i - k
    {
      k := k + 1;
    }
  }

  // ---- readings decided by the version ----

  /** Every round that reads a version also reads the records, and gets those of that version. */
  predicate Versioned(polls: seq<Poll>, readings: map<string, Desired>) {
    forall i | 0 <= i < |polls| && polls[i].version.Some? ::
      polls[i].version.value in readings && polls[i].metadata == Some(readings[polls[i].version.value])
  }

  /** The cache holds the records of the version the loop is at. */
  predicate CachesVersion(s: LoopState, readings: map<string, Desired>) {
    s.hasSynchronized ==> s.currentVersion in readings && s.cached == readings[s.currentVersion]
  }

  lemma CachesVersionStep(s: LoopState, t: LoopState, p: Poll, readings: map<string, Desired>, sf: string)
    requires Versioned([p], readings) && CachesVersion(s, readings) && Follows(s, t, p, sf)
    ensures CachesVersion(t, readings)
  {
    hide Target;
    assert [p][0] == p;
  }

  lemma {:induction false} VersionedRunKeepsLevel(s: LoopState, polls: seq<Poll>, readings: map<string, Desired>, sf: string, i: nat)
    requires CallsCompleteRun(s, polls, sf) && i <= |polls|
    requires Versioned(polls, readings) && CachesVersion(s, readings)
    ensures forall k | 0 <= k < i :: !PartsAt(s, polls, sf, k)
    ensures CachesVersion(StateAt(s, polls, sf, i), readings) && CachesVersion(UncachedAt(s, polls, sf, i), readings)
    decreases i
  {
    hide Step, StepUncached, Level, Follows, SoundPoll, CallsComplete, CachesVersion;
    if i > 0 {
      VersionedRunKeepsLevel(s, polls, readings, sf, i - 1);
      LevelUntilTheyPart(s, polls, sf, i - 1);
      var t, u, p := StateAt(s, polls, sf, i - 1), UncachedAt(s, polls, sf, i - 1), polls[i - 1];
      VersionedNeverPart(t, u, p, readings, sf);
      LevelMeans(t, u, sf);
      BothLoopsFollow(t, p, sf);
      BothLoopsFollow(u, p, sf);
      CachesVersionStep(t, Step(t, p, sf), p, readings, sf);
      CachesVersionStep(u, StepUncached(u, p, sf), p, readings, sf);
    }
  }

  lemma LevelMeans(s: LoopState, u: LoopState, sf: string)
    requires Level(s, u, sf)
    ensures InStep(s, sf) && InStep(u, sf)
  {}

  lemma VersionedNeverPart(s: LoopState, u: LoopState, p: Poll, readings: map<string, Desired>, sf: string)
    requires Level(s, u, sf) && Versioned([p], readings) && CachesVersion(s, readings)
    ensures !Parts(s, u, p)
  {
    assert [p][0] == p;
  }

  /** When the records are a function of the version, the cache changes nothing but the time of
      the last update: zone, version, cache and flag are those of the loop without it. */
  lemma VersionedRunsAgree(s: LoopState, polls: seq<Poll>, readings: map<string, Desired>, sf: string, i: nat)
    requires CallsCompleteRun(s, polls, sf) && i <= |polls|
    requires Versioned(polls, readings) && CachesVersion(s, readings)
    ensures var t, u := StateAt(s, polls, sf, i), UncachedAt(s, polls, sf, i);
            t == u.(lastUpdated := t.lastUpdated)
  {
    hide StateAt, UncachedAt, PartsAt, InStep, CallsCompleteRun;
    VersionedRunKeepsLevel(s, polls, readings, sf, i);
    LevelUntilTheyPart(s, polls, sf, i);
  }
}
