/** How long a zone that is wrong can stay wrong while nothing fails: which rounds make an attempt,
    and which runs never do. */
module Healing {
  import opened Records
  import opened Zones
  import opened Planning
  import opened Safety
  import opened Histories
  import opened Polling
  import opened Caching

  /** The version the loop holds after k rounds. */
  function LastSeen(s: LoopState, polls: seq<Poll>, k: nat): string
    requires k <= |polls|
  {
    if k == 0 then s.currentVersion
    else if polls[k - 1].version.Some? then polls[k - 1].version.value
    else LastSeen(s, polls, k - 1)
  }

  /** Read from the inputs alone: in round k the cache does not hold the loop back, provided that
      no attempt was made before. */
  predicate Triggers(s: LoopState, polls: seq<Poll>, d: Desired, k: nat)
    requires k < |polls|
  {
    && polls[k].version.Some? && polls[k].metadata.Some?
    && if polls[k].version.value != LastSeen(s, polls, k) then !s.hasSynchronized || s.cached != d
       else polls[k].now - s.lastUpdated >= 60 * 1_000_000_000
  }

  predicate Triggered(s: LoopState, polls: seq<Poll>, d: Desired, i: nat)
    requires i <= |polls|
  {
    exists k :: 0 <= k < i && Triggers(s, polls, d, k)
  }

  /** Whatever records are read are d, and every provider call completes. */
  ghost predicate Calm(polls: seq<Poll>, d: Desired) {
    forall i | 0 <= i < |polls| ::
      CallsComplete(polls[i]) && (polls[i].metadata.Some? ==> polls[i].metadata.value == d)
  }

  lemma CalmStep(t: LoopState, p: Poll, d: Desired, sf: string)
    requires Sound(t.zone, d, sf) && Calm([p], d)
    ensures Step(t, p, sf).zone == if Attempts(t, p) then Target(t.zone, d, sf) else t.zone
  {
    hide Attempted, Target;
    assert [p][0] == p;
    if Attempts(t, p) { FavourableRound(t, p, sf); }
  }

  lemma CalmRound(polls: seq<Poll>, d: Desired, k: nat)
    requires Calm(polls, d) && k < |polls|
    ensures Calm([polls[k]], d)
  {}

  lemma TriggersIsAttempts(s: LoopState, polls: seq<Poll>, d: Desired, k: nat)
    requires Calm(polls, d) && k < |polls|
    ensures Triggers(s, polls, d, k) <==> Attempts(s.(currentVersion := LastSeen(s, polls, k)), polls[k])
  {}

  /** Nothing is touched before the first round that triggers, and from then on the zone is the
      target for good. */
  lemma {:induction false} CalmRun(s: LoopState, polls: seq<Poll>, d: Desired, sf: string, i: nat)
    requires Sound(s.zone, d, sf) && Calm(polls, d) && i <= |polls|
    ensures if Triggered(s, polls, d, i) then StateAt(s, polls, sf, i).zone == Target(s.zone, d, sf)
            else StateAt(s, polls, sf, i) == s.(currentVersion := LastSeen(s, polls, i))
    decreases i
  {
    hide Plan, Target, InSync, AttemptSucceeds, ZoneAfter, Attempted, Triggers, Attempts, Calm;
    if i > 0 {
      assert Calm([polls[i - 1]], d) by { CalmRound(polls, d, i - 1); }
      CalmRun(s, polls, d, sf, i - 1);
      var t, p := StateAt(s, polls, sf, i - 1), polls[i - 1];
      TargetIsInSync(s.zone, d, sf);
      CalmStep(t, p, d, sf);
      if Triggered(s, polls, d, i - 1) {
        InSyncIsOwnTarget(t.zone, d, sf);
      } else {
        TriggersIsAttempts(s, polls, d, i - 1);
      }
    }
  }

  /** When a zone heals, exactly. From any state, while the records read are d and all calls
      complete: after i rounds the zone is what an attempt for d would leave if and only if it
      already was, or some round saw a new version with wishes the cache does not hold, or the
      same version one minute or more after the last successful update. */
  lemma HealsIff(s: LoopState, polls: seq<Poll>, d: Desired, sf: string, i: nat)
    requires Sound(s.zone, d, sf) && Calm(polls, d) && i <= |polls|
    ensures StateAt(s, polls, sf, i).zone == Target(s.zone, d, sf) <==>
            s.zone == Target(s.zone, d, sf) || Triggered(s, polls, d, i)
  {
    hide Target, StateAt, Triggered;
    CalmRun(s, polls, d, sf, i);
  }

  /** Healing bound: while the version stays put, the zone is right from the first round that reads
      the records one minute or more after the last successful update. */
  lemma HealsWithinAMinute(s: LoopState, polls: seq<Poll>, v: string, d: Desired, sf: string, k: nat, i: nat)
    requires Sound(s.zone, d, sf) && Calm(polls, d)
    requires forall m | 0 <= m < |polls| :: polls[m].version == Some(v) && polls[m].metadata.Some?
    requires k < |polls| && polls[k].now - s.lastUpdated >= 60 * 1_000_000_000 && (k > 0 || s.currentVersion == v)
    requires k < i <= |polls|
    ensures StateAt(s, polls, sf, i).zone == Target(s.zone, d, sf)
    ensures Plan(StateAt(s, polls, sf, i).zone, d, sf) == []
  {
    hide Plan, StateAt, Target, InSync, Calm;
    assert LastSeen(s, polls, k) == v;
    assert Triggers(s, polls, d, k);
    CalmRun(s, polls, d, sf, i);
    TargetIsInSync(s.zone, d, sf);
  }

  /** The forced update can starve: while every round sees a new version and the records stay
      equal to the cached ones, the zone is never touched, however much time passes. */
  lemma {:induction false} ChangingVersionsStarveTheForcedUpdate(s: LoopState, polls: seq<Poll>, sf: string, i: nat)
    requires s.hasSynchronized && i <= |polls|
    requires forall k | 0 <= k < |polls| :: polls[k].version.Some? && polls[k].metadata == Some(s.cached)
    requires forall k | 0 <= k < |polls| :: polls[k].version.value != LastSeen(s, polls, k)
    ensures StateAt(s, polls, sf, i) == s.(currentVersion := LastSeen(s, polls, i))
    decreases i
  {
    hide ZoneAfter, AttemptOf, AttemptSucceeds;
    if i > 0 {
      ChangingVersionsStarveTheForcedUpdate(s, polls, sf, i - 1);
      var t, p := StateAt(s, polls, sf, i - 1), polls[i - 1];
      assert p.version.value != LastSeen(s, polls, i - 1);
      assert VersionChanged(t, p) && !Attempts(t, p);
    }
  }
}
