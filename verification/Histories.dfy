/** Whole histories of attempts: desired maps change from one attempt to the next and any
    attempt may stop anywhere. */
module Histories {
  import opened Records
  import opened Zones
  import opened Planning
  import opened Safety
  import opened Reconciling

  datatype Attempt = Attempt(desired: Desired, outcome: Outcome)

  /** How many calls of the attempt took effect. */
  ghost function Steps(z: Zone, a: Attempt, sf: string): (r: nat)
    ensures r <= |Plan(z, a.desired, sf)|
  {
    var n := |Plan(z, a.desired, sf)|;
    if a.outcome.Succeeded? || n < a.outcome.applied then n else a.outcome.applied
  }

  ghost function ZoneAfter(z: Zone, a: Attempt, sf: string): Zone {
    After(z, a.desired, sf, Steps(z, a, sf))
  }

  /** The zone when attempt i begins. */
  ghost function ZoneAt(z: Zone, h: seq<Attempt>, sf: string, i: nat): Zone
    requires i <= |h|
  {
    if i == 0 then z else ZoneAfter(ZoneAt(z, h, sf, i - 1), h[i - 1], sf)
  }

  ghost predicate SoundHistory(z: Zone, h: seq<Attempt>, sf: string) {
    ZoneOk(z, sf) && forall i | 0 <= i < |h| :: WellFormed(h[i].desired, sf)
  }

  lemma ScriptedAttempt(z: Zone, d: Desired, sf: string, script: seq<Fate>)
    requires Sound(z, d, sf)
    ensures var a, r := Attempt(d, OutcomeOf(z, d, sf, script)), Run(z, Plan(z, d, sf), Later(script));
            if NextFate(script) != Completes then ZoneAfter(z, a, sf) == z
            else ZoneAfter(z, a, sf) == r.zone && r.err == a.outcome.Failed?
  {
    hide Plan;
    var p := Plan(z, d, sf);
    PlanIsAccepted(z, d, sf);
    RunIsPrefix(z, p, Later(script));
    assert p[..|p|] == p;
  }

  /** The reconciler's attempt under any script is one of these attempts, with the outcome the
      script gives it; it reports success exactly then. */
  lemma ReconcilerMakesAttempts(s: Snapshot, d: Desired, sf: string, t: Snapshot, acked: nat, err: bool)
    requires Sound(s.zone, d, sf) && NextFate(s.script) == Completes
    requires Ran(s.(script := Later(s.script)), Plan(s.zone, d, sf), t, acked, err)
    ensures var outcome := OutcomeOf(s.zone, d, sf, s.script);
            && t.zone == ZoneAfter(s.zone, Attempt(d, outcome), sf)
            && err == outcome.Failed?
            && err == !Smooth(Later(s.script), |Plan(s.zone, d, sf)|)
  {
    hide Plan, Run, ZoneAfter;
    ScriptedAttempt(s.zone, d, sf, s.script);
    PlanIsAccepted(s.zone, d, sf);
    RunFailsIff(s.zone, Plan(s.zone, d, sf), Later(s.script));
  }

  lemma {:induction false} ZoneAtExtends(z: Zone, h: seq<Attempt>, a: Attempt, sf: string, i: nat)
    requires i <= |h|
    ensures ZoneAt(z, h + [a], sf, i) == ZoneAt(z, h, sf, i)
    decreases i
  {
    hide ZoneAfter;
    if i > 0 { ZoneAtExtends(z, h, a, sf, i - 1); }
  }

  lemma ZonesStaySound(z: Zone, h: seq<Attempt>, sf: string, i: nat)
    requires SoundHistory(z, h, sf) && i <= |h|
    ensures ZoneOk(ZoneAt(z, h, sf, i), sf)
  {
    if i > 0 {
      ZonesStaySound(z, h, sf, i - 1);
      var y := ZoneAt(z, h, sf, i - 1);
      SoundAfter(y, h[i - 1].desired, sf, Steps(y, h[i - 1], sf));
    }
  }

  lemma SucceededAttempt(z: Zone, a: Attempt, sf: string)
    requires Sound(z, a.desired, sf) && a.outcome.Succeeded?
    ensures ZoneAfter(z, a, sf) == Target(z, a.desired, sf)
  {
    hide Plan;
    CompletedAttemptReachesTarget(z, a.desired, sf);
    assert Plan(z, a.desired, sf)[..|Plan(z, a.desired, sf)|] == Plan(z, a.desired, sf);
  }

  lemma IdleAttempt(z: Zone, a: Attempt, sf: string)
    requires Plan(z, a.desired, sf) == []
    ensures ZoneAfter(z, a, sf) == z
  {
    hide Plan;
  }

  lemma NothingApplied(z: Zone, d: Desired, sf: string)
    ensures ZoneAfter(z, Attempt(d, Failed(0)), sf) == z
  {
    hide Plan;
  }

  /** The attempt put an A record at n, whether or not it then failed. */
  ghost predicate WroteIn(y: Zone, a: Attempt, sf: string, n: string) {
    n in a.desired && Reached(y, a.desired, sf, Steps(y, a, sf), AKey(n))
  }

  ghost predicate Wrote(z: Zone, h: seq<Attempt>, sf: string, i: nat, n: string)
    requires i < |h|
  {
    WroteIn(ZoneAt(z, h, sf, i), h[i], sf, n)
  }

  /** Written by attempt i, which failed, and not desired by any later one that succeeded. */
  ghost predicate Leaked(z: Zone, h: seq<Attempt>, sf: string, i: nat, upTo: nat, n: string)
    requires i < upTo <= |h|
  {
    && h[i].outcome.Failed? && Wrote(z, h, sf, i, n)
    && forall k | i < k < upTo && h[k].outcome.Succeeded? :: n !in h[k].desired
  }

  /** After a completed attempt the state record lists exactly the desired A names. */
  lemma CompletedAttemptLists(z: Zone, a: Attempt, sf: string)
    requires Sound(z, a.desired, sf) && a.outcome.Succeeded?
    ensures Listed(ZoneAfter(z, a, sf), sf) == a.desired.Keys - {sf}
  {
    var d := a.desired;
    var j := |Plan(z, d, sf)|;
    ListedAfter(z, d, sf, j);
    if sf in d {
      DesiredIsPlanned(z, d, sf, sf);
      if PlannedOp(z, d, sf, sf).Some? { ReachedByState(z, d, sf, j, sf); }
    } else if StateKey(sf) in z {
      assert PlannedOp(z, d, sf, sf) == Some(Remove);
      ReachedByState(z, d, sf, j, sf);
    }
  }

  lemma PresentBefore(y: Zone, a: Attempt, sf: string, n: string)
    requires Sound(y, a.desired, sf) && AKey(n) in ZoneAfter(y, a, sf) && !WroteIn(y, a, sf, n)
    ensures AKey(n) in y
  {
    var w := ZoneAfter(y, a, sf);
    AfterLookup(y, a.desired, sf, Steps(y, a, sf), AKey(n));
    assert Lookup(w, AKey(n)) == Some(w[AKey(n)]);
  }

  lemma OwnedAfter(y: Zone, a: Attempt, sf: string, n: string)
    requires Sound(y, a.desired, sf) && Owned(y, sf, n) && AKey(n) in ZoneAfter(y, a, sf)
    ensures Owned(ZoneAfter(y, a, sf), sf, n)
  {
    StartOfAttempt(y, a.desired, sf);
    OwnershipIsKept(y, a.desired, sf, 0, Steps(y, a, sf), n);
  }

  lemma OwnedIfDesired(y: Zone, a: Attempt, sf: string, n: string)
    requires Sound(y, a.desired, sf) && a.outcome.Succeeded?
    requires n in a.desired && AKey(n) in ZoneAfter(y, a, sf)
    ensures Owned(ZoneAfter(y, a, sf), sf, n)
  {
    CompletedAttemptLists(y, a, sf);
    SoundAfter(y, a.desired, sf, Steps(y, a, sf));
  }

  lemma LeakPersists(z: Zone, h: seq<Attempt>, sf: string, m: nat, last: nat, n: string)
    requires m < last < |h| && Leaked(z, h, sf, m, last, n)
    requires !(h[last].outcome.Succeeded? && n in h[last].desired)
    ensures Leaked(z, h, sf, m, last + 1, n)
  {
    hide Wrote;
  }

  /** Leak bound. An A record this service ever wrote that is still present is listed in the
      state record, unless it was written by a failed attempt and no later successful attempt
      desired it. */
  lemma {:induction false} LeakBound(z: Zone, h: seq<Attempt>, sf: string, i: nat, upTo: nat, n: string)
    requires SoundHistory(z, h, sf) && i < upTo <= |h|
    requires Wrote(z, h, sf, i, n) && AKey(n) in ZoneAt(z, h, sf, upTo)
    ensures Owned(ZoneAt(z, h, sf, upTo), sf, n) || exists m | 0 <= m < upTo :: Leaked(z, h, sf, m, upTo, n)
    decreases upTo
  {
    hide Plan;
    var last := upTo - 1;
    var a, y := h[last], ZoneAt(z, h, sf, last);
    ZonesStaySound(z, h, sf, last);
    assert ZoneAt(z, h, sf, upTo) == ZoneAfter(y, a, sf);
    if a.outcome.Succeeded? && n in a.desired {
      OwnedIfDesired(y, a, sf, n);
    } else if WroteIn(y, a, sf, n) {
      assert Leaked(z, h, sf, last, upTo, n);
    } else {
      PresentBefore(y, a, sf, n);
      assert i != last;
      LeakBound(z, h, sf, i, last, n);
      if Owned(y, sf, n) {
        OwnedAfter(y, a, sf, n);
      } else {
        var m :| 0 <= m < last && Leaked(z, h, sf, m, last, n);
        LeakPersists(z, h, sf, m, last, n);
      }
    }
  }

  lemma StartOfAttempt(z: Zone, d: Desired, sf: string)
    ensures After(z, d, sf, 0) == z
  {
    assert Plan(z, d, sf)[..0] == [];
  }

  /** When a written record is listed: from the moment its attempt has written the state record,
      or all along if it was listed before. Until then an interruption leaves it unlisted. */
  lemma WrittenIsListedIff(y: Zone, d: Desired, sf: string, j: nat, n: string)
    requires Sound(y, d, sf) && j <= |Plan(y, d, sf)| && n in d && Reached(y, d, sf, j, AKey(n))
    ensures Owned(After(y, d, sf, j), sf, n) <==> Reached(y, d, sf, j, StateKey(sf)) || n in Listed(y, sf)
  {
    hide Plan;
    var w := After(y, d, sf, j);
    ListedAfter(y, d, sf, j);
    AfterLookup(y, d, sf, j, AKey(n));
    assert Lookup(w, AKey(n)) == if AKey(n) in w then Some(w[AKey(n)]) else None;
  }

  // ---- what a history leaves, key by key ----

  /** The last of the first i attempts that had a call on this key take effect. */
  ghost function LastCall(z: Zone, h: seq<Attempt>, sf: string, i: nat, k: RRKey): (r: Option<nat>)
    requires i <= |h|
    ensures r.Some? ==> r.value < i
  {
    if i == 0 then None
    else if CallsKey(ZoneAt(z, h, sf, i - 1), h[i - 1], sf, k) then Some(i - 1)
    else LastCall(z, h, sf, i - 1, k)
  }

  ghost predicate CallsKey(y: Zone, a: Attempt, sf: string, k: RRKey) {
    Reached(y, a.desired, sf, Steps(y, a, sf), k)
  }

  /** The set a wish asks for under a name, if it asks for one. */
  function WishFor(d: Desired, n: string): Option<RRSet> {
    if n in d then Some(SetOf(d[n].record)) else None
  }

  lemma CallSetsKey(y: Zone, a: Attempt, sf: string, k: RRKey)
    requires Sound(y, a.desired, sf)
    ensures Lookup(ZoneAfter(y, a, sf), k) == if CallsKey(y, a, sf, k) then WishFor(a.desired, k.name) else Lookup(y, k)
    ensures CallsKey(y, a, sf, k) && k.name in a.desired ==> KeyOf(a.desired[k.name].record) == k
  {
    hide Plan;
    AfterLookup(y, a.desired, sf, Steps(y, a, sf), k);
  }

  /** After any history, failures included, a key holds what the last attempt that had a call on
      it take effect wished for under its name, and what it held at first if there is none. */
  lemma {:induction false} HistoryLookup(z: Zone, h: seq<Attempt>, sf: string, i: nat, k: RRKey)
    requires SoundHistory(z, h, sf) && i <= |h|
    ensures Lookup(ZoneAt(z, h, sf, i), k) ==
            match LastCall(z, h, sf, i, k) { case Some(m) => WishFor(h[m].desired, k.name) case None => Lookup(z, k) }
    decreases i
  {
    hide ZoneAfter, CallsKey, WishFor, Lookup;
    if i > 0 {
      HistoryLookup(z, h, sf, i - 1, k);
      ZonesStaySound(z, h, sf, i - 1);
      CallSetsKey(ZoneAt(z, h, sf, i - 1), h[i - 1], sf, k);
    }
  }

  /** The names a history leaves listed: those of the last attempt whose call on the state record
      took effect, and the first ones if there is none. */
  ghost function ListedNames(z: Zone, h: seq<Attempt>, sf: string, i: nat): set<string>
    requires i <= |h|
  {
    match LastCall(z, h, sf, i, StateKey(sf))
    case Some(m) => h[m].desired.Keys - {sf}
    case None => Listed(z, sf)
  }

  lemma {:induction false} ListedByHistory(z: Zone, h: seq<Attempt>, sf: string, i: nat)
    requires SoundHistory(z, h, sf) && i <= |h|
    ensures Listed(ZoneAt(z, h, sf, i), sf) == ListedNames(z, h, sf, i)
    decreases i
  {
    hide Plan, Reached, After, Listed;
    if i > 0 {
      ListedByHistory(z, h, sf, i - 1);
      ZonesStaySound(z, h, sf, i - 1);
      var y := ZoneAt(z, h, sf, i - 1);
      ListedAfter(y, h[i - 1].desired, sf, Steps(y, h[i - 1], sf));
    }
  }

  /** Over histories, exactly: an A record that is present is listed if and only if the last
      attempt to reach the state record desired its name, or, when none did, it was listed at
      first. What this leaves out is what LeakBound allows. */
  lemma PresentIsListedIff(z: Zone, h: seq<Attempt>, sf: string, i: nat, n: string)
    requires SoundHistory(z, h, sf) && i <= |h| && AKey(n) in ZoneAt(z, h, sf, i)
    ensures Owned(ZoneAt(z, h, sf, i), sf, n) <==>
            match LastCall(z, h, sf, i, StateKey(sf)) { case Some(m) => n in h[m].desired case None => n in Listed(z, sf) }
  {
    hide LastCall, ZoneAt, Listed;
    ListedByHistory(z, h, sf, i);
    ZonesStaySound(z, h, sf, i);
  }

  /** With no failures everything this service wrote that still exists is listed, after every
      attempt. */
  lemma NothingLeaksWithoutFailure(z: Zone, h: seq<Attempt>, sf: string, upTo: nat, n: string)
    requires SoundHistory(z, h, sf) && upTo <= |h|
    requires forall k | 0 <= k < upTo :: h[k].outcome.Succeeded?
    requires AKey(n) in ZoneAt(z, h, sf, upTo) && exists i :: 0 <= i < upTo && Wrote(z, h, sf, i, n)
    ensures Owned(ZoneAt(z, h, sf, upTo), sf, n)
  {
    var i :| 0 <= i < upTo && Wrote(z, h, sf, i, n);
    LeakBound(z, h, sf, i, upTo, n);
  }

  /** Ownership across attempts: an A record listed at any moment (attempt i after j calls) is
      listed at every later moment, failed attempts included, for as long as it exists. */
  lemma {:induction false} OwnershipLasts(z: Zone, h: seq<Attempt>, sf: string, n: string, i: nat, j: nat, i': nat, j': nat)
    requires SoundHistory(z, h, sf) && i <= i' < |h|
    requires j <= Steps(ZoneAt(z, h, sf, i), h[i], sf) && j' <= Steps(ZoneAt(z, h, sf, i'), h[i'], sf)
    requires i == i' ==> j <= j'
    requires Owned(After(ZoneAt(z, h, sf, i), h[i].desired, sf, j), sf, n)
    requires forall k | i < k <= i' :: AKey(n) in ZoneAt(z, h, sf, k)
    requires AKey(n) in After(ZoneAt(z, h, sf, i'), h[i'].desired, sf, j')
    ensures Owned(After(ZoneAt(z, h, sf, i'), h[i'].desired, sf, j'), sf, n)
    decreases i' - i
  {
    hide Plan;
    var y := ZoneAt(z, h, sf, i);
    ZonesStaySound(z, h, sf, i);
    if i == i' {
      OwnershipIsKept(y, h[i].desired, sf, j, j', n);
    } else {
      assert AKey(n) in ZoneAt(z, h, sf, i + 1) && ZoneAt(z, h, sf, i + 1) == ZoneAfter(y, h[i], sf);
      OwnershipIsKept(y, h[i].desired, sf, j, Steps(y, h[i], sf), n);
      StartOfAttempt(ZoneAt(z, h, sf, i + 1), h[i + 1].desired, sf);
      OwnershipLasts(z, h, sf, n, i + 1, 0, i', j');
    }
  }
}
