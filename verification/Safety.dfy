/** What holds at every point of one reconciliation attempt, however it is cut short, and
    what holds when it finishes. `j` is the number of calls that have taken effect. */
module Safety {
  import opened Records
  import opened Zones
  import opened Planning

  ghost predicate Sound(z: Zone, d: Desired, sf: string) {
    ZoneOk(z, sf) && WellFormed(d, sf)
  }

  /** The zone after the first j calls of the attempt. */
  ghost function After(z: Zone, d: Desired, sf: string, j: nat): Zone
    requires j <= |Plan(z, d, sf)|
  {
    ApplyAll(z, Plan(z, d, sf)[..j])
  }

  /** One of the first j calls names this key. */
  ghost predicate Reached(z: Zone, d: Desired, sf: string, j: nat, k: RRKey)
    requires j <= |Plan(z, d, sf)|
  {
    exists i :: 0 <= i < j && KeyOf(Plan(z, d, sf)[i].record) == k
  }

  lemma PlannedAt(z: Zone, d: Desired, sf: string, i: nat)
    requires Sound(z, d, sf) && i < |Plan(z, d, sf)|
    ensures IsPlanned(z, d, sf, Plan(z, d, sf)[i])
  {
    hide Plan;
    PlanMembers(z, d, sf, Plan(z, d, sf)[i]);
  }

  /** Every name is called at most once in an attempt. */
  lemma OneCallPerName(z: Zone, d: Desired, sf: string, i: nat, j: nat)
    requires Sound(z, d, sf) && i < j < |Plan(z, d, sf)|
    ensures Plan(z, d, sf)[i].record.fqdn != Plan(z, d, sf)[j].record.fqdn
  {
    hide Plan;
    PlannedAt(z, d, sf, i);
    PlannedAt(z, d, sf, j);
    PlanAscends(z, d, sf);
    var p := Plan(z, d, sf);
    assert CallOrder()(p[i], p[j]);
    CallLessIsStrict(p[i], p[j]);
  }

  /** The state record's call comes after every call of its own and of earlier phases. */
  lemma StateCallComesLast(z: Zone, d: Desired, sf: string, i: nat, m: nat)
    requires Sound(z, d, sf) && i < m < |Plan(z, d, sf)| && Plan(z, d, sf)[i].record.fqdn == sf
    ensures Rank(Plan(z, d, sf)[i].op) < Rank(Plan(z, d, sf)[m].op)
  {
    hide Plan;
    PlannedAt(z, d, sf, i);
    PlannedAt(z, d, sf, m);
    OneCallPerName(z, d, sf, i, m);
    PlanAscends(z, d, sf);
    assert CallOrder()(Plan(z, d, sf)[i], Plan(z, d, sf)[m]);
  }

  /** The zone in mid-attempt, key by key. */
  lemma AfterLookup(z: Zone, d: Desired, sf: string, j: nat, k: RRKey)
    requires Sound(z, d, sf) && j <= |Plan(z, d, sf)|
    ensures Reached(z, d, sf, j, k) ==>
              && PlannedOp(z, d, sf, k.name).Some?
              && KeyOf(PlannedCall(z, d, sf, k.name).record) == k
              && Lookup(After(z, d, sf, j), k) == Effect(PlannedCall(z, d, sf, k.name))
    ensures !Reached(z, d, sf, j, k) ==> Lookup(After(z, d, sf, j), k) == Lookup(z, k)
  {
    hide Plan;
    var p := Plan(z, d, sf);
    var q := p[..j];
    if Reached(z, d, sf, j, k) {
      var i :| 0 <= i < j && KeyOf(p[i].record) == k;
      PlannedAt(z, d, sf, i);
      forall m | i < m < |q| ensures KeyOf(q[m].record) != KeyOf(q[i].record) {
        OneCallPerName(z, d, sf, i, m);
      }
      Touched(z, q, i);
    } else {
      Untouched(z, q, k);
    }
  }

  lemma ReachedByState(z: Zone, d: Desired, sf: string, j: nat, n: string)
    requires Sound(z, d, sf) && j <= |Plan(z, d, sf)| && PlannedOp(z, d, sf, n).Some?
    requires j == |Plan(z, d, sf)| ||
             (Reached(z, d, sf, j, StateKey(sf)) && PlannedOp(z, d, sf, sf).Some? &&
              Rank(PlannedOp(z, d, sf, n).value) <= Rank(PlannedOp(z, d, sf, sf).value))
    ensures Reached(z, d, sf, j, KeyOf(PlannedCall(z, d, sf, n).record))
  {
    hide Plan;
    var p := Plan(z, d, sf);
    var c := PlannedCall(z, d, sf, n);
    assert c.record.fqdn == n;
    PlanMembers(z, d, sf, c);
    var m :| 0 <= m < |p| && p[m] == c;
    if j <= m {
      var i :| 0 <= i < j && KeyOf(p[i].record) == StateKey(sf);
      PlannedAt(z, d, sf, i);
      StateCallComesLast(z, d, sf, i, m);
    }
  }

  /** Before its call the state record lists what it did; after it, exactly the desired names. */
  lemma ListedAfter(z: Zone, d: Desired, sf: string, j: nat)
    requires Sound(z, d, sf) && j <= |Plan(z, d, sf)|
    ensures Listed(After(z, d, sf, j), sf) ==
            if Reached(z, d, sf, j, StateKey(sf)) then d.Keys - {sf} else Listed(z, sf)
  {
    hide Plan;
    var k := StateKey(sf);
    AfterLookup(z, d, sf, j, k);
    var y := After(z, d, sf, j);
    assert Lookup(y, k) == if k in y then Some(y[k]) else None;
    if Reached(z, d, sf, j, k) && sf !in d {
      assert d == map[];
    }
  }

  /** Every call of an attempt is one the server takes: no upsert is empty and every removal
      names the set the zone holds at that moment. */
  lemma PlanIsAccepted(z: Zone, d: Desired, sf: string)
    requires Sound(z, d, sf)
    ensures AllAccepted(z, Plan(z, d, sf))
  {
    hide Plan;
    var p := Plan(z, d, sf);
    forall i | 0 <= i < |p| ensures Accepts(ApplyAll(z, p[..i]), p[i]) {
      PlannedAt(z, d, sf, i);
      var k := KeyOf(p[i].record);
      forall m | 0 <= m < i ensures KeyOf(p[m].record) != k { OneCallPerName(z, d, sf, m, i); }
      assert !Reached(z, d, sf, i, k);
      AfterLookup(z, d, sf, i, k);
      var y := After(z, d, sf, i);
      assert Lookup(y, k) == Lookup(z, k);
    }
  }

  /** The premises of the next attempt survive every interruption of this one. */
  lemma SoundAfter(z: Zone, d: Desired, sf: string, j: nat)
    requires Sound(z, d, sf) && j <= |Plan(z, d, sf)|
    ensures ZoneOk(After(z, d, sf, j), sf)
  {
    hide Plan;
    var y := After(z, d, sf, j);
    AfterLookup(z, d, sf, j, AKey(sf));
    assert Lookup(y, AKey(sf)).None?;
    forall k | k in y ensures y[k].values != [] {
      AfterLookup(z, d, sf, j, k);
      assert Lookup(y, k) == Some(y[k]);
    }
  }

  lemma DroppedIsPlanned(z: Zone, d: Desired, sf: string, k: RRKey)
    requires Sound(z, d, sf)
    ensures (Dropped(z, d, sf, k) && k in z) <==>
            (PlannedOp(z, d, sf, k.name) == Some(Remove) && KeyOf(PlannedCall(z, d, sf, k.name).record) == k)
  {}

  lemma DesiredIsPlanned(z: Zone, d: Desired, sf: string, n: string)
    requires Sound(z, d, sf) && n in d
    ensures PlannedOp(z, d, sf, n).Some? <==> !Holds(z, d[n].record)
    ensures PlannedOp(z, d, sf, n).Some? ==> PlannedCall(z, d, sf, n).record == d[n].record
    ensures PlannedOp(z, d, sf, n) != Some(Remove)
  {
    hide Plan;
  }

  /** What the target looks like from anywhere inside the attempt: the same. */
  lemma TargetAtAfter(z: Zone, d: Desired, sf: string, j: nat, k: RRKey)
    requires Sound(z, d, sf) && j <= |Plan(z, d, sf)|
    ensures TargetAt(After(z, d, sf, j), d, sf, k) == TargetAt(z, d, sf, k)
  {
    hide Plan;
    var y := After(z, d, sf, j);
    AfterLookup(z, d, sf, j, k);
    assert Lookup(y, k) == (if k in y then Some(y[k]) else None) && Lookup(z, k) == (if k in z then Some(z[k]) else None);
    if k.name in d && KeyOf(d[k.name].record) == k {
      DesiredIsPlanned(z, d, sf, k.name);
    } else {
      ListedAfter(z, d, sf, j);
      DroppedIsPlanned(z, d, sf, k);
      if Dropped(z, d, sf, k) && k in z && Reached(z, d, sf, j, StateKey(sf)) {
        AfterLookup(z, d, sf, j, StateKey(sf));
        ReachedByState(z, d, sf, j, k.name);
      }
      if Reached(z, d, sf, j, k) {
        AfterLookup(z, d, sf, j, k);
      }
    }
  }

  /** A completed attempt leaves exactly the target: desired values in place, owned records no
      longer desired gone, the state record listing exactly the desired names (absent when
      there are none), every other set untouched. */
  lemma CompletedAttemptReachesTarget(z: Zone, d: Desired, sf: string)
    requires Sound(z, d, sf)
    ensures ApplyAll(z, Plan(z, d, sf)) == Target(z, d, sf)
  {
    hide Plan;
    var j := |Plan(z, d, sf)|;
    assert Plan(z, d, sf)[..j] == Plan(z, d, sf);
    forall k ensures Lookup(After(z, d, sf, j), k) == Lookup(Target(z, d, sf), k) {
      TargetLookup(z, d, sf, k);
      AfterLookup(z, d, sf, j, k);
      if k.name in d && KeyOf(d[k.name].record) == k {
        DesiredIsPlanned(z, d, sf, k.name);
        if PlannedOp(z, d, sf, k.name).Some? { ReachedByState(z, d, sf, j, k.name); }
      } else {
        DroppedIsPlanned(z, d, sf, k);
        if Dropped(z, d, sf, k) && k in z { ReachedByState(z, d, sf, j, k.name); }
      }
    }
    ZonesEqual(After(z, d, sf, j), Target(z, d, sf));
  }

  /** The zone a completed attempt leaves, set by set. */
  lemma CompletedAttemptInFields(z: Zone, d: Desired, sf: string, k: RRKey)
    requires Sound(z, d, sf)
    ensures var y, state := ApplyAll(z, Plan(z, d, sf)), RRKey(sf, "TXT");
            if k.name in d && k.rtype == d[k.name].record.rtype then
              var r := d[k.name].record;
              k in y && y[k] == if k in z && forall v :: v in z[k].values <==> v in r.records then z[k] else RRSet(r.records, r.ttl)
            else if k.name !in d && (k == state || (k.rtype == "A" && state in z && k.name in z[state].values)) then k !in y
            else (k in y <==> k in z) && (k in z ==> y[k] == z[k])
  {
    hide Plan, Target;
    CompletedAttemptReachesTarget(z, d, sf);
    TargetLookup(z, d, sf, k);
    var y := Target(z, d, sf);
    assert Lookup(y, k) == (if k in y then Some(y[k]) else None) && Lookup(z, k) == (if k in z then Some(z[k]) else None);
    if k in z && k.name in d { ValueSetsDifferIff(z[k].values, d[k.name].record.records); }
  }

  /** Wherever an attempt stops, what it aims for has not moved. */
  lemma TargetIsStable(z: Zone, d: Desired, sf: string, j: nat)
    requires Sound(z, d, sf) && j <= |Plan(z, d, sf)|
    ensures Target(After(z, d, sf, j), d, sf) == Target(z, d, sf)
  {
    hide Plan, TargetAt;
    var y := After(z, d, sf, j);
    forall k ensures Lookup(Target(y, d, sf), k) == Lookup(Target(z, d, sf), k) {
      TargetAtAfter(z, d, sf, j, k);
      TargetLookup(y, d, sf, k);
      TargetLookup(z, d, sf, k);
    }
    ZonesEqual(Target(y, d, sf), Target(z, d, sf));
  }

  /** Failure-resume confluence. From wherever an attempt stopped, a completed rerun ends in the
      very zone, values and TTLs, that an undisturbed run would have left. */
  lemma ResumeIsConfluent(z: Zone, d: Desired, sf: string, j: nat)
    requires Sound(z, d, sf) && j <= |Plan(z, d, sf)|
    ensures ApplyAll(After(z, d, sf, j), Plan(After(z, d, sf, j), d, sf)) == ApplyAll(z, Plan(z, d, sf))
  {
    hide Plan, Target;
    var y := After(z, d, sf, j);
    SoundAfter(z, d, sf, j);
    TargetIsStable(z, d, sf, j);
    CompletedAttemptReachesTarget(y, d, sf);
    CompletedAttemptReachesTarget(z, d, sf);
  }

  /** Every desired record is there with the desired values and nothing is due for removal. */
  ghost predicate InSync(z: Zone, d: Desired, sf: string) {
    && (forall n | n in d :: Holds(z, d[n].record))
    && (forall k | k in z :: !Dropped(z, d, sf, k))
  }

  /** An attempt issues no call exactly when the zone is in sync. */
  lemma NothingToDoIff(z: Zone, d: Desired, sf: string)
    requires Sound(z, d, sf)
    ensures Plan(z, d, sf) == [] <==> InSync(z, d, sf)
  {
    hide Plan;
    var p := Plan(z, d, sf);
    if InSync(z, d, sf) {
      if p != [] {
        PlannedAt(z, d, sf, 0);
        var n := p[0].record.fqdn;
        if n in d { DesiredIsPlanned(z, d, sf, n); } else { DroppedIsPlanned(z, d, sf, KeyOf(p[0].record)); }
        assert false;
      }
    } else if exists n :: n in d && !Holds(z, d[n].record) {
      var n :| n in d && !Holds(z, d[n].record);
      DesiredIsPlanned(z, d, sf, n);
      PlanMembers(z, d, sf, PlannedCall(z, d, sf, n));
    } else {
      var k :| k in z && Dropped(z, d, sf, k);
      DroppedIsPlanned(z, d, sf, k);
      PlanMembers(z, d, sf, PlannedCall(z, d, sf, k.name));
    }
  }

  /** A zone that is its own target is in sync. */
  lemma OwnTargetIsInSync(z: Zone, d: Desired, sf: string)
    requires WellFormed(d, sf) && Target(z, d, sf) == z
    ensures InSync(z, d, sf)
  {
    forall n | n in d ensures Holds(z, d[n].record) { TargetLookup(z, d, sf, KeyOf(d[n].record)); }
    forall k | k in z ensures !Dropped(z, d, sf, k) { TargetLookup(z, d, sf, k); }
  }

  /** Fixed point: after a completed attempt the same wishes ask for no call at all. */
  lemma TargetIsInSync(z: Zone, d: Desired, sf: string)
    requires Sound(z, d, sf)
    ensures Sound(Target(z, d, sf), d, sf) && InSync(Target(z, d, sf), d, sf)
    ensures Plan(Target(z, d, sf), d, sf) == []
  {
    hide Plan;
    var j := |Plan(z, d, sf)|;
    var y := Target(z, d, sf);
    assert Plan(z, d, sf)[..j] == Plan(z, d, sf);
    CompletedAttemptReachesTarget(z, d, sf);
    SoundAfter(z, d, sf, j);
    TargetIsStable(z, d, sf, j);
    OwnTargetIsInSync(y, d, sf);
    NothingToDoIff(y, d, sf);
  }

  /** In sync, an attempt's target is the zone as it is. */
  lemma InSyncIsOwnTarget(z: Zone, d: Desired, sf: string)
    requires Sound(z, d, sf) && InSync(z, d, sf)
    ensures Target(z, d, sf) == z
  {
    hide Plan;
    NothingToDoIff(z, d, sf);
    CompletedAttemptReachesTarget(z, d, sf);
  }

  /** Ownership is never lost inside an attempt: an A record listed at one point is listed at
      every later point at which it still exists. */
  lemma OwnershipIsKept(z: Zone, d: Desired, sf: string, i: nat, j: nat, n: string)
    requires Sound(z, d, sf) && i <= j <= |Plan(z, d, sf)|
    requires Owned(After(z, d, sf, i), sf, n) && AKey(n) in After(z, d, sf, j)
    ensures Owned(After(z, d, sf, j), sf, n)
  {
    hide Plan;
    ListedAfter(z, d, sf, i);
    ListedAfter(z, d, sf, j);
    SoundAfter(z, d, sf, i);
    AfterLookup(z, d, sf, i, AKey(n));
    AfterLookup(z, d, sf, j, AKey(n));
    var s := StateKey(sf);
    if Reached(z, d, sf, j, s) && !Reached(z, d, sf, i, s) && n !in d {
      var y := After(z, d, sf, i);
      assert Lookup(y, AKey(n)) == Some(y[AKey(n)]);
      assert Owned(z, sf, n);
      AfterLookup(z, d, sf, j, s);
      ReachedByState(z, d, sf, j, n);
      assert false;
    }
  }

  /** No name is claimed before its record exists: whatever the state record newly lists at any
      point of an attempt has an A record in the zone at that point. */
  lemma ClaimsExist(z: Zone, d: Desired, sf: string, j: nat, n: string)
    requires Sound(z, d, sf) && j <= |Plan(z, d, sf)|
    requires n in Listed(After(z, d, sf, j), sf) && n !in Listed(z, sf)
    ensures n in d && AKey(n) in After(z, d, sf, j)
  {
    hide Plan;
    var y := After(z, d, sf, j);
    ListedAfter(z, d, sf, j);
    AfterLookup(z, d, sf, j, StateKey(sf));
    AfterLookup(z, d, sf, j, AKey(n));
    DesiredIsPlanned(z, d, sf, n);
    DesiredIsPlanned(z, d, sf, sf);
    assert Lookup(y, AKey(n)) == if AKey(n) in y then Some(y[AKey(n)]) else None;
    if PlannedOp(z, d, sf, n) == Some(Add) {
      ReachedByState(z, d, sf, j, n);
    }
  }

  /** The TTL of a desired record is not compared: a set that differs from the wish only in
      its TTL or in the order of its values is left as it is, for good. */
  lemma TtlIsNotReconciled(z: Zone, d: Desired, sf: string, n: string)
    requires Sound(z, d, sf) && n in d && Holds(z, d[n].record)
    ensures KeyOf(d[n].record) in Target(z, d, sf)
    ensures Target(z, d, sf)[KeyOf(d[n].record)] == z[KeyOf(d[n].record)]
    ensures forall c | c in Plan(z, d, sf) :: c.record.fqdn != n
  {
    hide Plan;
    DesiredIsPlanned(z, d, sf, n);
    TargetLookup(z, d, sf, KeyOf(d[n].record));
    forall c | c in Plan(z, d, sf) ensures c.record.fqdn != n { PlanMembers(z, d, sf, c); }
  }
}
