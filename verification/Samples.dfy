/** Concrete runs showing that the conditions of the general results are needed. */
module Samples {
  import opened Records
  import opened Zones
  import opened Planning
  import opened Safety
  import opened Reconciling
  import opened Histories
  import opened Polling
  import opened Caching
  import opened Healing

  function SampleWishes(address: string): Desired {
    map["a." := MetadataDnsRecord("web", "shop", DnsRecord("a.", [address], "A", 300)),
        "s." := MetadataDnsRecord("", "", DnsRecord("s.", ["a."], "TXT", 300))]
  }

  function SampleZone(): Zone {
    map[AKey("a.") := RRSet(["1"], 300), StateKey("s.") := RRSet(["a."], 300)]
  }

  /** Why the cache needs a failure-free stretch: an update takes effect but its reply is lost,
      the wishes flip back to the cached ones, and the next round skips a zone that is wrong. */
  lemma FlipBackExample()
    ensures var s := LoopState("1", 0, true, SampleWishes("1"), SampleZone());
            var polls := [Poll(Some("2"), 0, Some(SampleWishes("2")), [Completes, LostReply], 0),
                          Poll(Some("3"), 0, Some(SampleWishes("1")), [], 0)];
            && SoundRun(s, polls, "s.") && InSync(s.zone, s.cached, "s.")
            && Skips(StateAt(s, polls, "s.", 1), polls[1])
            && Plan(StateAt(s, polls, "s.", 1).zone, SampleWishes("1"), "s.") != []
  {
    hide Plan, Step, InSync, After, SampleZone, SampleWishes, WellFormed;
    var z, past, wish := SampleZone(), SampleWishes("1"), SampleWishes("2");
    SampleIsSound("1");
    SampleIsSound("2");
    SampleUpdateIsPlanned();
    var p := Plan(z, wish, "s.");
    var s := LoopState("1", 0, true, past, z);
    var polls := [Poll(Some("2"), 0, Some(wish), [Completes, LostReply], 0), Poll(Some("3"), 0, Some(past), [], 0)];
    ListedInSync(z, past, "s.");
    LostReplyOnFirstCall(s, polls[0], wish, "s.");
    assert StateAt(s, polls, "s.", 0) == s;
    assert StateAt(s, polls, "s.", 1) == Step(s, polls[0], "s.");
    PlannedAt(z, wish, "s.", 0);
    assert p[0].record.fqdn in past.Keys + {"s."};
    OneFlipBackIsHarmlessIff(z, past, wish, "s.", 1);
  }

  const HALF_MINUTE: int := MINUTE / 2

  /** Version 1 brings the wishes "1"; version 2 brings the same and, at the next round, "2". */
  function CacheCostPolls(): seq<Poll> {
    [Poll(Some("1"), 0, Some(SampleWishes("1")), [], 0),
     Poll(Some("2"), HALF_MINUTE, Some(SampleWishes("1")), [], HALF_MINUTE),
     Poll(Some("2"), MINUTE, Some(SampleWishes("2")), [], MINUTE)]
  }

  /** Why the cache is not free when the records change within a version. The loop without it
      writes at half a minute, so its forced update is not due at one minute; the cached loop's
      is, and only the cached loop sees the new wishes. */
  lemma CacheCostExample()
    ensures var s, polls := LoopState("0", 0, false, map[], SampleZone()), CacheCostPolls();
            && CallsCompleteRun(s, polls, "s.")
            && StateAt(s, polls, "s.", 3).zone != UncachedAt(s, polls, "s.", 3).zone
  {
    hide InSync, SampleZone, SampleWishes, WellFormed, Target, Attempted, Attempts, SameValues, StateAt, UncachedAt;
    var s, polls := LoopState("0", 0, false, map[], SampleZone()), CacheCostPolls();
    SampleIsSound("1");
    SampleIsSound("2");
    TwoRounds(s, polls);
    WishesDiffer();
    assert !PartsAt(s, polls, "s.", 0) && !PartsAt(s, polls, "s.", 1) && PartsAt(s, polls, "s.", 2);
    PartingShows(s, polls, "s.", 2);
  }

  lemma TwoRounds(s: LoopState, polls: seq<Poll>)
    requires s == LoopState("0", 0, false, map[], SampleZone()) && polls == CacheCostPolls()
    ensures StateAt(s, polls, "s.", 0) == UncachedAt(s, polls, "s.", 0) == s
    ensures StateAt(s, polls, "s.", 1) == UncachedAt(s, polls, "s.", 1) == LoopState("1", 0, true, SampleWishes("1"), SampleZone())
    ensures StateAt(s, polls, "s.", 2) == LoopState("2", 0, true, SampleWishes("1"), SampleZone())
    ensures UncachedAt(s, polls, "s.", 2) == LoopState("2", HALF_MINUTE, true, SampleWishes("1"), SampleZone())
  {
    hide InSync, SampleZone, SampleWishes, WellFormed, Target, Attempted;
    SampleIsSound("1");
    InSyncIsOwnTarget(SampleZone(), SampleWishes("1"), "s.");
    FavourableRound(s, polls[0], "s.");
    var t := LoopState("1", 0, true, SampleWishes("1"), SampleZone());
    assert "0" != "1" && "1" != "2" by { assert "0"[0] != "1"[0] && "1"[0] != "2"[0]; }
    FavourableRound(t, polls[1], "s.");
    assert Step(t, polls[1], "s.") == t.(currentVersion := "2");
  }

  lemma WishesDiffer()
    ensures !SameValues(SampleWishes("2"), SampleWishes("1"))
  {
    assert "a." in SampleWishes("2") && "2" in ValueSet(SampleWishes("2")["a."].record.records);
    assert "2" !in ValueSet(SampleWishes("1")["a."].record.records) by { assert "2"[0] != "1"[0]; }
    assert !AgreeAt(SampleWishes("2"), SampleWishes("1"), "a.");
  }

  /** A round a minute, the version going back and forth, the wishes always "1". */
  function FlappingPolls(n: nat): seq<Poll> {
    seq(n, i requires 0 <= i < n =>
      Poll(Some(if i % 2 == 0 then "1" else "0"), (i + 1) * MINUTE, Some(SampleWishes("1")), [], (i + 1) * MINUTE))
  }

  /** Starvation in numbers: for however many minutes, a zone that holds the wrong address while
      the cache holds the right one stays as it is, though nothing ever fails. */
  lemma StarvedExample(n: nat)
    ensures var s, polls := LoopState("0", 0, true, SampleWishes("1"), WrongZone()), FlappingPolls(n);
            && Sound(s.zone, s.cached, "s.") && Calm(polls, s.cached)
            && StateAt(s, polls, "s.", n).zone == s.zone && Plan(s.zone, s.cached, "s.") != []
  {
    hide Plan, SampleWishes, WrongZone, WellFormed, StateAt;
    var s, polls := LoopState("0", 0, true, SampleWishes("1"), WrongZone()), FlappingPolls(n);
    WrongZoneIsWrong();
    assert "0" != "1" by { assert "0"[0] != "1"[0]; }
    ChangingVersionsStarveTheForcedUpdate(s, polls, "s.", n);
  }

  function WrongZone(): Zone {
    SampleZone()[AKey("a.") := RRSet(["2"], 300)]
  }

  lemma WrongZoneIsWrong()
    ensures Sound(WrongZone(), SampleWishes("1"), "s.") && Plan(WrongZone(), SampleWishes("1"), "s.") != []
  {
    hide Plan;
    SampleIsSound("1");
    assert "2" in ValueSet(["2"]) && "2" !in ValueSet(["1"]) by { assert "1"[0] != "2"[0]; }
    assert "a." != "s." by { assert "a."[0] != "s."[0]; }
    assert !Holds(WrongZone(), SampleWishes("1")["a."].record);
    NothingToDoIff(WrongZone(), SampleWishes("1"), "s.");
  }

  lemma LostReplyOnFirstCall(s: LoopState, p: Poll, d: Desired, sf: string)
    requires Sound(s.zone, d, sf) && Plan(s.zone, d, sf) != []
    requires p.metadata == Some(d) && p.script == [Completes, LostReply] && Attempts(s, p)
    ensures Step(s, p, sf) == s.(currentVersion := SeenVersion(s, p), zone := After(s.zone, d, sf, 1))
  {
    hide Plan;
    PlanIsAccepted(s.zone, d, sf);
    AcceptedTail(s.zone, Plan(s.zone, d, sf));
    assert NextFate(p.script) == Completes && Later(p.script) == [LostReply];
    assert OutcomeOf(s.zone, d, sf, p.script) == Failed(1);
  }

  lemma SampleIsSound(address: string)
    ensures Sound(SampleZone(), SampleWishes(address), "s.")
    ensures address == "1" ==> InSync(SampleZone(), SampleWishes(address), "s.")
    ensures SampleWishes(address).Keys == {"a.", "s."}
    ensures address == "2" ==> SampleWishes(address) != SampleWishes("1")
  {
    assert address == "2" ==> SampleWishes("2")["a."].record.records[0][0] != SampleWishes("1")["a."].record.records[0][0];
    assert "a." != "s." by { assert "a."[0] != "s."[0]; }
    assert ValueSet(["a."]) == {"a."} && SampleWishes(address).Keys == {"a.", "s."};
  }

  lemma SampleUpdateIsPlanned()
    ensures Plan(SampleZone(), SampleWishes("2"), "s.") != []
  {
    SampleIsSound("2");
    hide Plan;
    assert "1" in ValueSet(["1"]) && "1" !in ValueSet(["2"]) by { assert "1"[0] != "2"[0]; }
    assert "a." != "s." by { assert "a."[0] != "s."[0]; }
    assert !Holds(SampleZone(), SampleWishes("2")["a."].record);
    PlanMembers(SampleZone(), SampleWishes("2"), "s.", PlannedCall(SampleZone(), SampleWishes("2"), "s.", "a."));
  }

  /** Why the leak bound excepts failed attempts: an attempt fails after its first addition, the
      next one succeeds but wants nothing, and the added record stays, listed nowhere. */
  lemma LeakExample()
    ensures var h := [Attempt(SampleWishes("1"), Failed(1)), Attempt(map[], Succeeded)];
            && SoundHistory(map[], h, "s.") && Wrote(map[], h, "s.", 0, "a.")
            && AKey("a.") in ZoneAt(map[], h, "s.", 2) && !Owned(ZoneAt(map[], h, "s.", 2), "s.", "a.")
            && Plan(ZoneAt(map[], h, "s.", 2), map[], "s.") == []
  {
    hide Plan, After, ZoneAt, SampleWishes, WellFormed, SampleZone;
    var d := SampleWishes("1");
    var h := [Attempt(d, Failed(1)), Attempt(map[], Succeeded)];
    SampleIsSound("1");
    FirstAdditionIsTheAddress();
    var z := After(map[], d, "s.", 1);
    var start: Zone := map[];
    assert ZoneAt(start, h, "s.", 0) == start by { ZonesInTurn(start, h, "s."); }
    ZonesInTurn(start, h, "s.");
    assert ZoneAfter(start, h[0], "s.") == z;
    assert WellFormed(map[], "s.") by { EmptyIsWellFormed(); }
    NothingToDoIff(z, map[], "s.");
    IdleAttempt(z, h[1], "s.");
  }

  lemma ZonesInTurn(z: Zone, h: seq<Attempt>, sf: string)
    requires |h| == 2
    ensures ZoneAt(z, h, sf, 0) == z
    ensures ZoneAt(z, h, sf, 1) == ZoneAfter(z, h[0], sf)
    ensures ZoneAt(z, h, sf, 2) == ZoneAfter(ZoneAfter(z, h[0], sf), h[1], sf)
  {
    hide ZoneAfter;
    assert ZoneAt(z, h, sf, 2) == ZoneAfter(ZoneAt(z, h, sf, 1), h[1], sf);
  }

  lemma EmptyIsWellFormed()
    ensures WellFormed(map[], "s.")
  {}

  lemma FirstAdditionIsTheAddress()
    ensures var d, z: Zone := SampleWishes("1"), map[];
            && Sound(z, d, "s.") && |Plan(z, d, "s.")| >= 1 && Reached(z, d, "s.", 1, AKey("a."))
            && var y := After(z, d, "s.", 1);
               ZoneOk(y, "s.") && AKey("a.") in y && StateKey("s.") !in y && InSync(y, map[], "s.")
  {
    hide Plan, After;
    var d, z: Zone := SampleWishes("1"), map[];
    SampleIsSound("1");
    assert "a." != "s." by { assert "a."[0] != "s."[0]; }
    var p := Plan(z, d, "s.");
    var c := PlannedCall(z, d, "s.", "a.");
    PlanMembers(z, d, "s.", c);
    var m :| 0 <= m < |p| && p[m] == c;
    PlannedAt(z, d, "s.", 0);
    assert p[0].record.fqdn in d && p[0].op == Add;
    if m > 0 {
      OneCallPerName(z, d, "s.", 0, m);
      assert p[0].record.fqdn == "s.";
      StateCallComesLast(z, d, "s.", 0, m);
    }
    assert Reached(z, d, "s.", 1, AKey("a.")) by { assert KeyOf(p[0].record) == AKey("a."); }
    var y := After(z, d, "s.", 1);
    SoundAfter(z, d, "s.", 1);
    AfterLookup(z, d, "s.", 1, AKey("a."));
    AfterLookup(z, d, "s.", 1, StateKey("s."));
    assert Lookup(y, AKey("a.")).Some? && Lookup(y, StateKey("s.")).None?;
  }
}
