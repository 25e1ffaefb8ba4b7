/** What one reconciliation attempt sets out to do, computed from a single read of the zone,
    and the zone it aims for. `sf` is the name of the state record throughout. */
module Planning {
  import opened Records
  import opened Ordering
  import opened Zones

  function StateKey(sf: string): RRKey { RRKey(sf, "TXT") }

  /** The names the state record lists as created by this service. */
  function Listed(z: Zone, sf: string): set<string> {
    if StateKey(sf) in z then ValueSet(z[StateKey(sf)].values) else {}
  }

  predicate Owned(z: Zone, sf: string, n: string) {
    AKey(n) in z && n in Listed(z, sf)
  }

  function Names(z: Zone): (r: set<string>)
    ensures forall k | k in z :: k.name in r
  {
    set k | k in z :: k.name
  }

  /** The records this service may remove. An owned A record at the state name would hide
      the state record here; ZoneOk rules that out. */
  function OurRecords(z: Zone, sf: string): (r: map<string, DnsRecord>)
    ensures forall n :: n in r <==> Owned(z, sf, n) || (n == sf && StateKey(sf) in z)
  {
    assert forall n | AKey(n) in z :: AKey(n).name in Names(z);
    assert StateKey(sf) in z ==> StateKey(sf).name in Names(z);
    map n | n in Names(z) && (Owned(z, sf, n) || (n == sf && StateKey(sf) in z)) ::
      if Owned(z, sf, n) then RecordAt(z, AKey(n)) else RecordAt(z, StateKey(sf))
  }

  /** The records desired ones are compared with: every A record, and the state record. */
  function AllRecords(z: Zone, sf: string): (r: map<string, DnsRecord>)
    ensures forall n :: n in r <==> AKey(n) in z || (n == sf && StateKey(sf) in z)
  {
    assert forall n | AKey(n) in z :: AKey(n).name in Names(z);
    assert StateKey(sf) in z ==> StateKey(sf).name in Names(z);
    map n | n in Names(z) && (AKey(n) in z || (n == sf && StateKey(sf) in z)) ::
      if n == sf && StateKey(sf) in z then OurRecords(z, sf)[sf] else RecordAt(z, AKey(n))
  }

  /** What the metadata builder produces: A records under their own names, and one TXT record
      at the state name that lists exactly those names. */
  ghost predicate WellFormed(d: Desired, sf: string) {
    && (forall n | n in d ::
          && d[n].record.fqdn == n && d[n].record.records != []
          && d[n].record.rtype == (if n == sf then "TXT" else "A"))
    && (d != map[] ==> sf in d)
    && (sf in d ==> ValueSet(d[sf].record.records) == d.Keys - {sf})
  }

  /** No record set is empty, and no A record sits at the state name. */
  ghost predicate ZoneOk(z: Zone, sf: string) {
    AKey(sf) !in z && forall k | k in z :: z[k].values != []
  }

  ghost function Phase(op: Op, recs: map<string, DnsRecord>, names: set<string>): seq<Call>
    requires names <= recs.Keys
  {
    var ks := Listing(KeyOrder(TypesOf(recs)), names);
    seq(|ks|, i requires 0 <= i < |ks| => assert ks[i] in names; Call(op, recs[ks[i]]))
  }

  function Differing(d: Desired, all: map<string, DnsRecord>): set<string> {
    set n | n in d && n in all && ValueSet(d[n].record.records) != ValueSet(all[n].records)
  }

  ghost function Removals(z: Zone, d: Desired, sf: string): seq<Call> {
    var ours := OurRecords(z, sf);
    Phase(Remove, ours, ours.Keys - d.Keys)
  }

  ghost function Additions(z: Zone, d: Desired, sf: string): seq<Call> {
    Phase(Add, RecordsOf(d), d.Keys - AllRecords(z, sf).Keys)
  }

  ghost function Updates(z: Zone, d: Desired, sf: string): seq<Call> {
    Phase(Update, RecordsOf(d), Differing(d, AllRecords(z, sf)))
  }

  ghost function Plan(z: Zone, d: Desired, sf: string): seq<Call> {
    Removals(z, d, sf) + Additions(z, d, sf) + Updates(z, d, sf)
  }

  // ---- the plan, name by name ----

  predicate Holds(z: Zone, r: DnsRecord) {
    KeyOf(r) in z && ValueSet(z[KeyOf(r)].values) == ValueSet(r.records)
  }

  /** The key under which this service would own a name. */
  function OwnKey(sf: string, n: string): RRKey {
    if n == sf then StateKey(sf) else AKey(n)
  }

  /** What one name asks for, from the zone and the wishes alone. */
  function PlannedOp(z: Zone, d: Desired, sf: string, n: string): Option<Op> {
    if n !in d then
      if OwnKey(sf, n) in z && (n == sf || n in Listed(z, sf)) then Some(Remove) else None
    else if KeyOf(d[n].record) !in z then Some(Add)
    else if !Holds(z, d[n].record) then Some(Update)
    else None
  }

  function PlannedCall(z: Zone, d: Desired, sf: string, n: string): Call
    requires PlannedOp(z, d, sf, n).Some?
  {
    Call(PlannedOp(z, d, sf, n).value, if n in d then d[n].record else RecordAt(z, OwnKey(sf, n)))
  }

  /** c is the call that the situation of its name asks for. */
  predicate IsPlanned(z: Zone, d: Desired, sf: string, c: Call) {
    PlannedOp(z, d, sf, c.record.fqdn).Some? && c == PlannedCall(z, d, sf, c.record.fqdn)
  }

  function Rank(op: Op): nat {
    match op case Remove => 0 case Add => 1 case Update => 2
  }

  /** Removals, then additions, then updates; in each, A before TXT, then by name. */
  predicate CallLess(a: Call, b: Call) {
    Rank(a.op) < Rank(b.op) ||
    (a.op == b.op &&
     if a.record.rtype != b.record.rtype then a.record.rtype != "TXT"
     else StrLess(a.record.fqdn, b.record.fqdn))
  }

  function CallOrder(): (Call, Call) -> bool {
    (a, b) => CallLess(a, b)
  }

  ghost predicate Keyed(recs: map<string, DnsRecord>) {
    forall n | n in recs :: recs[n].fqdn == n && recs[n].rtype in {"A", "TXT"}
  }

  lemma PhaseMembers(op: Op, recs: map<string, DnsRecord>, names: set<string>, c: Call)
    requires names <= recs.Keys && Keyed(recs)
    ensures c in Phase(op, recs, names) <==> c.record.fqdn in names && c == Call(op, recs[c.record.fqdn])
  {
    var ks := Listing(KeyOrder(TypesOf(recs)), names);
    var p := Phase(op, recs, names);
    if c in p {
      var i :| 0 <= i < |p| && p[i] == c;
      assert ks[i] in names;
    }
    if c.record.fqdn in names && c == Call(op, recs[c.record.fqdn]) {
      var i :| 0 <= i < |ks| && ks[i] == c.record.fqdn;
      assert p[i] == c;
    }
  }

  lemma PhaseAscends(op: Op, recs: map<string, DnsRecord>, names: set<string>)
    requires names <= recs.Keys && Keyed(recs)
    ensures Ascending(CallOrder(), Phase(op, recs, names))
    ensures forall c | c in Phase(op, recs, names) :: c.op == op
  {
    var types := TypesOf(recs);
    var ks := Listing(KeyOrder(types), names);
    var p := Phase(op, recs, names);
    KeyOrderIsStrict(types, names);
    ListingLists(KeyOrder(types), names);
    forall i, j | 0 <= i < j < |p| ensures CallOrder()(p[i], p[j]) {
      assert ks[i] in names && ks[j] in names;
      assert KeyOrder(types)(ks[i], ks[j]);
    }
  }

  lemma ReadIsKeyed(z: Zone, sf: string)
    requires ZoneOk(z, sf)
    ensures Keyed(OurRecords(z, sf)) && Keyed(AllRecords(z, sf))
  {}

  lemma RemovalMembers(z: Zone, d: Desired, sf: string, c: Call)
    requires ZoneOk(z, sf)
    ensures c in Removals(z, d, sf) <==> c.op == Remove && IsPlanned(z, d, sf, c)
  {
    ReadIsKeyed(z, sf);
    var ours := OurRecords(z, sf);
    PhaseMembers(Remove, ours, ours.Keys - d.Keys, c);
    var n := c.record.fqdn;
    if n in ours { assert ours[n] == RecordAt(z, OwnKey(sf, n)); }
  }

  lemma AdditionMembers(z: Zone, d: Desired, sf: string, c: Call)
    requires ZoneOk(z, sf) && WellFormed(d, sf)
    ensures c in Additions(z, d, sf) <==> c.op == Add && IsPlanned(z, d, sf, c)
  {
    PhaseMembers(Add, RecordsOf(d), d.Keys - AllRecords(z, sf).Keys, c);
    if c.record.fqdn in d { CompareDesired(z, d, sf, c.record.fqdn); }
  }

  lemma UpdateMembers(z: Zone, d: Desired, sf: string, c: Call)
    requires ZoneOk(z, sf) && WellFormed(d, sf)
    ensures c in Updates(z, d, sf) <==> c.op == Update && IsPlanned(z, d, sf, c)
  {
    PhaseMembers(Update, RecordsOf(d), Differing(d, AllRecords(z, sf)), c);
    if c.record.fqdn in d { CompareDesired(z, d, sf, c.record.fqdn); }
  }

  /** The plan issues a call exactly when the situation of its name asks for it. */
  lemma PlanMembers(z: Zone, d: Desired, sf: string, c: Call)
    requires ZoneOk(z, sf) && WellFormed(d, sf)
    ensures c in Plan(z, d, sf) <==> IsPlanned(z, d, sf, c)
  {
    RemovalMembers(z, d, sf, c);
    AdditionMembers(z, d, sf, c);
    UpdateMembers(z, d, sf, c);
    InParts(Removals(z, d, sf), Additions(z, d, sf), Updates(z, d, sf), c);
  }

  lemma InParts(xs: seq<Call>, ys: seq<Call>, us: seq<Call>, c: Call)
    ensures c in xs + ys + us <==> c in xs || c in ys || c in us
  {}

  lemma CompareDesired(z: Zone, d: Desired, sf: string, n: string)
    requires ZoneOk(z, sf) && WellFormed(d, sf) && n in d
    ensures n in AllRecords(z, sf) <==> KeyOf(d[n].record) in z
    ensures n in Differing(d, AllRecords(z, sf)) <==> KeyOf(d[n].record) in z && !Holds(z, d[n].record)
  {}

  lemma PlanAscends(z: Zone, d: Desired, sf: string)
    requires ZoneOk(z, sf) && WellFormed(d, sf)
    ensures Ascending(CallOrder(), Plan(z, d, sf))
  {
    ReadIsKeyed(z, sf);
    var ours, all, recs := OurRecords(z, sf), AllRecords(z, sf), RecordsOf(d);
    PhaseAscends(Remove, ours, ours.Keys - d.Keys);
    PhaseAscends(Add, recs, d.Keys - all.Keys);
    PhaseAscends(Update, recs, Differing(d, all));
    PhasesAscend(Removals(z, d, sf), Additions(z, d, sf), Updates(z, d, sf));
  }

  lemma PhasesAscend(rs: seq<Call>, xs: seq<Call>, us: seq<Call>)
    requires Ascending(CallOrder(), rs) && Ascending(CallOrder(), xs) && Ascending(CallOrder(), us)
    requires forall c | c in rs :: c.op == Remove
    requires forall c | c in xs :: c.op == Add
    requires forall c | c in us :: c.op == Update
    ensures Ascending(CallOrder(), rs + xs + us)
  {
    var p := rs + xs + us;
    assert forall i | 0 <= i < |rs| :: p[i] in rs;
    assert forall i | |rs| <= i < |rs| + |xs| :: p[i] == xs[i - |rs|] && p[i] in xs;
    assert forall i | |rs| + |xs| <= i < |p| :: p[i] == us[i - |rs| - |xs|] && p[i] in us;
    forall i, j | 0 <= i < j < |p| ensures CallOrder()(p[i], p[j]) {}
  }

  lemma CallOrderIsStrict(s: set<Call>)
    requires forall c | c in s :: c.record.rtype in {"A", "TXT"}
    requires forall b, c | b in s && c in s && b.record.fqdn == c.record.fqdn :: b == c
    ensures StrictOrderOn(CallOrder(), s)
  {
    var less := CallOrder();
    forall x | x in s ensures !less(x, x) { StrLessIrreflexive(x.record.fqdn); }
    forall x, y | x in s && y in s && x != y ensures less(x, y) || less(y, x) {
      StrLessTotal(x.record.fqdn, y.record.fqdn);
    }
    forall x, y, z | x in s && y in s && z in s && less(x, y) && less(y, z) ensures less(x, z) {
      if StrLess(x.record.fqdn, y.record.fqdn) && StrLess(y.record.fqdn, z.record.fqdn) {
        StrLessTransitive(x.record.fqdn, y.record.fqdn, z.record.fqdn);
      }
    }
  }

  /** xs is the ascending sequence of exactly the calls the zone and the wishes ask for. */
  ghost predicate IsPlan(xs: seq<Call>, z: Zone, d: Desired, sf: string) {
    Ascending(CallOrder(), xs) && forall c :: c in xs <==> IsPlanned(z, d, sf, c)
  }

  /** There is one such sequence, and it is the one the three phases issue: nothing in it
      depends on the order in which a map was ranged over. */
  lemma PlanIsCanonical(z: Zone, d: Desired, sf: string, xs: seq<Call>)
    requires ZoneOk(z, sf) && WellFormed(d, sf)
    ensures IsPlan(xs, z, d, sf) <==> xs == Plan(z, d, sf)
  {
    var p := Plan(z, d, sf);
    forall c ensures c in p <==> IsPlanned(z, d, sf, c) { PlanMembers(z, d, sf, c); }
    PlanAscends(z, d, sf);
    if IsPlan(xs, z, d, sf) { PlanIsUnique(z, d, sf, xs, p); }
  }

  lemma PlanIsUnique(z: Zone, d: Desired, sf: string, xs: seq<Call>, ys: seq<Call>)
    requires ZoneOk(z, sf) && WellFormed(d, sf) && IsPlan(xs, z, d, sf) && IsPlan(ys, z, d, sf)
    ensures xs == ys
  {
    assert Elements(xs) == Elements(ys);
    forall c | c in Elements(ys) ensures c.record.rtype in {"A", "TXT"} { assert IsPlanned(z, d, sf, c); }
    CallOrderIsStrict(Elements(ys));
    ListingIsUnique(CallOrder(), xs, ys, Elements(ys));
  }

  /** The plan in terms of the stored sets and the wishes. Removed is what stands unwanted under
      a name the state record lists, and the state record itself when nothing is wanted; added
      is what is wanted where nothing stands; updated is what stands with other values. */
  lemma PlanInFields(z: Zone, d: Desired, sf: string, c: Call)
    requires ZoneOk(z, sf) && WellFormed(d, sf)
    ensures var n, k, state := c.record.fqdn, RRKey(c.record.fqdn, c.record.rtype), RRKey(sf, "TXT");
            c in Plan(z, d, sf) <==>
            match c.op
            case Remove =>
              && n !in d && k in z && c.record == DnsRecord(n, z[k].values, k.rtype, z[k].ttl)
              && (k == state || (k.rtype == "A" && state in z && n in z[state].values))
            case Add => n in d && c.record == d[n].record && k !in z
            case Update =>
              && n in d && c.record == d[n].record && k in z
              && exists v :: v in c.record.records <==> v !in z[k].values
  {
    hide Plan;
    PlanMembers(z, d, sf, c);
    var k := RRKey(c.record.fqdn, c.record.rtype);
    if k in z { ValueSetsDifferIff(c.record.records, z[k].values); }
  }

  lemma ValueSetsDifferIff(xs: seq<string>, ys: seq<string>)
    ensures ValueSet(xs) != ValueSet(ys) <==> exists v :: v in xs <==> v !in ys
  {
    assert forall v :: (v in ValueSet(xs) <==> v in xs) && (v in ValueSet(ys) <==> v in ys);
  }

  /** Removals come before additions and these before updates; among calls of one kind the TXT
      record comes last and names ascend. */
  lemma PlanOrderInFields(z: Zone, d: Desired, sf: string, i: nat, j: nat)
    requires ZoneOk(z, sf) && WellFormed(d, sf) && i < j < |Plan(z, d, sf)|
    ensures var a, b := Plan(z, d, sf)[i], Plan(z, d, sf)[j];
            && (b.op == Remove ==> a.op == Remove) && (a.op == Update ==> b.op == Update)
            && (a.op == b.op && a.record.rtype == "TXT" ==> b.record.rtype == "TXT")
            && (a.op == b.op && a.record.rtype == b.record.rtype ==> StrLess(a.record.fqdn, b.record.fqdn))
  {
    hide Plan;
    PlanAscends(z, d, sf);
    assert CallOrder()(Plan(z, d, sf)[i], Plan(z, d, sf)[j]);
  }

  lemma CallLessIsStrict(a: Call, b: Call)
    requires CallLess(a, b)
    ensures a != b && !(a.op == b.op && a.record.fqdn == b.record.fqdn && a.record.rtype == b.record.rtype)
  {
    StrLessIrreflexive(a.record.fqdn);
  }

  // ---- the zone an attempt aims for ----

  function DesiredKeys(d: Desired): set<RRKey> {
    set n | n in d :: KeyOf(d[n].record)
  }

  /** Owned but no longer desired: an A record the state record lists, or the state record. */
  predicate Dropped(z: Zone, d: Desired, sf: string, k: RRKey) {
    k.name !in d && ((k.rtype == "A" && Owned(z, sf, k.name)) || k == StateKey(sf))
  }

  /** The set wanted under one key: the desired one, unless the zone already holds its values
      (then the stored one, TTL included); nothing where a record is dropped; otherwise
      whatever is there. */
  function TargetAt(z: Zone, d: Desired, sf: string, k: RRKey): Option<RRSet> {
    if k.name in d && KeyOf(d[k.name].record) == k then
      if Holds(z, d[k.name].record) then Some(z[k]) else Some(SetOf(d[k.name].record))
    else if Dropped(z, d, sf, k) then None
    else Lookup(z, k)
  }

  function Target(z: Zone, d: Desired, sf: string): Zone {
    map k | k in z.Keys + DesiredKeys(d) && TargetAt(z, d, sf, k).Some? :: TargetAt(z, d, sf, k).value
  }

  lemma TargetLookup(z: Zone, d: Desired, sf: string, k: RRKey)
    ensures Lookup(Target(z, d, sf), k) == TargetAt(z, d, sf, k)
  {}
}
