/** The Route 53 adapter: quoting of TXT values, one-request changes, and continuation paging
    (providers/route53/route53.go). */
module Route53 {
  import opened Records
  import opened Naming
  import opened Zones
  import opened Planning
  import opened Safety

  // ---- values on the wire ----

  function Quote(v: string): string {
    "\"" + v + "\""
  }

  function Unquote(w: string): string {
    Trim(w, '\"')
  }

  function EncodeValue(rtype: string, v: string): string {
    if rtype == "TXT" then Quote(v) else v
  }

  function DecodeValue(rtype: string, w: string): string {
    if rtype == "TXT" then Unquote(w) else w
  }

  predicate QuoteClean(v: string) {
    v != "" ==> v[0] != '\"' && v[|v| - 1] != '\"'
  }

  lemma UnquoteIsClean(w: string)
    ensures QuoteClean(Unquote(w))
  {
    var from, to := TrimShape(w, '\"');
  }

  /** Round trip: a value is read back as it was written exactly when it has no quote at
      either end. */
  lemma QuoteRoundTripIff(v: string)
    ensures Unquote(Quote(v)) == v <==> QuoteClean(v)
  {
    UnquoteIsClean(Quote(v));
    if QuoteClean(v) {
      var w := v + "\"";
      assert Quote(v)[1..] == w && w[..|w| - 1] == v;
      assert TrimRight(v, '\"') == v;
      assert w[1..] == "" || v != "";
      assert TrimLeft(w, '\"') == if v == "" then w[1..] else w;
      assert v == "" ==> TrimRight(w[1..], '\"') == "";
    }
  }

  /** The stored form the adapter itself writes: one quote at each end, none just inside. */
  predicate Canonical(w: string) {
    |w| >= 2 && w[0] == '\"' && w[|w| - 1] == '\"' && QuoteClean(w[1..|w| - 1])
  }

  /** A stored value is named exactly by a request made from its reading exactly when it is in
      that form. */
  lemma RequoteIff(w: string)
    ensures Quote(Unquote(w)) == w <==> Canonical(w)
  {
    UnquoteIsClean(w);
    if Canonical(w) {
      var v := w[1..|w| - 1];
      assert w == Quote(v);
      QuoteRoundTripIff(v);
    } else {
      assert Quote(Unquote(w))[1..|Quote(Unquote(w))| - 1] == Unquote(w);
    }
  }

  function Encoded(r: DnsRecord): RRSet {
    RRSet(seq(|r.records|, i requires 0 <= i < |r.records| => EncodeValue(r.rtype, r.records[i])), r.ttl)
  }

  function DecodedSet(rtype: string, s: RRSet): RRSet {
    RRSet(seq(|s.values|, i requires 0 <= i < |s.values| => DecodeValue(rtype, s.values[i])), s.ttl)
  }

  /** The stored zone as the reconciler reads it. */
  function Decoded(raw: Zone): Zone {
    map k | k in raw :: DecodedSet(k.rtype, raw[k])
  }

  // ---- changes ----

  datatype ChangeAction = Upsert | Delete

  function ActionOf(op: Op): ChangeAction {
    if op == Remove then Delete else Upsert
  }

  /** The service applies a change wholly or not at all; a deletion has to match the stored set. */
  function RawRespond(raw: Zone, action: ChangeAction, k: RRKey, s: RRSet, f: Fate): (Zone, bool) {
    if f == Refused || (action == Delete && !(k in raw && raw[k] == s)) then (raw, true)
    else (if action == Delete then raw - {k} else raw[k := s], f == LostReply)
  }

  class HostedZone {
    var raw: Zone
    var script: seq<Fate>

    constructor (raw: Zone, script: seq<Fate>)
      ensures this.raw == raw && this.script == script
    {
      this.raw, this.script := raw, script;
    }

    method ChangeResourceRecordSets(action: ChangeAction, name: string, rtype: string, ttl: int, values: seq<string>)
      returns (err: bool)
      modifies this
      ensures (raw, err) == RawRespond(old(raw), action, RRKey(name, rtype), RRSet(values, ttl), NextFate(old(script)))
      ensures script == Later(old(script))
    {
      var (z, e) := RawRespond(raw, action, RRKey(name, rtype), RRSet(values, ttl), NextFate(script));
      raw, err, script := z, e, Later(script);
    }
  }

  /** The zone stores the record: its TTL and its values in order, those of a TXT record in quotes. */
  ghost predicate Stores(raw: Zone, r: DnsRecord) {
    var k := RRKey(r.fqdn, r.rtype);
    && k in raw && raw[k].ttl == r.ttl && |raw[k].values| == |r.records|
    && forall i | 0 <= i < |r.records| ::
         raw[k].values[i] == if r.rtype == "TXT" then "\"" + r.records[i] + "\"" else r.records[i]
  }

  lemma EncodedIsStored(raw: Zone, r: DnsRecord)
    ensures Stores(raw[KeyOf(r) := Encoded(r)], r)
  {}

  lemma EncodedIsNamed(raw: Zone, r: DnsRecord)
    ensures KeyOf(r) in raw && raw[KeyOf(r)] == Encoded(r) ==> Stores(raw, r)
  {}

  class Route53Provider {
    const zone: HostedZone

    constructor (zone: HostedZone)
      ensures this.zone == zone
    {
      this.zone := zone;
    }

    /** One request with all values of the record; a record without values is turned down here. */
    method ChangeRecord(record: DnsRecord, action: ChangeAction) returns (err: bool)
      modifies zone
      ensures record.records == [] ==> err && zone.raw == old(zone.raw) && zone.script == old(zone.script)
      ensures record.records != [] ==>
                && (zone.raw, err) == RawRespond(old(zone.raw), action, KeyOf(record), Encoded(record), NextFate(old(zone.script)))
                && zone.script == Later(old(zone.script))
      ensures action == Upsert && record.records != [] && NextFate(old(zone.script)) != Refused ==>
                Stores(zone.raw, record) && zone.raw - {RRKey(record.fqdn, record.rtype)} == old(zone.raw) - {RRKey(record.fqdn, record.rtype)}
    {
      if |record.records| == 0 { return true; }
      var records := new string[|record.records|];
      for idx := 0 to |record.records|
        modifies records
        invariant forall i | 0 <= i < idx :: records[i] == Encoded(record).values[i]
      {
        var value := record.records[idx];
        if record.rtype == "TXT" { value := "\"" + value + "\""; }
        records[idx] := value;
      }
      assert records[..] == Encoded(record).values;
      EncodedIsStored(old(zone.raw), record);
      err := zone.ChangeResourceRecordSets(action, record.fqdn, record.rtype, record.ttl, records[..]);
    }

    method AddRecord(record: DnsRecord) returns (err: bool)
      modifies zone
      ensures record.records != [] ==>
                (zone.raw, err) == RawRespond(old(zone.raw), ActionOf(Add), KeyOf(record), Encoded(record), NextFate(old(zone.script)))
      ensures record.records == [] ==> err && zone.raw == old(zone.raw)
      ensures record.records != [] && NextFate(old(zone.script)) != Refused ==> Stores(zone.raw, record)
    {
      err := ChangeRecord(record, Upsert);
    }

    method UpdateRecord(record: DnsRecord) returns (err: bool)
      modifies zone
      ensures record.records != [] ==>
                (zone.raw, err) == RawRespond(old(zone.raw), ActionOf(Update), KeyOf(record), Encoded(record), NextFate(old(zone.script)))
      ensures record.records == [] ==> err && zone.raw == old(zone.raw)
      ensures record.records != [] && NextFate(old(zone.script)) != Refused ==> Stores(zone.raw, record)
    {
      err := ChangeRecord(record, Upsert);
    }

    method RemoveRecord(record: DnsRecord) returns (err: bool)
      modifies zone
      ensures record.records != [] ==>
                (zone.raw, err) == RawRespond(old(zone.raw), ActionOf(Remove), KeyOf(record), Encoded(record), NextFate(old(zone.script)))
      ensures record.records == [] ==> err && zone.raw == old(zone.raw)
      ensures zone.raw == old(zone.raw) ||
              (Stores(old(zone.raw), record) && zone.raw == old(zone.raw) - {RRKey(record.fqdn, record.rtype)})
    {
      EncodedIsNamed(zone.raw, record);
      err := ChangeRecord(record, Delete);
    }
  }

  /** Every TXT value of the record survives being written and read. */
  predicate CleanRecord(r: DnsRecord) {
    r.rtype == "TXT" ==> forall v | v in r.records :: QuoteClean(v)
  }

  /** What is stored under k is what writing its reading would store. */
  predicate FaithfulAt(raw: Zone, k: RRKey) {
    k in raw && k.rtype == "TXT" ==> forall w | w in raw[k].values :: Canonical(w)
  }

  lemma WrittenSetIsReadBack(r: DnsRecord)
    requires CleanRecord(r)
    ensures DecodedSet(r.rtype, Encoded(r)) == SetOf(r)
    ensures r.rtype == "TXT" ==> forall w | w in Encoded(r).values :: Canonical(w)
  {
    forall i | 0 <= i < |r.records|
      ensures DecodeValue(r.rtype, EncodeValue(r.rtype, r.records[i])) == r.records[i]
      ensures r.rtype == "TXT" ==> Canonical(Quote(r.records[i]))
    {
      assert r.records[i] in r.records;
      QuoteRoundTripIff(r.records[i]);
      RequoteIff(Quote(r.records[i]));
    }
    assert DecodedSet(r.rtype, Encoded(r)).values == r.records;
  }

  /** A deletion planned from a reading names the stored set exactly when the stored set is in
      the adapter's own form. */
  lemma PlannedDeleteMatchesIff(raw: Zone, k: RRKey)
    requires k in raw
    ensures Encoded(RecordAt(Decoded(raw), k)) == raw[k] <==> FaithfulAt(raw, k)
  {
    var s, e := raw[k], Encoded(RecordAt(Decoded(raw), k));
    assert |e.values| == |s.values|;
    forall i | 0 <= i < |s.values|
      ensures k.rtype == "TXT" ==> (e.values[i] == s.values[i] <==> Canonical(s.values[i]))
      ensures k.rtype != "TXT" ==> e.values[i] == s.values[i]
    {
      RequoteIff(s.values[i]);
    }
    if FaithfulAt(raw, k) {
      forall i | 0 <= i < |s.values| ensures e.values[i] == s.values[i] { assert s.values[i] in s.values; }
    }
  }

  /** Atomic refinement: one request against the stored zone does to its reading exactly what
      the abstract provider does, answer included, and leaves every set as faithful as before. */
  lemma ChangeRefinesCall(raw: Zone, c: Call, f: Fate)
    requires c.record.records != [] && CleanRecord(c.record) && FaithfulAt(raw, KeyOf(c.record))
    ensures var (raw', err) := RawRespond(raw, ActionOf(c.op), KeyOf(c.record), Encoded(c.record), f);
            && (Decoded(raw'), err) == Respond(Decoded(raw), c, f)
            && forall k | FaithfulAt(raw, k) :: FaithfulAt(raw', k)
  {
    hide Canonical, Encoded, DecodedSet, CleanRecord;
    var k := KeyOf(c.record);
    WrittenSetIsReadBack(c.record);
    if k in raw {
      PlannedDeleteMatchesIff(raw, k);
      assert RecordAt(Decoded(raw), k) == DnsRecord(k.name, Decoded(raw)[k].values, k.rtype, Decoded(raw)[k].ttl);
      if Decoded(raw)[k] == SetOf(c.record) { assert RecordAt(Decoded(raw), k) == c.record; }
    }
    assert Decoded(raw - {k}) == Decoded(raw) - {k};
    assert Decoded(raw[k := Encoded(c.record)]) == Decoded(raw)[k := SetOf(c.record)];
  }

  function RawRun(raw: Zone, calls: seq<Call>, script: seq<Fate>): (Zone, bool)
    decreases |calls|
  {
    if calls == [] then (raw, false) else
    var c := calls[0];
    var (raw', err) := RawRespond(raw, ActionOf(c.op), KeyOf(c.record), Encoded(c.record), NextFate(script));
    if err then (raw', true) else RawRun(raw', calls[1..], Later(script))
  }

  /** So a whole attempt against Route 53, interrupted anywhere, is the attempt the safety
      results are about, seen through the reading. */
  lemma {:induction false} RawRunRefinesRun(raw: Zone, calls: seq<Call>, script: seq<Fate>)
    requires forall c | c in calls :: c.record.records != [] && CleanRecord(c.record) && FaithfulAt(raw, KeyOf(c.record))
    ensures var (raw', err) := RawRun(raw, calls, script);
            var r := Run(Decoded(raw), calls, script);
            && Decoded(raw') == r.zone && err == r.err
            && forall k | FaithfulAt(raw, k) :: FaithfulAt(raw', k)
    decreases |calls|
  {
    hide Decoded, FaithfulAt, CleanRecord, Encoded;
    if calls != [] {
      var c := calls[0];
      ChangeRefinesCall(raw, c, NextFate(script));
      var (raw', err) := RawRespond(raw, ActionOf(c.op), KeyOf(c.record), Encoded(c.record), NextFate(script));
      if !err {
        forall d | d in calls[1..] ensures FaithfulAt(raw', KeyOf(d.record)) { assert d in calls; }
        RawRunRefinesRun(raw', calls[1..], Later(script));
      }
    }
  }

  /** One attempt of the reconciler on Route 53's stored zone is the planned attempt on the zone as
      read, whatever fails, as long as the state record is stored in the adapter's own form and
      the names to be listed have no quote at either end. The former then still holds. */
  lemma AttemptOnStoredZone(raw: Zone, d: Desired, sf: string, script: seq<Fate>)
    requires Sound(Decoded(raw), d, sf) && FaithfulAt(raw, StateKey(sf))
    requires sf in d ==> CleanRecord(d[sf].record)
    ensures var p := Plan(Decoded(raw), d, sf);
            var (raw', err) := RawRun(raw, p, script);
            var r := Run(Decoded(raw), p, script);
            && Decoded(raw') == r.zone && err == r.err
            && forall k | FaithfulAt(raw, k) :: FaithfulAt(raw', k)
  {
    hide Plan, Run, RawRun, Canonical;
    var z := Decoded(raw);
    forall c | c in Plan(z, d, sf)
      ensures c.record.records != [] && CleanRecord(c.record) && FaithfulAt(raw, KeyOf(c.record))
    {
      PlanMembers(z, d, sf, c);
      var n := c.record.fqdn;
      if n !in d {
        var k := KeyOf(c.record);
        assert k in z && c.record == RecordAt(z, k);
        ReadRecordsAreClean(raw, k);
      }
    }
    RawRunRefinesRun(raw, Plan(z, d, sf), script);
  }

  lemma ReadRecordsAreClean(raw: Zone, k: RRKey)
    requires k in raw
    ensures CleanRecord(RecordAt(Decoded(raw), k))
  {
    var r := RecordAt(Decoded(raw), k);
    forall i | 0 <= i < |r.records| ensures k.rtype == "TXT" ==> QuoteClean(r.records[i]) {
      UnquoteIsClean(raw[k].values[i]);
    }
  }

  // ---- reading ----

  /** A record set as listed; any part of it may be missing. */
  datatype WireSet = WireSet(name: Option<string>, rtype: string, ttl: Option<int>, values: seq<Option<string>>,
                             aliasTarget: bool, trafficPolicy: bool)

  predicate IsProprietary(w: WireSet) {
    w.aliasTarget || w.trafficPolicy
  }

  predicate Readable(w: WireSet) {
    w.name.Some? && w.rtype != "" && !IsProprietary(w) && w.ttl.Some?
  }

  function Present(values: seq<Option<string>>): seq<string> {
    if values == [] then [] else
    Present(values[..|values| - 1]) + match values[|values| - 1] { case Some(v) => [v] case None => [] }
  }

  function DecodedRecord(w: WireSet): DnsRecord
    requires Readable(w)
  {
    var s := DecodedSet(w.rtype, RRSet(Present(w.values), w.ttl.value));
    DnsRecord(w.name.value, s.values, w.rtype, s.ttl)
  }

  /** The readable sets, decoded, in server order. */
  function ReadBack(sets: seq<WireSet>): seq<DnsRecord> {
    if sets == [] then [] else
    var w := sets[|sets| - 1];
    ReadBack(sets[..|sets| - 1]) + if Readable(w) then [DecodedRecord(w)] else []
  }

  /** The values read are those present, decoded, in order: `at` tells where each one was. */
  lemma ValuesInOrder(values: seq<Option<string>>) returns (at: seq<nat>)
    ensures |at| == |Present(values)| && forall i, j | 0 <= i < j < |at| :: at[i] < at[j]
    ensures forall i :: i in at <==> 0 <= i < |values| && values[i] != None
    ensures forall j | 0 <= j < |at| :: at[j] < |values| && values[at[j]] == Some(Present(values)[j])
  {
    hide Present;
    at := [];
    var p: seq<string> := [];
    NothingPresent(values);
    for n := 0 to |values|
      invariant p == Present(values[..n]) && |at| == |p|
      invariant forall i, j | 0 <= i < j < |at| :: at[i] < at[j]
      invariant forall i :: i in at <==> 0 <= i < n && values[i] != None
      invariant forall j | 0 <= j < |at| :: at[j] < n && values[at[j]] == Some(p[j])
    {
      PresentStep(values, n);
      if values[n].Some? { at, p := at + [n], p + [values[n].value]; }
    }
    assert values[..|values|] == values;
  }

  lemma NothingPresent(values: seq<Option<string>>)
    ensures Present(values[..0]) == []
  {}

  lemma PresentStep(values: seq<Option<string>>, n: nat)
    requires n < |values|
    ensures Present(values[..n + 1]) == Present(values[..n]) + match values[n] { case Some(v) => [v] case None => [] }
    ensures Present(values[..n]) + [] == Present(values[..n])
  {
    assert values[..n + 1][..n] == values[..n];
  }

  /** A set all of whose values are present is read value for value, a TXT value without the quotes
      around it. */
  lemma CompleteSetIsRead(w: WireSet)
    requires Readable(w) && forall i | 0 <= i < |w.values| :: w.values[i].Some?
    ensures var r := DecodedRecord(w);
            && Some(r.fqdn) == w.name && r.rtype == w.rtype && Some(r.ttl) == w.ttl && |r.records| == |w.values|
            && forall i | 0 <= i < |w.values| ::
                 r.records[i] == if w.rtype == "TXT" then Trim(w.values[i].value, '\"') else w.values[i].value
  {
    hide Trim;
    AllPresent(w.values);
  }

  lemma {:induction false} AllPresent(values: seq<Option<string>>)
    requires forall i | 0 <= i < |values| :: values[i].Some?
    ensures |Present(values)| == |values| && forall i | 0 <= i < |values| :: Some(Present(values)[i]) == values[i]
    decreases |values|
  {
    if values != [] { AllPresent(values[..|values| - 1]); }
  }

  /** Which sets are read, and in which order: those with a name, a type and a TTL that are
      neither alias nor traffic-policy sets, as the server lists them. */
  lemma SetsInOrder(sets: seq<WireSet>) returns (at: seq<nat>)
    ensures |at| == |ReadBack(sets)| && forall i, j | 0 <= i < j < |at| :: at[i] < at[j]
    ensures forall i :: i in at <==> 0 <= i < |sets| && sets[i].name != None && sets[i].rtype != "" && sets[i].ttl != None &&
                                     !sets[i].aliasTarget && !sets[i].trafficPolicy
    ensures forall j | 0 <= j < |at| :: at[j] < |sets| && Readable(sets[at[j]]) && ReadBack(sets)[j] == DecodedRecord(sets[at[j]])
  {
    hide DecodedRecord, ReadBack, Readable;
    at := [];
    var rs: seq<DnsRecord> := [];
    NothingRead(sets);
    for n := 0 to |sets|
      invariant rs == ReadBack(sets[..n]) && |at| == |rs|
      invariant forall i, j | 0 <= i < j < |at| :: at[i] < at[j]
      invariant forall i :: i in at <==> 0 <= i < n && Readable(sets[i])
      invariant forall j | 0 <= j < |at| :: at[j] < n && Readable(sets[at[j]]) && rs[j] == DecodedRecord(sets[at[j]])
    {
      ReadStep(sets, n);
      if Readable(sets[n]) { at, rs := at + [n], rs + [DecodedRecord(sets[n])]; }
    }
    assert sets[..|sets|] == sets;
    forall i | 0 <= i < |sets| { ReadableIff(sets[i]); }
  }

  lemma ReadableIff(w: WireSet)
    ensures Readable(w) <==> w.name != None && w.rtype != "" && w.ttl != None && !w.aliasTarget && !w.trafficPolicy
  {}

  lemma NothingRead(sets: seq<WireSet>)
    ensures ReadBack(sets[..0]) == []
  {}

  lemma ReadStep(sets: seq<WireSet>, n: nat)
    requires n < |sets|
    ensures ReadBack(sets[..n + 1]) == ReadBack(sets[..n]) + if Readable(sets[n]) then [DecodedRecord(sets[n])] else []
    ensures ReadBack(sets[..n]) + [] == ReadBack(sets[..n])
  {
    hide DecodedRecord;
    assert sets[..n + 1][..n] == sets[..n];
  }

  datatype Page = Page(sets: seq<WireSet>, isTruncated: bool, nextName: Option<string>, nextType: string)

  predicate Named(w: WireSet) {
    w.name.Some? && w.rtype != ""
  }

  /** No two named sets share name and type. */
  ghost predicate UniqueKeys(sets: seq<WireSet>) {
    forall i, j | 0 <= i < j < |sets| && Named(sets[i]) && Named(sets[j]) ::
      (sets[i].name, sets[i].rtype) != (sets[j].name, sets[j].rtype)
  }

  /** Where a continuation token points: the first set with that name and type. */
  function Position(sets: seq<WireSet>, name: Option<string>, rtype: string): (r: nat)
    ensures r <= |sets|
    ensures r < |sets| ==> sets[r].name == name && sets[r].rtype == rtype
    ensures forall i | 0 <= i < r :: !(sets[i].name == name && sets[i].rtype == rtype)
  {
    if sets == [] || (sets[0].name == name && sets[0].rtype == rtype) then 0
    else 1 + Position(sets[1..], name, rtype)
  }

  /** A zone that does not change while it is listed. Page sizes are the server's choice. */
  class RecordSetLister {
    const sets: seq<WireSet>
    const reliable: bool

    constructor (sets: seq<WireSet>, reliable: bool)
      ensures this.sets == sets && this.reliable == reliable
    {
      this.sets, this.reliable := sets, reliable;
    }

    method ListResourceRecordSets(startName: Option<string>, startType: string, maxItems: nat) returns (page: Page, err: bool)
      requires maxItems > 0
      ensures reliable ==> !err
      ensures !err ==>
        var from := if startName.None? then 0 else Position(sets, startName, startType);
        var to := from + |page.sets|;
        && |page.sets| <= maxItems && to <= |sets| && page.sets == sets[from..to]
        && (from < |sets| ==> page.sets != [])
        && page.isTruncated == (to < |sets|)
        && (to < |sets| ==> page.nextName == sets[to].name && page.nextType == sets[to].rtype)
    {
      page := Page([], false, None, "");
      err := *;
      if reliable { err := false; }
      if err { return; }
      var from := if startName.None? then 0 else Position(sets, startName, startType);
      var n: nat := if from < |sets| then 1 else 0;
      var more: bool := *;
      while more && n < maxItems && from + n < |sets|
        invariant n <= maxItems && from + n <= |sets| && (from < |sets| ==> n > 0)
        decreases |sets| - n
      {
        n := n + 1;
        more := *;
      }
      var to := from + n;
      page := if to < |sets| then Page(sets[from..to], true, sets[to].name, sets[to].rtype)
              else Page(sets[from..to], false, None, "");
    }

    /** Follows continuation tokens to the end, then decodes what was listed. Whatever the page
        sizes, every set is collected exactly once and in server order, and the loop ends
        because each page leaves less unread; with no failing request it can only fail where a
        token cannot be formed. */
    method GetRecords() returns (dnsRecords: seq<DnsRecord>, err: bool)
      requires UniqueKeys(sets)
      ensures !err ==> dnsRecords == ReadBack(sets)
      ensures err ==> dnsRecords == []
      ensures reliable && (forall w | w in sets :: Named(w)) ==> !err
    {
      hide ReadBack, Position;
      dnsRecords, err := [], false;
      var rrSets: seq<WireSet> := [];
      var startName: Option<string>, startType := None, "";
      while true
        invariant |rrSets| <= |sets| && rrSets == sets[..|rrSets|]
        invariant |rrSets| == if startName.None? then 0 else Position(sets, startName, startType)
        invariant startName.Some? ==> |rrSets| < |sets|
        decreases |sets| - |rrSets|, startName.None?
      {
        var page;
        page, err := ListResourceRecordSets(startName, startType, 100);
        if err { return; }
        rrSets := rrSets + page.sets;
        if !page.isTruncated { break; }
        assert sets[|rrSets|] in sets;
        if page.nextName.None? || page.nextType == "" { return [], true; }
        startName, startType := page.nextName, page.nextType;
      }
      assert rrSets == sets;
      dnsRecords := DecodeAll(rrSets);
    }
  }

  method DecodeAll(rrSets: seq<WireSet>) returns (dnsRecords: seq<DnsRecord>)
    ensures dnsRecords == ReadBack(rrSets)
  {
    dnsRecords := [];
    for idx := 0 to |rrSets|
      invariant dnsRecords == ReadBack(rrSets[..idx])
    {
      var rrSet := rrSets[idx];
      assert rrSets[..idx + 1][..idx] == rrSets[..idx];
      if rrSet.name.None? || rrSet.rtype == "" { continue; }
      if IsProprietary(rrSet) { continue; }
      var records: seq<string> := [];
      for i := 0 to |rrSet.values|
        invariant records == DecodedSet(rrSet.rtype, RRSet(Present(rrSet.values[..i]), 0)).values
      {
        assert rrSet.values[..i + 1][..i] == rrSet.values[..i];
        if rrSet.values[i].None? { continue; }
        var value := rrSet.values[i].value;
        if rrSet.rtype == "TXT" { value := Trim(value, '\"'); }
        records := records + [value];
      }
      assert rrSet.values[..|rrSet.values|] == rrSet.values;
      if rrSet.ttl.None? { continue; }
      dnsRecords := dnsRecords + [DnsRecord(rrSet.name.value, records, rrSet.rtype, rrSet.ttl.value)];
    }
    assert rrSets[..|rrSets|] == rrSets;
  }

  ghost predicate ShowsSet(w: WireSet, s: RRSet) {
    w.ttl == Some(s.ttl) && |w.values| == |s.values| && forall i | 0 <= i < |s.values| :: w.values[i] == Some(s.values[i])
  }

  /** The listing shows the stored zone: its readable sets are the zone's sets, each once. */
  ghost predicate Shows(sets: seq<WireSet>, raw: Zone) {
    && UniqueKeys(sets)
    && (forall w | w in sets && Readable(w) ::
          RRKey(w.name.value, w.rtype) in raw && ShowsSet(w, raw[RRKey(w.name.value, w.rtype)]))
    && (forall k | k in raw :: exists w :: w in sets && Readable(w) && RRKey(w.name.value, w.rtype) == k)
  }

  lemma {:induction false} ReadBackMembers(sets: seq<WireSet>, r: DnsRecord)
    ensures r in ReadBack(sets) <==> exists w :: w in sets && Readable(w) && DecodedRecord(w) == r
    decreases |sets|
  {
    hide DecodedRecord;
    if sets != [] {
      var front, w := sets[..|sets| - 1], sets[|sets| - 1];
      ReadBackMembers(front, r);
      assert sets == front + [w];
    }
  }

  lemma {:induction false} ReadBackKeys(sets: seq<WireSet>)
    requires UniqueKeys(sets)
    ensures forall i, j | 0 <= i < j < |ReadBack(sets)| :: KeyOf(ReadBack(sets)[i]) != KeyOf(ReadBack(sets)[j])
    decreases |sets|
  {
    if sets != [] {
      var front, w := sets[..|sets| - 1], sets[|sets| - 1];
      ReadBackKeys(front);
      if Readable(w) {
        forall r | r in ReadBack(front) ensures KeyOf(r) != KeyOf(DecodedRecord(w)) {
          ReadBackMembers(front, r);
          var v :| v in front && Readable(v) && DecodedRecord(v) == r;
          var i :| 0 <= i < |front| && front[i] == v;
          assert sets[i] == v;
        }
      }
    }
  }

  /** Reading a listing of the stored zone yields exactly what the reconciler's provider
      promises: each record set of the decoded zone, once. */
  lemma ReadingEnumeratesZone(sets: seq<WireSet>, raw: Zone)
    requires Shows(sets, raw)
    ensures Enumerates(ReadBack(sets), Decoded(raw))
  {
    hide DecodedSet, Present;
    var recs, z := ReadBack(sets), Decoded(raw);
    ReadBackKeys(sets);
    forall w | w in sets && Readable(w) ensures Present(w.values) == raw[RRKey(w.name.value, w.rtype)].values {
      AllPresent(w.values);
      assert ShowsSet(w, raw[RRKey(w.name.value, w.rtype)]);
    }
    forall r | r in recs ensures KeyOf(r) in z && z[KeyOf(r)] == SetOf(r) {
      ReadBackMembers(sets, r);
      var w :| w in sets && Readable(w) && DecodedRecord(w) == r;
    }
    forall k | k in z ensures RecordAt(z, k) in recs {
      var w :| w in sets && Readable(w) && RRKey(w.name.value, w.rtype) == k;
      ReadBackMembers(sets, RecordAt(z, k));
      assert DecodedRecord(w) == RecordAt(z, k);
    }
  }
}
