/** Grouping single resource records into record sets, done two ways: by scanning the sets made
    so far (providers/rfc2136/rfc2136.go) and by a map that is sorted afterwards
    (providers/alidns/alidns.go). */
module Grouping {
  import opened Records
  import opened Ordering
  import opened Zones

  /** A resource record; a TXT record may carry several strings. */
  datatype RR = RR(name: string, rtype: string, ttl: int, values: seq<string>)

  function KeyOfRR(r: RR): RRKey { RRKey(r.name, r.rtype) }

  function KeysOf(rrs: seq<RR>): set<RRKey> {
    set r | r in rrs :: KeyOfRR(r)
  }

  // ---- what a group is ----

  /** The values under one key, in input order. */
  function ValuesFor(rrs: seq<RR>, k: RRKey): seq<string> {
    if rrs == [] then [] else
    var r := rrs[|rrs| - 1];
    ValuesFor(rrs[..|rrs| - 1], k) + if KeyOfRR(r) == k then r.values else []
  }

  /** The TTL of the first record under the key. */
  function FirstTtl(rrs: seq<RR>, k: RRKey): int {
    if rrs == [] then 0
    else if KeyOfRR(rrs[0]) == k then rrs[0].ttl
    else FirstTtl(rrs[1..], k)
  }

  function Group(rrs: seq<RR>, k: RRKey): DnsRecord {
    DnsRecord(k.name, ValuesFor(rrs, k), k.rtype, FirstTtl(rrs, k))
  }

  function Groups(rrs: seq<RR>, ks: seq<RRKey>): seq<DnsRecord> {
    seq(|ks|, i requires 0 <= i < |ks| => Group(rrs, ks[i]))
  }

  /** The keys in order of first appearance. */
  function FirstSeen(rrs: seq<RR>): (r: seq<RRKey>)
    ensures forall k :: k in r <==> k in KeysOf(rrs)
    ensures forall i, j | 0 <= i < j < |r| :: r[i] != r[j]
  {
    if rrs == [] then [] else
    assert rrs == rrs[..|rrs| - 1] + [rrs[|rrs| - 1]];
    var front, k := FirstSeen(rrs[..|rrs| - 1]), KeyOfRR(rrs[|rrs| - 1]);
    if k in front then front else front + [k]
  }

  lemma GroupStep(rrs: seq<RR>, r: RR, k: RRKey)
    ensures Group(rrs + [r], k) ==
            if KeyOfRR(r) != k then Group(rrs, k)
            else if k in KeysOf(rrs) then Group(rrs, k).(records := ValuesFor(rrs, k) + r.values)
            else DnsRecord(k.name, r.values, k.rtype, r.ttl)
  {
    assert (rrs + [r])[..|rrs|] == rrs;
    assert ValuesFor(rrs, k) + [] == ValuesFor(rrs, k);
    FirstTtlStep(rrs, r, k);
    if k !in KeysOf(rrs) {
      NoValues(rrs, k);
      assert [] + r.values == r.values;
    }
  }

  lemma {:induction false} NoValues(rrs: seq<RR>, k: RRKey)
    requires k !in KeysOf(rrs)
    ensures ValuesFor(rrs, k) == [] && FirstTtl(rrs, k) == 0
  {
    if rrs != [] {
      var front := rrs[..|rrs| - 1];
      assert rrs[|rrs| - 1] in rrs && rrs[0] in rrs;
      assert KeysOf(front) <= KeysOf(rrs) && KeysOf(rrs[1..]) <= KeysOf(rrs);
      NoValues(front, k);
      NoValues(rrs[1..], k);
    }
  }

  lemma {:induction false} FirstTtlStep(rrs: seq<RR>, r: RR, k: RRKey)
    ensures FirstTtl(rrs + [r], k) ==
            if k in KeysOf(rrs) then FirstTtl(rrs, k) else if KeyOfRR(r) == k then r.ttl else 0
    ensures k !in KeysOf(rrs) ==> FirstTtl(rrs, k) == 0
  {
    if rrs != [] {
      FirstTtlStep(rrs[1..], r, k);
      assert (rrs + [r])[1..] == rrs[1..] + [r];
      assert rrs == [rrs[0]] + rrs[1..];
      assert forall x :: x in rrs <==> x == rrs[0] || x in rrs[1..];
      assert KeysOf(rrs) == {KeyOfRR(rrs[0])} + KeysOf(rrs[1..]);
    }
  }

  lemma FirstSeenStep(rrs: seq<RR>, r: RR)
    ensures FirstSeen(rrs + [r]) == if KeyOfRR(r) in KeysOf(rrs) then FirstSeen(rrs) else FirstSeen(rrs) + [KeyOfRR(r)]
    ensures KeysOf(rrs + [r]) == KeysOf(rrs) + {KeyOfRR(r)}
  {
    assert (rrs + [r])[..|rrs|] == rrs;
  }

  /** Values come in input order, those of each record together. */
  lemma {:induction false} ValuesInOrder(rrs: seq<RR>, more: seq<RR>, k: RRKey)
    ensures ValuesFor(rrs + more, k) == ValuesFor(rrs, k) + ValuesFor(more, k)
    decreases |more|
  {
    if more == [] {
      assert rrs + more == rrs;
    } else {
      ValuesInOrder(rrs, more[..|more| - 1], k);
      assert (rrs + more)[..|rrs + more| - 1] == rrs + more[..|more| - 1];
    }
  }

  lemma ValuesOfOne(r: RR, k: RRKey)
    ensures ValuesFor([r], k) == if r.name == k.name && r.rtype == k.rtype then r.values else []
  {
    assert [r][..0] == [] && ValuesFor([], k) == [];
  }

  /** The TTL of a group is that of its first record. */
  lemma {:induction false} TtlOfFirst(rrs: seq<RR>, i: nat)
    requires i < |rrs| && forall j | 0 <= j < i :: (rrs[j].name, rrs[j].rtype) != (rrs[i].name, rrs[i].rtype)
    ensures var k := RRKey(rrs[i].name, rrs[i].rtype);
            Group(rrs, k) == DnsRecord(rrs[i].name, ValuesFor(rrs, k), rrs[i].rtype, rrs[i].ttl)
    decreases i
  {
    if i > 0 { TtlOfFirst(rrs[1..], i - 1); }
  }

  /** Keys seen earlier stand earlier: more input only adds keys behind. */
  lemma {:induction false} FirstSeenGrows(rrs: seq<RR>, more: seq<RR>)
    ensures FirstSeen(rrs) <= FirstSeen(rrs + more)
    decreases |more|
  {
    hide FirstSeen, KeysOf;
    if more == [] {
      assert rrs + more == rrs;
    } else {
      var front, last := more[..|more| - 1], more[|more| - 1];
      FirstSeenGrows(rrs, front);
      assert rrs + more == rrs + front + [last];
      FirstSeenStep(rrs + front, last);
    }
  }

  // ---- scanning ----

  datatype RData = CnameData(target: string) | AData(address: string) | AaaaData(address: string)
                 | TxtData(strings: seq<string>) | OtherData

  /** A record as transferred; class 1 is the Internet class. */
  datatype TransferredRR = TransferredRR(name: string, class_: nat, ttl: int, data: RData)

  const CLASS_INET := 1

  function Handled(t: TransferredRR): Option<RR> {
    if t.class_ != CLASS_INET then None else
    match t.data
    case CnameData(target) => Some(RR(t.name, "CNAME", t.ttl, [target]))
    case AData(ip) => Some(RR(t.name, "A", t.ttl, [ip]))
    case AaaaData(ip) => Some(RR(t.name, "AAAA", t.ttl, [ip]))
    case TxtData(strings) => Some(RR(t.name, "TXT", t.ttl, strings))
    case OtherData => None
  }

  /** Which records are kept, and as what: CNAME, A, AAAA and TXT records of the Internet class. */
  lemma HandledIff(t: TransferredRR, r: RR)
    ensures Handled(t) == Some(r) <==>
            && t.class_ == 1 && r.name == t.name && r.ttl == t.ttl
            && match r.rtype
               case "CNAME" => t.data.CnameData? && r.values == [t.data.target]
               case "A" => t.data.AData? && r.values == [t.data.address]
               case "AAAA" => t.data.AaaaData? && r.values == [t.data.address]
               case "TXT" => t.data.TxtData? && r.values == t.data.strings
               case _ => false
  {}

  /** They are kept in the order of the transfer. */
  lemma HandledInOrder(list: seq<TransferredRR>) returns (at: seq<nat>)
    ensures |at| == |HandledAll(list)| && forall i, j | 0 <= i < j < |at| :: at[i] < at[j]
    ensures forall i :: i in at <==> 0 <= i < |list| && Handled(list[i]) != None
    ensures forall j | 0 <= j < |at| :: at[j] < |list| && Handled(list[at[j]]) == Some(HandledAll(list)[j])
  {
    hide Handled, HandledAll;
    at := [];
    var rrs: seq<RR> := [];
    NothingHandled(list);
    for n := 0 to |list|
      invariant rrs == HandledAll(list[..n]) && |at| == |rrs|
      invariant forall i, j | 0 <= i < j < |at| :: at[i] < at[j]
      invariant forall i :: i in at <==> 0 <= i < n && Handled(list[i]) != None
      invariant forall j | 0 <= j < |at| :: at[j] < n && Handled(list[at[j]]) == Some(rrs[j])
    {
      HandledStep(list, n);
      if Handled(list[n]).Some? { at, rrs := at + [n], rrs + [Handled(list[n]).value]; }
    }
    assert list[..|list|] == list;
  }

  lemma NothingHandled(list: seq<TransferredRR>)
    ensures HandledAll(list[..0]) == []
  {}

  lemma HandledStep(list: seq<TransferredRR>, n: nat)
    requires n < |list|
    ensures HandledAll(list[..n + 1]) == HandledAll(list[..n]) + match Handled(list[n]) { case Some(r) => [r] case None => [] }
    ensures HandledAll(list[..n]) + [] == HandledAll(list[..n])
  {
    hide Handled;
    assert list[..n + 1][..n] == list[..n];
  }

  function HandledAll(list: seq<TransferredRR>): seq<RR> {
    if list == [] then [] else
    HandledAll(list[..|list| - 1]) + match Handled(list[|list| - 1]) { case Some(r) => [r] case None => [] }
  }

  /** For each record, the sets made so far are scanned for its key; a hit is extended in place
      and the outer loop goes on, otherwise a new set is appended. */
  method GroupByScanning(list: seq<TransferredRR>) returns (records: seq<DnsRecord>)
    ensures records == Groups(HandledAll(list), FirstSeen(HandledAll(list)))
  {
    hide Groups, Group, FirstSeen;
    records := [];
    NoGroups();
    for i := 0 to |list|
      invariant records == Groups(HandledAll(list[..i]), FirstSeen(HandledAll(list[..i])))
    {
      ghost var rrs := HandledAll(list[..i]);
      assert list[..i + 1][..i] == list[..i];
      var handled := Handled(list[i]);
      assert rrs + [] == rrs;
      if handled.None? { continue; }
      var rr := handled.value;
      GroupKeys(rrs);
      records := Extend(records, rr);
      ScanStep(rrs, rr, records);
    }
    assert list[..|list|] == list;
  }

  predicate DistinctKeys(records: seq<DnsRecord>) {
    forall i, j | 0 <= i < j < |records| :: KeyOf(records[i]) != KeyOf(records[j])
  }

  /** The set with the record's key is extended by its values; if there is none, one is added. */
  ghost predicate ExtendsTo(existing: seq<DnsRecord>, rr: RR, records: seq<DnsRecord>) {
    if m :| 0 <= m < |existing| && KeyOf(existing[m]) == KeyOfRR(rr)
    then records == existing[m := existing[m].(records := existing[m].records + rr.values)]
    else records == existing + [DnsRecord(rr.name, rr.values, rr.rtype, rr.ttl)]
  }

  method Extend(existing: seq<DnsRecord>, rr: RR) returns (records: seq<DnsRecord>)
    requires DistinctKeys(existing)
    ensures ExtendsTo(existing, rr, records)
  {
    for idx := 0 to |existing|
      invariant forall i | 0 <= i < idx :: KeyOf(existing[i]) != KeyOfRR(rr)
    {
      var existingRecord := existing[idx];
      if existingRecord.fqdn == rr.name && existingRecord.rtype == rr.rtype {
        assert KeyOf(existing[idx]) == KeyOfRR(rr);
        return existing[idx := existingRecord.(records := existingRecord.records + rr.values)];
      }
    }
    records := existing + [DnsRecord(rr.name, rr.values, rr.rtype, rr.ttl)];
  }

  lemma NoGroups()
    ensures FirstSeen([]) == [] && Groups([], []) == []
  {}

  lemma GroupKeys(rrs: seq<RR>)
    ensures var gs := Groups(rrs, FirstSeen(rrs));
            DistinctKeys(gs) && forall i | 0 <= i < |gs| :: KeyOf(gs[i]) == FirstSeen(rrs)[i]
  {
    hide FirstSeen;
  }

  lemma ScanStep(rrs: seq<RR>, rr: RR, records: seq<DnsRecord>)
    requires ExtendsTo(Groups(rrs, FirstSeen(rrs)), rr, records)
    ensures records == Groups(rrs + [rr], FirstSeen(rrs + [rr]))
  {
    hide FirstSeen, Group, KeysOf;
    var ks, k := FirstSeen(rrs), KeyOfRR(rr);
    var before := Groups(rrs, ks);
    FirstSeenStep(rrs, rr);
    GroupKeys(rrs);
    GroupFields(rrs, k);
    forall i | 0 <= i < |ks| { GroupStep(rrs, rr, ks[i]); }
    GroupStep(rrs, rr, k);
    if k in ks {
      var m :| 0 <= m < |ks| && ks[m] == k;
      assert KeyOf(before[m]) == k;
    }
  }

  // ---- map, then sort ----

  predicate RRKeyLess(a: RRKey, b: RRKey) {
    if a.name == b.name then StrLess(a.rtype, b.rtype) else StrLess(a.name, b.name)
  }

  function RRKeyOrder(): (RRKey, RRKey) -> bool {
    (a, b) => RRKeyLess(a, b)
  }

  lemma RRKeyOrderIsStrict(s: set<RRKey>)
    ensures StrictOrderOn(RRKeyOrder(), s)
  {
    var less := RRKeyOrder();
    forall x | x in s ensures !less(x, x) { StrLessIrreflexive(x.rtype); }
    forall x, y | x in s && y in s && x != y ensures less(x, y) || less(y, x) {
      if x.name == y.name { StrLessTotal(x.rtype, y.rtype); } else { StrLessTotal(x.name, y.name); }
    }
    forall x, y, z | x in s && y in s && z in s && less(x, y) && less(y, z) ensures less(x, z) {
      if x.name == y.name == z.name {
        StrLessTransitive(x.rtype, y.rtype, z.rtype);
      } else if x.name != y.name && y.name != z.name {
        StrLessTransitive(x.name, y.name, z.name);
        StrLessIrreflexive(z.name);
      }
    }
  }

  /** A map from key to group, and the keys sorted by name and then type. */
  method GroupByMap(rrs: seq<RR>) returns (records: seq<DnsRecord>)
    ensures records == Groups(rrs, Listing(RRKeyOrder(), KeysOf(rrs)))
  {
    hide Group, Listing, KeysOf;
    var grouped: map<RRKey, DnsRecord> := map[];
    NoKeys();
    for i := 0 to |rrs|
      invariant IsGrouped(grouped, rrs[..i])
    {
      var current := rrs[i];
      var key := KeyOfRR(current);
      assert rrs[..i + 1] == rrs[..i] + [current];
      MapStep(grouped, rrs[..i], current);
      var record := if key in grouped then grouped[key] else DnsRecord(key.name, [], key.rtype, current.ttl);
      grouped := grouped[key := record.(records := record.records + current.values)];
    }
    assert rrs[..|rrs|] == rrs;
    var keys := SortedGroupKeys(grouped.Keys);
    records := [];
    for i := 0 to |keys|
      invariant records == Groups(rrs, keys[..i])
    {
      assert keys[i] in grouped.Keys;
      records := records + [grouped[keys[i]]];
    }
    assert keys[..|keys|] == keys;
  }

  ghost predicate IsGrouped(grouped: map<RRKey, DnsRecord>, rrs: seq<RR>) {
    grouped.Keys == KeysOf(rrs) && forall k | k in grouped :: grouped[k] == Group(rrs, k)
  }

  lemma NoKeys()
    ensures KeysOf([]) == {}
  {}

  lemma MapStep(grouped: map<RRKey, DnsRecord>, rrs: seq<RR>, r: RR)
    requires IsGrouped(grouped, rrs)
    ensures var key := KeyOfRR(r);
            var record := if key in grouped then grouped[key] else DnsRecord(key.name, [], key.rtype, r.ttl);
            IsGrouped(grouped[key := record.(records := record.records + r.values)], rrs + [r])
  {
    hide Group, KeysOf, FirstSeen, ValuesFor, FirstTtl, KeyOfRR;
    var key := KeyOfRR(r);
    FirstSeenStep(rrs, r);
    GroupFields(rrs, key);
    assert [] + r.values == r.values;
    forall k | k in grouped || k == key { GroupStep(rrs, r, k); }
  }

  lemma GroupFields(rrs: seq<RR>, k: RRKey)
    ensures Group(rrs, k) == DnsRecord(k.name, ValuesFor(rrs, k), k.rtype, FirstTtl(rrs, k))
  {}

  method SortedGroupKeys(all: set<RRKey>) returns (keys: seq<RRKey>)
    ensures keys == Listing(RRKeyOrder(), all)
  {
    hide Sort, Listing, StrictOrderOn;
    keys := [];
    var rest := all;
    while rest != {}
      invariant rest <= all && forall k :: k in keys <==> k in all && k !in rest
      invariant forall i, j | 0 <= i < j < |keys| :: keys[i] != keys[j]
      decreases rest
    {
      var key :| key in rest;
      keys := keys + [key];
      rest := rest - {key};
    }
    assert Elements(keys) == all;
    RRKeyOrderIsStrict(all);
    SortLists(RRKeyOrder(), keys, all);
    ListingLists(RRKeyOrder(), all);
    ListingIsUnique(RRKeyOrder(), Sort(RRKeyOrder(), keys), Listing(RRKeyOrder(), all), all);
    keys := Sort(RRKeyOrder(), keys);
  }

  /** The two ways agree: on the same input the map-and-sort result holds the same sets as the
      scan result, and as many. */
  lemma MapAndScanHoldTheSameSets(rrs: seq<RR>)
    ensures var scan, sorted := Groups(rrs, FirstSeen(rrs)), Groups(rrs, Listing(RRKeyOrder(), KeysOf(rrs)));
            |scan| == |sorted| && forall r :: r in scan <==> r in sorted
  {
    hide Listing, FirstSeen;
    var ks, ls := FirstSeen(rrs), Listing(RRKeyOrder(), KeysOf(rrs));
    var scan, sorted := Groups(rrs, ks), Groups(rrs, ls);
    RRKeyOrderIsStrict(KeysOf(rrs));
    ListingLists(RRKeyOrder(), KeysOf(rrs));
    forall r ensures r in scan <==> r in sorted {
      if r in scan {
        var i :| 0 <= i < |ks| && scan[i] == r;
        assert ks[i] in ls;
        var j :| 0 <= j < |ls| && ls[j] == ks[i];
        assert sorted[j] == r;
      }
      if r in sorted {
        var j :| 0 <= j < |ls| && sorted[j] == r;
        assert ls[j] in ks;
        var i :| 0 <= i < |ks| && ks[i] == ls[j];
        assert scan[i] == r;
      }
    }
    forall i, j | 0 <= i < j < |ls| ensures ls[i] != ls[j] {
      assert RRKeyOrder()(ls[i], ls[j]) && ls[i] in KeysOf(rrs);
    }
    SameLength(ks, ls);
  }

  /** And it is in strictly ascending order of name and type, so each key occurs once. */
  lemma MapResultAscends(rrs: seq<RR>)
    ensures var sorted := Groups(rrs, Listing(RRKeyOrder(), KeysOf(rrs)));
            forall i, j | 0 <= i < j < |sorted| ::
              StrLess(sorted[i].fqdn, sorted[j].fqdn) ||
              (sorted[i].fqdn == sorted[j].fqdn && StrLess(sorted[i].rtype, sorted[j].rtype))
  {
    hide Listing;
    var ls := Listing(RRKeyOrder(), KeysOf(rrs));
    RRKeyOrderIsStrict(KeysOf(rrs));
    ListingLists(RRKeyOrder(), KeysOf(rrs));
    forall i, j | 0 <= i < j < |ls| ensures RRKeyLess(ls[i], ls[j]) {
      assert RRKeyOrder()(ls[i], ls[j]);
    }
  }

  lemma {:induction false} SameLength(xs: seq<RRKey>, ys: seq<RRKey>)
    requires forall k :: k in xs <==> k in ys
    requires forall i, j | 0 <= i < j < |xs| :: xs[i] != xs[j]
    requires forall i, j | 0 <= i < j < |ys| :: ys[i] != ys[j]
    ensures |xs| == |ys|
    decreases |xs|
  {
    assert ys != [] ==> ys[0] in xs;
    if xs != [] {
      assert xs[0] in ys;
      var m :| 0 <= m < |ys| && ys[m] == xs[0];
      var xs', ys' := xs[1..], ys[..m] + ys[m + 1..];
      forall k ensures k in xs' <==> k in ys' {
        assert k in xs <==> k == xs[0] || k in xs';
        assert k in ys <==> k in ys[..m] || k == ys[m] || k in ys[m + 1..];
      }
      SameLength(xs', ys');
    }
  }

  // ---- conservation ----

  /** The values of one record, tagged with its key. */
  ghost function Tagged(k: RRKey, values: seq<string>): multiset<(RRKey, string)> {
    if values == [] then multiset{} else Tagged(k, values[1..]) + multiset{(k, values[0])}
  }

  ghost function TriplesOfRRs(rrs: seq<RR>): multiset<(RRKey, string)> {
    if rrs == [] then multiset{} else
    TriplesOfRRs(rrs[..|rrs| - 1]) + Tagged(KeyOfRR(rrs[|rrs| - 1]), rrs[|rrs| - 1].values)
  }

  ghost function TriplesOfSets(recs: seq<DnsRecord>): multiset<(RRKey, string)> {
    if recs == [] then multiset{} else TriplesOfSets(recs[1..]) + Tagged(KeyOf(recs[0]), recs[0].records)
  }

  lemma {:induction false} TaggedCount(k: RRKey, values: seq<string>, j: RRKey, v: string)
    ensures Tagged(k, values)[(j, v)] == if j == k then multiset(values)[v] else 0
    decreases |values|
  {
    if values != [] {
      TaggedCount(k, values[1..], j, v);
      assert values == [values[0]] + values[1..];
    }
  }

  lemma {:induction false} RRCount(rrs: seq<RR>, k: RRKey, v: string)
    ensures TriplesOfRRs(rrs)[(k, v)] == multiset(ValuesFor(rrs, k))[v]
    decreases |rrs|
  {
    if rrs != [] {
      var r := rrs[|rrs| - 1];
      RRCount(rrs[..|rrs| - 1], k, v);
      TaggedCount(KeyOfRR(r), r.values, k, v);
    }
  }

  lemma {:induction false} GroupsCount(rrs: seq<RR>, ks: seq<RRKey>, k: RRKey, v: string)
    requires forall i, j | 0 <= i < j < |ks| :: ks[i] != ks[j]
    ensures TriplesOfSets(Groups(rrs, ks))[(k, v)] == if k in ks then multiset(ValuesFor(rrs, k))[v] else 0
    decreases |ks|
  {
    hide ValuesFor, FirstTtl, Tagged;
    if ks != [] {
      GroupsCount(rrs, ks[1..], k, v);
      assert Groups(rrs, ks)[1..] == Groups(rrs, ks[1..]);
      TaggedCount(ks[0], ValuesFor(rrs, ks[0]), k, v);
      assert ks == [ks[0]] + ks[1..];
    }
  }

  /** Grouping loses and invents nothing: under any listing of the keys, each once, the
      multiset of (name, type, value) is that of the input. */
  lemma GroupingConservesRecords(rrs: seq<RR>, ks: seq<RRKey>)
    requires forall k :: k in ks <==> k in KeysOf(rrs)
    requires forall i, j | 0 <= i < j < |ks| :: ks[i] != ks[j]
    ensures TriplesOfSets(Groups(rrs, ks)) == TriplesOfRRs(rrs)
  {
    forall p: (RRKey, string) ensures TriplesOfSets(Groups(rrs, ks))[p] == TriplesOfRRs(rrs)[p] {
      GroupsCount(rrs, ks, p.0, p.1);
      RRCount(rrs, p.0, p.1);
      if p.0 !in ks { NoValues(rrs, p.0); }
    }
  }
}
