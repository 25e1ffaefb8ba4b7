/** The AliDNS adapter: page-number paging, name mapping, and an update that removes record by
    record before it adds record by record (providers/alidns/alidns.go). */
module AliDns {
  import opened Records
  import opened Ordering
  import opened Naming
  import opened Zones
  import opened Grouping

  /** One record as the API returns it; any field may be missing. A blank ID counts as missing. */
  datatype ApiRecord = ApiRecord(id: Option<nat>, rr: Option<string>, rtype: Option<string>,
                                 value: Option<string>, ttl: Option<int>)

  const PAGE_SIZE: nat := 500

  // ---- names ----

  predicate IsSpace(c: char) {
    c in {' ', '\t', '\n', '\r'} || c as int == 11 || c as int == 12
  }

  function TrimSpaceLeft(s: string): string {
    if s != "" && IsSpace(s[0]) then TrimSpaceLeft(s[1..]) else s
  }

  function TrimSpaceRight(s: string): string {
    if s != "" && IsSpace(s[|s| - 1]) then TrimSpaceRight(s[..|s| - 1]) else s
  }

  function TrimSpace(s: string): string {
    TrimSpaceRight(TrimSpaceLeft(s))
  }

  /** Trimming cuts off all blanks at both ends and nothing else. */
  lemma {:induction false} TrimSpaceShape(s: string) returns (from: nat, to: nat)
    ensures from <= to <= |s| && TrimSpace(s) == s[from..to]
    ensures forall i | 0 <= i < from || to <= i < |s| :: s[i] == ' ' || 9 <= s[i] as int <= 13
    ensures from < to ==> s[from] != ' ' && !(9 <= s[from] as int <= 13) && s[to - 1] != ' ' && !(9 <= s[to - 1] as int <= 13)
    decreases |s|
  {
    if s != "" && IsSpace(s[0]) {
      from, to := TrimSpaceShape(s[1..]);
      from, to := from + 1, to + 1;
    } else {
      from := 0;
      to := TrimSpaceRightShape(s);
    }
  }

  lemma {:induction false} TrimSpaceRightShape(s: string) returns (to: nat)
    ensures to <= |s| && TrimSpaceRight(s) == s[..to]
    ensures forall i | to <= i < |s| :: IsSpace(s[i])
    ensures to > 0 ==> !IsSpace(s[to - 1])
    decreases |s|
  {
    to := |s|;
    if s != "" && IsSpace(s[|s| - 1]) {
      to := TrimSpaceRightShape(s[..|s| - 1]);
      assert forall i | to <= i < |s| - 1 :: s[i] == s[..|s| - 1][i];
    }
  }

  /** The full name of a record inside the zone. */
  function FqdnOf(root: string, rr: string): string {
    var name := TrimSpace(rr);
    if name == "" || name == "@" then root + "." else name + "." + root + "."
  }

  /** The in-zone part of a full name; a name outside the zone has none. */
  function ParseName(root: string, fqdn: string): Option<string> {
    var name := UnFqdn(fqdn);
    if name == root then Some("@")
    else if !HasSuffix(name, "." + root) then None
    else
      var rr := name[..|name| - |root| - 1];
      if rr == "" then Some("@") else Some(rr)
  }

  /** The name a record is read with leads back to its trimmed label, which is the label itself
      exactly when that is not empty and has no blanks around it. */
  lemma NameRoundTrip(root: string, rr: string)
    ensures ParseName(root, FqdnOf(root, rr)) == Some(if TrimSpace(rr) == "" then "@" else TrimSpace(rr))
    ensures ParseName(root, FqdnOf(root, rr)) == Some(rr) <==> rr != "" && TrimSpace(rr) == rr
  {
    var name := TrimSpace(rr);
    var fqdn := FqdnOf(root, rr);
    if name == "" || name == "@" {
      assert fqdn[..|fqdn| - 1] == root;
    } else {
      var inZone := name + "." + root;
      assert fqdn == inZone + "." && fqdn[..|fqdn| - 1] == inZone;
      assert inZone == name + ("." + root);
      assert |inZone| > |root|;
    }
  }

  /** So a change addresses the record that was read, under the name it was read with, exactly when
      its label is not empty and has no blanks around it. Of any other the removal finds nothing. */
  lemma ReadRecordIsAddressedIff(root: string, r: ApiRecord, rtype: string)
    requires r.rr.Some? && r.rtype == Some(rtype)
    ensures ParseName(root, FqdnOf(root, r.rr.value)).Some?
    ensures Matches(r, ParseName(root, FqdnOf(root, r.rr.value)).value, rtype) <==>
            r.rr.value != "" && TrimSpace(r.rr.value) == r.rr.value
  {
    NameRoundTrip(root, r.rr.value);
  }

  /** Exactly the names of the zone are accepted: the apex and what ends in a dot and the zone. */
  lemma ParseNameAcceptsZoneOnly(root: string, fqdn: string)
    ensures ParseName(root, fqdn).Some? <==>
            UnFqdn(fqdn) == root || exists rr :: UnFqdn(fqdn) == rr + ("." + root)
  {
    var name := UnFqdn(fqdn);
    if HasSuffix(name, "." + root) {
      assert name == name[..|name| - |root| - 1] + ("." + root);
    }
    if rr :| name == rr + ("." + root) {
      assert name[|name| - |"." + root|..] == "." + root;
    }
  }

  /** An accepted name, less its trailing dot, parses to what stands before the zone, and to "@" if
      nothing does. */
  lemma ParsedNameIs(root: string, fqdn: string, rr: string)
    ensures ParseName(root, fqdn) == Some(rr) <==>
            var name := UnFqdn(fqdn);
            if name == root || name == "." + root then rr == "@" else rr != "" && name == rr + "." + root
  {
    var name := UnFqdn(fqdn);
    var suffix := "." + root;
    if HasSuffix(name, suffix) {
      var front := name[..|name| - |suffix|];
      assert name == front + suffix == front + "." + root;
      if name == rr + "." + root { assert rr == name[..|rr|] && |rr| == |front|; }
    }
    if name == rr + "." + root { assert name[|rr|..] == suffix; }
  }

  // ---- scripts ----

  /** The fates left after n calls. */
  function Skip(script: seq<Fate>, n: nat): seq<Fate> {
    if n <= |script| then script[n..] else []
  }

  predicate AllComplete(script: seq<Fate>) {
    forall f | f in script :: f == Completes
  }

  /** How many of a number of calls take effect when the first error ends them. */
  function Applied(script: seq<Fate>, calls: nat): (r: nat)
    ensures r <= calls
  {
    if calls == 0 then 0 else
    match NextFate(script)
    case Completes => 1 + Applied(Later(script), calls - 1)
    case LostReply => 1
    case Refused => 0
  }

  lemma SmoothLater(script: seq<Fate>, n: nat)
    requires n > 0
    ensures Smooth(script, n) <==> NextFate(script) == Completes && Smooth(Later(script), n - 1)
  {
    if NextFate(script) == Completes && Smooth(Later(script), n - 1) {
      forall i | 0 <= i < n && i < |script| ensures script[i] == Completes {
        if i > 0 { assert Later(script)[i - 1] == script[i]; }
      }
    }
    if Smooth(script, n) {
      forall i | 0 <= i < n - 1 && i < |Later(script)| ensures Later(script)[i] == Completes {
        assert script[i + 1] == Completes;
      }
    }
  }

  lemma SkipOne(script: seq<Fate>, n: nat)
    ensures Skip(script, 0) == script && Smooth(script, 0)
    ensures Later(Skip(script, n)) == Skip(script, n + 1) == Skip(Later(script), n)
  {}

  lemma {:induction false} AppliedAfter(script: seq<Fate>, n: nat, calls: nat)
    requires Smooth(script, n) && n <= calls
    ensures Applied(script, calls) == n + Applied(Skip(script, n), calls - n)
    ensures Smooth(script, calls) <==> Smooth(Skip(script, n), calls - n)
    decreases n
  {
    hide Smooth, Skip, Later;
    SkipOne(script, 0);
    if n > 0 {
      SmoothLater(script, n);
      SmoothLater(script, calls);
      SkipOne(script, n - 1);
      AppliedAfter(Later(script), n - 1, calls - 1);
    }
  }

  /** One more call after n that completed. */
  lemma OneMore(script: seq<Fate>, n: nat)
    requires Smooth(script, n)
    ensures Later(Skip(script, n)) == Skip(script, n + 1)
    ensures Smooth(script, n + 1) <==> NextFate(Skip(script, n)) == Completes
  {
    hide Smooth, Skip, Later;
    SkipOne(script, n);
    SkipOne(Later(Skip(script, n)), 0);
    AppliedAfter(script, n, n + 1);
    SmoothLater(Skip(script, n), 1);
  }

  /** A run of calls that met its first error at call n. */
  lemma StoppedAt(script: seq<Fate>, n: nat, calls: nat)
    requires Smooth(script, n) && n < calls && NextFate(Skip(script, n)) != Completes
    ensures !Smooth(script, calls)
    ensures Applied(script, calls) == n + if NextFate(Skip(script, n)) == Refused then 0 else 1
  {
    hide Smooth, Skip, Later;
    AppliedAfter(script, n, calls);
    SmoothLater(Skip(script, n), calls - n);
  }

  lemma CompleteIsSmooth(script: seq<Fate>, n: nat)
    requires AllComplete(script)
    ensures Smooth(script, n) && AllComplete(Skip(script, n))
  {
    assert forall i | 0 <= i < |script| :: script[i] in script;
  }

  // ---- the server ----

  datatype Response = Response(records: seq<ApiRecord>, totalCount: Option<nat>)

  predicate Matches(r: ApiRecord, name: string, rtype: string) {
    r.rr == Some(name) && r.rtype == Some(rtype)
  }

  function Matching(rs: seq<ApiRecord>, name: string, rtype: string): seq<ApiRecord> {
    if rs == [] then [] else
    Matching(rs[..|rs| - 1], name, rtype) + if Matches(rs[|rs| - 1], name, rtype) then [rs[|rs| - 1]] else []
  }

  /** The records outside one record set. */
  function Others(rs: seq<ApiRecord>, name: string, rtype: string): seq<ApiRecord> {
    if rs == [] then [] else
    Others(rs[..|rs| - 1], name, rtype) + if Matches(rs[|rs| - 1], name, rtype) then [] else [rs[|rs| - 1]]
  }

  function WithoutId(rs: seq<ApiRecord>, id: nat): seq<ApiRecord> {
    if rs == [] then [] else
    WithoutId(rs[..|rs| - 1], id) + if rs[|rs| - 1].id == Some(id) then [] else [rs[|rs| - 1]]
  }

  ghost predicate UniqueIds(rs: seq<ApiRecord>, next: nat) {
    && (forall i, j | 0 <= i < j < |rs| && rs[i].id.Some? :: rs[i].id != rs[j].id)
    && (forall r | r in rs && r.id.Some? :: r.id.value < next)
  }

  function PageStart(pageNumber: nat, size: nat): nat {
    if pageNumber <= 1 then 0 else PageStart(pageNumber - 1, size) + size
  }

  /** The listing ends with this page: with a total, when that is reached; without, when the page
      is not full. */
  predicate LastPage(total: nat, size: nat, reportsTotal: bool, pageNumber: nat) {
    if reportsTotal then PageStart(pageNumber + 1, size) >= total
    else size < PAGE_SIZE || PageStart(pageNumber + 1, size) > total
  }

  /** The number of the last page, from one that is reached. */
  function ListingCalls(total: nat, size: nat, reportsTotal: bool, pageNumber: nat): (n: nat)
    requires size > 0 && pageNumber > 0
    ensures n >= pageNumber
    decreases total + 1 - PageStart(pageNumber, size)
  {
    if LastPage(total, size, reportsTotal, pageNumber) then pageNumber
    else ListingCalls(total, size, reportsTotal, pageNumber + 1)
  }

  lemma NextPage(total: nat, size: nat, reportsTotal: bool, n: nat)
    requires size > 0 && n > 0
    ensures ListingCalls(total, size, reportsTotal, n) ==
            if LastPage(total, size, reportsTotal, n) then n else ListingCalls(total, size, reportsTotal, n + 1)
  {}

  function UpTo(rs: seq<ApiRecord>, end: nat): seq<ApiRecord> {
    if end < |rs| then rs[..end] else rs
  }

  function PageOf(rs: seq<ApiRecord>, size: nat, pageNumber: nat): seq<ApiRecord> {
    var from := PageStart(pageNumber, size);
    if from >= |rs| then [] else UpTo(rs[from..], size)
  }

  lemma ReadPage(rs: seq<ApiRecord>, cap: nat, size: nat, reportsTotal: bool, n: nat)
    requires cap > 0 && size == (if cap < PAGE_SIZE then cap else PAGE_SIZE) && n > 0
    requires n == 1 || !LastPage(|rs|, size, reportsTotal, n - 1)
    ensures UpTo(rs, PageStart(n, size)) + PageOf(rs, size, n) == UpTo(rs, PageStart(n + 1, size))
    ensures PageStart(n, size) <= |rs| && PageStart(n + 1, size) == PageStart(n, size) + size
    ensures LastPage(|rs|, size, reportsTotal, n) <==>
            if reportsTotal then |UpTo(rs, PageStart(n + 1, size))| >= |rs| else |PageOf(rs, size, n)| < PAGE_SIZE
    ensures LastPage(|rs|, size, reportsTotal, n) ==>
              UpTo(rs, PageStart(n + 1, size)) == if reportsTotal || cap >= PAGE_SIZE then rs else UpTo(rs, cap)
    ensures reportsTotal && !LastPage(|rs|, size, reportsTotal, n) ==> PageOf(rs, size, n) != []
  {
    assert n > 1 ==> PageStart(n, size) == PageStart(n - 1, size) + size;
  }

  /** The zone behind the API. It serves pages of at most pageCap records and may or may not
      say how many there are in all. */
  class AliServer {
    var records: seq<ApiRecord>
    var script: seq<Fate>
    var nextId: nat
    const reportsTotal: bool
    const pageCap: nat

    ghost predicate Valid()
      reads this
    {
      pageCap > 0 && UniqueIds(records, nextId)
    }

    /** The calls that a complete listing takes. */
    function Pages(): nat
      requires pageCap > 0
      reads this
    {
      ListingCalls(|records|, Size(), reportsTotal, 1)
    }

    function Size(): nat {
      if pageCap < PAGE_SIZE then pageCap else PAGE_SIZE
    }

    constructor (reportsTotal: bool, pageCap: nat)
      requires pageCap > 0
      ensures Valid() && records == [] && this.reportsTotal == reportsTotal && this.pageCap == pageCap
    {
      records, script, nextId := [], [], 0;
      this.reportsTotal, this.pageCap := reportsTotal, pageCap;
    }

    method DescribeDomainRecords(pageNumber: nat) returns (response: Response, err: bool)
      requires Valid() && pageNumber > 0
      modifies this`script
      ensures script == Later(old(script)) && err == (NextFate(old(script)) != Completes)
      ensures !err ==>
                && response.records == PageOf(records, Size(), pageNumber)
                && response.totalCount == if reportsTotal then Some(|records|) else None
    {
      err := NextFate(script) != Completes;
      script := Later(script);
      var from := PageStart(pageNumber, Size());
      var to := if from + Size() < |records| then from + Size() else |records|;
      response := Response(if from >= |records| then [] else records[from..to],
                           if reportsTotal then Some(|records|) else None);
    }

    method AddDomainRecord(rr: string, rtype: string, value: string, ttl: int) returns (err: bool)
      requires Valid()
      modifies this
      ensures Valid() && script == Later(old(script)) && err == (NextFate(old(script)) != Completes)
      ensures records == if NextFate(old(script)) == Refused then old(records)
                         else old(records) + [ApiRecord(Some(old(nextId)), Some(rr), Some(rtype), Some(value), Some(ttl))]
    {
      var fate := NextFate(script);
      script := Later(script);
      if fate != Refused {
        records := records + [ApiRecord(Some(nextId), Some(rr), Some(rtype), Some(value), Some(ttl))];
        nextId := nextId + 1;
      }
      err := fate != Completes;
    }

    method DeleteDomainRecord(id: nat) returns (err: bool)
      requires Valid()
      modifies this
      ensures Valid() && script == Later(old(script)) && err == (NextFate(old(script)) != Completes)
      ensures records == if NextFate(old(script)) == Refused then old(records) else WithoutId(old(records), id)
    {
      var fate := NextFate(script);
      script := Later(script);
      if fate != Refused {
        RemovalKeepsIdsUnique(records, id, nextId);
        records := WithoutId(records, id);
      }
      err := fate != Completes;
    }
  }

  lemma {:induction false} RemovalKeepsIdsUnique(rs: seq<ApiRecord>, id: nat, next: nat)
    requires UniqueIds(rs, next)
    ensures UniqueIds(WithoutId(rs, id), next)
    decreases |rs|
  {
    if rs != [] {
      var front, last := rs[..|rs| - 1], rs[|rs| - 1];
      assert rs == front + [last];
      RemovalKeepsIdsUnique(front, id, next);
      WithoutIdMembers(front, id);
      var kept := WithoutId(front, id);
      forall i | 0 <= i < |kept| && kept[i].id.Some? ensures kept[i].id != last.id {
        assert kept[i] in front;
        var j :| 0 <= j < |front| && front[j] == kept[i];
        assert rs[j] == kept[i];
      }
    }
  }

  predicate AllHaveIds(rs: seq<ApiRecord>) {
    forall r | r in rs :: r.id.Some?
  }

  class AlidnsProvider {
    const server: AliServer
    const rootDomainName: string

    constructor (server: AliServer, rootDomainName: string)
      ensures this.server == server && this.rootDomainName == rootDomainName
    {
      this.server, this.rootDomainName := server, rootDomainName;
    }

    /** Reads page after page. With a total, or full pages, every record is collected exactly
        once in server order; a server that serves shorter pages and gives no total is read
        only as far as its first page. */
    method ListRecords() returns (all: seq<ApiRecord>, err: bool)
      requires server.Valid()
      modifies server`script
      ensures server.records == old(server.records) && server.nextId == old(server.nextId)
      ensures AllComplete(old(server.script)) ==> !err && AllComplete(server.script)
      ensures err == !Smooth(old(server.script), server.Pages())
      ensures !err ==> server.script == Skip(old(server.script), server.Pages())
      ensures err ==> all == []
      ensures !err ==> all == if server.reportsTotal || server.pageCap >= 500 then server.records
                              else UpTo(server.records, server.pageCap)
    {
      hide UniqueIds, Smooth, Skip, Later, AllComplete, ListingCalls, LastPage, PageOf;
      SkipOne(server.script, 0);
      if AllComplete(server.script) { CompleteIsSmooth(server.script, server.Pages()); }
      all := [];
      var pageNumber := 1;
      err := false;
      ghost var rs, size := server.records, server.Size();
      while true
        invariant pageNumber >= 1 && all == UpTo(rs, PageStart(pageNumber, size))
        invariant pageNumber == 1 || !LastPage(|rs|, size, server.reportsTotal, pageNumber - 1)
        invariant server.Pages() == ListingCalls(|rs|, size, server.reportsTotal, pageNumber)
        invariant !err && Smooth(old(server.script), pageNumber - 1)
        invariant server.script == Skip(old(server.script), pageNumber - 1)
        decreases |rs| + 1 - PageStart(pageNumber, size)
      {
        ghost var n := pageNumber;
        ReadPage(rs, server.pageCap, size, server.reportsTotal, n);
        NextPage(|rs|, size, server.reportsTotal, n);
        OneMore(old(server.script), n - 1);
        if NextFate(server.script) != Completes { StoppedAt(old(server.script), n - 1, server.Pages()); }
        var response;
        response, err := server.DescribeDomainRecords(pageNumber);
        if err { return [], true; }
        all := all + response.records;
        if response.totalCount.Some? {
          if |all| >= response.totalCount.value { break; }
          if |response.records| == 0 { return [], true; }
        } else if |response.records| < PAGE_SIZE {
          break;
        }
        pageNumber := pageNumber + 1;
      }
    }

    /** The records of the name and type that the given record addresses. */
    method FindRecords(record: DnsRecord) returns (matching: seq<ApiRecord>, err: bool)
      requires server.Valid()
      modifies server`script
      ensures server.records == old(server.records) && server.nextId == old(server.nextId)
      ensures err == (!Smooth(old(server.script), server.Pages()) || ParseName(rootDomainName, record.fqdn).None?)
      ensures !err ==> server.script == Skip(old(server.script), server.Pages())
      ensures AllComplete(old(server.script)) ==> AllComplete(server.script)
      ensures AllComplete(old(server.script)) && ParseName(rootDomainName, record.fqdn).Some? ==> !err
      ensures !err ==> ParseName(rootDomainName, record.fqdn).Some?
      ensures !err ==>
                var listed := if ListsAll() then server.records else UpTo(server.records, server.pageCap);
                matching == Matching(listed, ParseName(rootDomainName, record.fqdn).value, record.rtype)
      ensures forall r | r in matching ::
                r in server.records && Matches(r, ParseName(rootDomainName, record.fqdn).GetOr(""), record.rtype)
    {
      matching := [];
      var records;
      records, err := ListRecords();
      if err { return; }
      var name := ParseName(rootDomainName, record.fqdn);
      if name.None? { return [], true; }
      for i := 0 to |records|
        invariant matching == Matching(records[..i], name.value, record.rtype)
        invariant forall r | r in matching :: r in server.records && Matches(r, name.value, record.rtype)
      {
        assert records[..i + 1][..i] == records[..i];
        var current := records[i];
        if current.rr.Some? && current.rtype.Some? && current.rr.value == name.value && current.rtype.value == record.rtype {
          matching := matching + [current];
        }
      }
      assert records[..|records|] == records;
    }

    /** Deletes the addressed records one by one; it stops at a record without an ID. With
        complete listings the script decides where it stops, and what is left of the addressed
        set is its tail. */
    method RemoveRecord(record: DnsRecord) returns (err: bool, ghost removed: nat)
      requires server.Valid()
      modifies server
      ensures server.Valid()
      ensures var name := ParseName(rootDomainName, record.fqdn);
              && (name.None? ==> err && server.records == old(server.records))
              && (name.Some? ==> Others(server.records, name.value, record.rtype) == Others(old(server.records), name.value, record.rtype))
              && (!err && ListsAll() ==> server.records == Others(old(server.records), name.value, record.rtype))
      ensures AllComplete(old(server.script)) ==> AllComplete(server.script)
      ensures (AllComplete(old(server.script)) && ParseName(rootDomainName, record.fqdn).Some? && AllHaveIds(old(server.records)))
                ==> !err
      ensures var name, calls := ParseName(rootDomainName, record.fqdn), old(server.Pages());
              name.Some? && ListsAll() ==>
                var listed := Matching(old(server.records), name.value, record.rtype);
                && removed <= |listed| && Matching(server.records, name.value, record.rtype) == listed[removed..]
                && (removed, err) == RemovalOutcome(old(server.script), calls, listed)
                && (!err ==> server.script == Skip(old(server.script), calls + |listed|))
    {
      hide UniqueIds, Removing, WithoutId, ParseName, Smooth, Skip, Later, AllComplete, Others, Matching, Deletable, AllHaveIds;
      var matching;
      removed := 0;
      ghost var before, next, script, calls := server.records, server.nextId, server.script, server.Pages();
      matching, err := FindRecords(record);
      if err { return; }
      ghost var name, rtype, listed := ParseName(rootDomainName, record.fqdn).value, record.rtype, server.script;
      StartRemoving(before, matching, name, rtype, ListsAll());
      SkipOne(listed, 0);
      for i := 0 to |matching|
        invariant server.Valid() && removed == i
        invariant Removing(before, server.records, matching[i..], name, rtype, ListsAll())
        invariant Smooth(listed, i) && server.script == Skip(listed, i)
        invariant Deletable(matching) == i + Deletable(matching[i..])
        invariant ListsAll() ==> Matching(server.records, name, rtype) == matching[i..]
      {
        var current := matching[i];
        assert current in matching;
        assert matching[i..][0] == current && matching[i..][1..] == matching[i + 1..];
        KeepRemoving(before, next, server.records, matching[i..], name, rtype, ListsAll());
        DeletableHead(matching[i..]);
        OneMore(listed, i);
        if current.id.None? {
          if AllHaveIds(before) { AllDeletable(before, matching); }
          AppliedAfter(listed, i, i);
          if AllComplete(script) { CompleteIsSmooth(listed, i); }
          return true, removed;
        }
        if ListsAll() { MatchingWithoutFirst(server.records, server.nextId, current.id.value, name, rtype); }
        if NextFate(server.script) != Completes { StoppedAt(listed, i, Deletable(matching)); }
        err := server.DeleteDomainRecord(current.id.value);
        if NextFate(Skip(listed, i)) != Refused { removed := i + 1; }
        if err {
          if AllComplete(script) { CompleteIsSmooth(listed, Deletable(matching)); }
          return;
        }
      }
      assert matching[|matching|..] == [];
      DeletableNothing();
      AppliedAfter(listed, |matching|, |matching|);
      if AllComplete(script) { CompleteIsSmooth(listed, |matching|); }
      SkipTwice(script, calls, |matching|);
      DoneRemoving(before, server.records, name, rtype, ListsAll());
    }

    /** Every listing is complete: see ListRecords. */
    predicate ListsAll() {
      server.reportsTotal || server.pageCap >= 500
    }

    /** Adds the values one by one; the TTL and the name are checked before each. */
    method AddRecord(record: DnsRecord) returns (err: bool, ghost added: seq<ApiRecord>)
      requires server.Valid()
      modifies server
      ensures server.Valid()
      ensures server.records == old(server.records) + added && |added| <= |record.records|
      ensures added != [] ==> record.ttl > 0 && ParseName(rootDomainName, record.fqdn).Some?
      ensures AreFor(added, ParseName(rootDomainName, record.fqdn).GetOr(""), record)
      ensures !err ==> |added| == |record.records|
      ensures ParseName(rootDomainName, record.fqdn).Some? ==>
                (|added|, err) == AdditionOutcome(old(server.script), record.ttl, |record.records|)
    {
      hide UniqueIds, ParseName, Smooth, Skip, Later;
      added, err := [], false;
      ghost var script, n := server.script, |record.records|;
      SkipOne(script, 0);
      for i := 0 to |record.records|
        invariant server.Valid() && |added| == i && !err
        invariant server.records == old(server.records) + added
        invariant added != [] ==> record.ttl > 0 && ParseName(rootDomainName, record.fqdn).Some?
        invariant AreFor(added, ParseName(rootDomainName, record.fqdn).GetOr(""), record)
        invariant Smooth(script, i) && server.script == Skip(script, i)
      {
        if record.ttl <= 0 { return true, added; }
        var rr := ParseName(rootDomainName, record.fqdn);
        if rr.None? { return true, added; }
        OneMore(script, i);
        if NextFate(server.script) != Completes { StoppedAt(script, i, n); }
        ghost var id, fate := server.nextId, NextFate(server.script);
        err := server.AddDomainRecord(rr.value, record.rtype, record.records[i], record.ttl);
        if fate != Refused {
          added := added + [ApiRecord(Some(id), Some(rr.value), Some(record.rtype), Some(record.records[i]), Some(record.ttl))];
        }
        if err { return; }
      }
      AppliedAfter(script, n, n);
    }

    /** Removal and then addition. Whatever fails, every other record set is left alone, and what
        the addressed set holds is a tail of the old records or a prefix of the new values; the
        script decides which. */
    method UpdateRecord(record: DnsRecord) returns (err: bool, ghost removed: nat, ghost added: seq<ApiRecord>)
      requires server.Valid()
      modifies server
      ensures server.Valid()
      ensures var name := ParseName(rootDomainName, record.fqdn);
              && (name.None? ==> err && server.records == old(server.records))
              && (name.Some? ==> Others(server.records, name.value, record.rtype) == Others(old(server.records), name.value, record.rtype))
              && (!err && ListsAll() ==>
                    && server.records == Others(old(server.records), name.value, record.rtype) + added
                    && Matching(server.records, name.value, record.rtype) == added
                    && |added| == |record.records| && AreFor(added, name.value, record))
      ensures (AllComplete(old(server.script)) && ParseName(rootDomainName, record.fqdn).Some? && AllHaveIds(old(server.records)))
                ==>
                && (err <==> record.ttl <= 0 && record.records != [])
                && (err && ListsAll() ==> Matching(server.records, ParseName(rootDomainName, record.fqdn).value, record.rtype) == [])
      ensures var name := ParseName(rootDomainName, record.fqdn);
              name.Some? && ListsAll() ==>
                var listed := Matching(old(server.records), name.value, record.rtype);
                && removed <= |listed| && AreFor(added, name.value, record)
                && Matching(server.records, name.value, record.rtype) == listed[removed..] + added
                && UpdateOutcome(old(server.script), old(server.Pages()), listed, record.ttl, |record.records|)
                   == Outcome(removed, |added|, err)
    {
      hide UniqueIds, ParseName, Smooth, Skip, Later, AllComplete, Others, Matching, AllHaveIds, Applied, Deletable;
      added := [];
      ghost var before, script := server.records, server.script;
      err, removed := RemoveRecord(record);
      if err {
        if ParseName(rootDomainName, record.fqdn).Some? && ListsAll() {
          NothingAppended(Matching(before, ParseName(rootDomainName, record.fqdn).value, record.rtype)[removed..]);
        }
        return;
      }
      ghost var rest, name, left := server.records, ParseName(rootDomainName, record.fqdn).value, server.script;
      OthersDoNotMatch(before, name, record.rtype);
      err, added := AddRecord(record);
      OthersAppend(rest, added, name, record.rtype);
      if AllComplete(script) { CompleteIsSmooth(left, |record.records|); }
      if added == [] { assert rest + added == rest; }
    }
  }

  /** These records hold the first values of the record, in order, with its name, type and TTL. */
  ghost predicate AreFor(added: seq<ApiRecord>, name: string, record: DnsRecord) {
    |added| <= |record.records| && forall i | 0 <= i < |added| ::
      && Matches(added[i], name, record.rtype)
      && added[i].value == Some(record.records[i]) && added[i].ttl == Some(record.ttl)
  }

  /** The addressed records are those with this name and this type. */
  lemma {:induction false} MatchingMembers(rs: seq<ApiRecord>, name: string, rtype: string)
    ensures forall r :: r in Matching(rs, name, rtype) <==> r in rs && r.rr == Some(name) && r.rtype == Some(rtype)
    ensures forall r :: r in Others(rs, name, rtype) <==> r in rs && !(r.rr == Some(name) && r.rtype == Some(rtype))
    decreases |rs|
  {
    if rs != [] {
      MatchingMembers(rs[..|rs| - 1], name, rtype);
      assert rs == rs[..|rs| - 1] + [rs[|rs| - 1]];
    }
  }

  // ---- how far an update gets ----

  /** How many records come before the first one without an ID. */
  function Deletable(rs: seq<ApiRecord>): (n: nat)
    ensures n <= |rs|
  {
    if rs == [] || rs[0].id.None? then 0 else 1 + Deletable(rs[1..])
  }

  /** The records removed, and whether the removal fails: the listing, then one call a record. */
  ghost function RemovalOutcome(script: seq<Fate>, calls: nat, listed: seq<ApiRecord>): (nat, bool) {
    var rest, n := Skip(script, calls), Deletable(listed);
    if !Smooth(script, calls) then (0, true) else (Applied(rest, n), !Smooth(rest, n) || n < |listed|)
  }

  /** The values added, and whether the addition fails. */
  ghost function AdditionOutcome(script: seq<Fate>, ttl: int, values: nat): (nat, bool) {
    if ttl <= 0 then (0, values > 0) else (Applied(script, values), !Smooth(script, values))
  }

  datatype Outcome = Outcome(removed: nat, added: nat, err: bool)

  /** How far an update gets under a script. */
  ghost function UpdateOutcome(script: seq<Fate>, calls: nat, listed: seq<ApiRecord>, ttl: int, values: nat): Outcome {
    var (removed, failed) := RemovalOutcome(script, calls, listed);
    if failed then Outcome(removed, 0, true) else
    var (added, err) := AdditionOutcome(Skip(script, calls + |listed|), ttl, values);
    Outcome(removed, added, err)
  }

  /** The addressed set is as it was, or holds all the new values and nothing else. */
  predicate OldOrNew(o: Outcome, listed: nat, values: nat) {
    (o.removed == 0 && o.added == 0) || (o.removed == listed && o.added == values)
  }

  /** When an update is atomic, exactly: every script leaves the addressed set wholly old or wholly
      new if and only if there is at most one step to take. With nothing to remove that is one
      value to add, or a TTL that stops the first; otherwise it is one record to remove and
      nothing to add, or a first record without an ID, which stops the removal. */
  lemma UpdateIsAtomicIff(calls: nat, listed: seq<ApiRecord>, ttl: int, values: nat)
    ensures (forall script :: OldOrNew(UpdateOutcome(script, calls, listed, ttl, values), |listed|, values)) <==>
            if listed == [] then values <= 1 || ttl <= 0
            else listed[0].id.None? || (|listed| == 1 && values == 0)
  {
    hide Smooth, Skip, Later;
    var lost := seq(calls, i => Completes) + [LostReply];
    LostAfter(calls);
    DeletableNothing();
    if listed != [] { DeletableHead(listed); }
    OneCallLost(lost, calls, Deletable(listed));
    OneCallLost(lost, calls, values);
    assert calls + |listed| == calls || listed != [];
    assert OldOrNew(UpdateOutcome(lost, calls, listed, ttl, values), |listed|, values) ==>
           if listed == [] then values <= 1 || ttl <= 0 else listed[0].id.None? || (|listed| == 1 && values == 0);
  }

  lemma LostAfter(calls: nat)
    ensures var lost := seq(calls, i => Completes) + [LostReply];
            Smooth(lost, calls) && Skip(lost, calls) == [LostReply]
  {}

  lemma OneCallLost(lost: seq<Fate>, calls: nat, n: nat)
    requires Skip(lost, calls) == [LostReply]
    ensures Applied(Skip(lost, calls), n) == if n == 0 then 0 else 1
    ensures Smooth(Skip(lost, calls), n) <==> n == 0
  {
    assert NextFate([LostReply]) == LostReply;
  }

  lemma NothingAppended(rs: seq<ApiRecord>)
    ensures rs + [] == rs
  {}

  lemma DeletableHead(rs: seq<ApiRecord>)
    requires rs != []
    ensures Deletable(rs) == if rs[0].id.None? then 0 else 1 + Deletable(rs[1..])
  {}

  lemma DeletableNothing()
    ensures Deletable([]) == 0
  {}

  lemma SkipTwice(script: seq<Fate>, m: nat, n: nat)
    ensures Skip(Skip(script, m), n) == Skip(script, m + n)
  {}

  lemma {:induction false} AllDeletable(before: seq<ApiRecord>, rs: seq<ApiRecord>)
    requires AllHaveIds(before) && forall r | r in rs :: r in before
    ensures Deletable(rs) == |rs| && AllHaveIds(rs)
    decreases |rs|
  {
    if rs != [] {
      assert rs[0] in before && forall r | r in rs[1..] :: r in rs;
      AllDeletable(before, rs[1..]);
    }
  }

  lemma {:induction false} MatchingCommutes(rs: seq<ApiRecord>, id: nat, name: string, rtype: string)
    ensures Matching(WithoutId(rs, id), name, rtype) == WithoutId(Matching(rs, name, rtype), id)
    decreases |rs|
  {
    if rs != [] {
      var front, last := rs[..|rs| - 1], rs[|rs| - 1];
      MatchingCommutes(front, id, name, rtype);
      var w, m := WithoutId(front, id), Matching(front, name, rtype);
      assert (w + [last])[..|w|] == w && (m + [last])[..|m|] == m && w + [] == w && m + [] == m;
    }
  }

  lemma {:induction false} MatchingKeepsIdsUnique(rs: seq<ApiRecord>, next: nat, name: string, rtype: string)
    requires UniqueIds(rs, next)
    ensures UniqueIds(Matching(rs, name, rtype), next)
    decreases |rs|
  {
    if rs != [] {
      var front, last := rs[..|rs| - 1], rs[|rs| - 1];
      assert rs == front + [last];
      MatchingKeepsIdsUnique(front, next, name, rtype);
      MatchingMembers(front, name, rtype);
      var m := Matching(front, name, rtype);
      forall i | 0 <= i < |m| && m[i].id.Some? ensures m[i].id != last.id {
        assert m[i] in front;
        var j :| 0 <= j < |front| && front[j] == m[i];
        assert rs[j] == m[i];
      }
    }
  }

  lemma {:induction false} WithoutFirst(rs: seq<ApiRecord>, next: nat, id: nat)
    requires UniqueIds(rs, next) && rs != [] && rs[0].id == Some(id)
    ensures WithoutId(rs, id) == rs[1..]
    decreases |rs|
  {
    var front, last := rs[..|rs| - 1], rs[|rs| - 1];
    if |rs| == 1 {
      assert front == [];
    } else {
      assert forall r | r in front :: r in rs;
      WithoutFirst(front, next, id);
      assert rs[1..] == front[1..] + [last];
    }
  }

  lemma MatchingWithoutFirst(rs: seq<ApiRecord>, next: nat, id: nat, name: string, rtype: string)
    requires UniqueIds(rs, next)
    requires Matching(rs, name, rtype) != [] && Matching(rs, name, rtype)[0].id == Some(id)
    ensures Matching(WithoutId(rs, id), name, rtype) == Matching(rs, name, rtype)[1..]
  {
    hide Matching, WithoutId, UniqueIds;
    MatchingCommutes(rs, id, name, rtype);
    MatchingKeepsIdsUnique(rs, next, name, rtype);
    WithoutFirst(Matching(rs, name, rtype), next, id);
  }

  /** Midway through a removal: other sets are as before, and what still matches is pending. */
  ghost predicate Removing(before: seq<ApiRecord>, rs: seq<ApiRecord>, pending: seq<ApiRecord>, name: string, rtype: string, full: bool) {
    && Others(rs, name, rtype) == Others(before, name, rtype)
    && (forall r | r in rs :: r in before)
    && (forall r | r in pending :: r in before && Matches(r, name, rtype))
    && (full ==> forall r | r in rs && Matches(r, name, rtype) :: r in pending)
  }

  lemma StartRemoving(before: seq<ApiRecord>, matching: seq<ApiRecord>, name: string, rtype: string, full: bool)
    requires forall r | r in matching :: r in before && Matches(r, name, rtype)
    requires full ==> matching == Matching(before, name, rtype)
    ensures Removing(before, before, matching, name, rtype, full)
  {
    hide Others;
    MatchingMembers(before, name, rtype);
  }

  lemma KeepRemoving(before: seq<ApiRecord>, next: nat, rs: seq<ApiRecord>, pending: seq<ApiRecord>, name: string, rtype: string, full: bool)
    requires pending != [] && Removing(before, rs, pending, name, rtype, full) && UniqueIds(before, next)
    ensures Others(rs, name, rtype) == Others(before, name, rtype)
    ensures pending[0] in before
    ensures pending[0].id.Some? ==>
              && Removing(before, WithoutId(rs, pending[0].id.value), pending[1..], name, rtype, full)
              && Others(WithoutId(rs, pending[0].id.value), name, rtype) == Others(before, name, rtype)
  {
    hide Others, WithoutId;
    var current := pending[0];
    assert current in pending && pending == [current] + pending[1..];
    if current.id.Some? {
      SameIdSameRecord(before, rs, current, next);
      OthersWithoutId(rs, current.id.value, name, rtype);
      WithoutIdMembers(rs, current.id.value);
    }
  }

  lemma DoneRemoving(before: seq<ApiRecord>, rs: seq<ApiRecord>, name: string, rtype: string, full: bool)
    requires Removing(before, rs, [], name, rtype, full)
    ensures Others(rs, name, rtype) == Others(before, name, rtype)
    ensures full ==> rs == Others(before, name, rtype)
  {
    if full { NoneMatch(rs, name, rtype); }
  }

  lemma {:induction false} WithoutIdMembers(rs: seq<ApiRecord>, id: nat)
    ensures forall r :: r in WithoutId(rs, id) <==> r in rs && r.id != Some(id)
    decreases |rs|
  {
    if rs != [] {
      WithoutIdMembers(rs[..|rs| - 1], id);
      assert rs == rs[..|rs| - 1] + [rs[|rs| - 1]];
    }
  }

  lemma SameIdSameRecord(before: seq<ApiRecord>, rs: seq<ApiRecord>, r: ApiRecord, next: nat)
    requires UniqueIds(before, next) && r in before && r.id.Some? && forall s | s in rs :: s in before
    ensures forall s | s in rs && s.id == r.id :: s == r
  {
    var i :| 0 <= i < |before| && before[i] == r;
    forall s | s in rs && s.id == r.id ensures s == r {
      var j :| 0 <= j < |before| && before[j] == s;
    }
  }

  lemma {:induction false} OthersWithoutId(rs: seq<ApiRecord>, id: nat, name: string, rtype: string)
    requires forall r | r in rs && r.id == Some(id) :: Matches(r, name, rtype)
    ensures Others(WithoutId(rs, id), name, rtype) == Others(rs, name, rtype)
    decreases |rs|
  {
    if rs != [] {
      var front, last := rs[..|rs| - 1], rs[|rs| - 1];
      assert last in rs && forall r | r in front :: r in rs;
      OthersWithoutId(front, id, name, rtype);
      var w := WithoutId(front, id);
      if last.id != Some(id) {
        assert (w + [last])[..|w|] == w;
      } else {
        assert w + [] == w && Others(front, name, rtype) + [] == Others(front, name, rtype);
      }
    }
  }

  lemma NoneMatch(rs: seq<ApiRecord>, name: string, rtype: string)
    requires forall r | r in rs :: !Matches(r, name, rtype)
    ensures Others(rs, name, rtype) == rs && Matching(rs, name, rtype) == []
  {
    hide Others, Matching;
    AllAreOthers(rs, name, rtype);
    MatchingMembers(rs, name, rtype);
    HeadIsMember(Matching(rs, name, rtype));
  }

  lemma HeadIsMember(rs: seq<ApiRecord>)
    ensures rs != [] ==> rs[0] in rs
  {}

  lemma {:induction false} AllAreOthers(rs: seq<ApiRecord>, name: string, rtype: string)
    requires forall i | 0 <= i < |rs| :: !Matches(rs[i], name, rtype)
    ensures Others(rs, name, rtype) == rs
    decreases |rs|
  {
    hide Matches;
    if rs != [] {
      var front, last := rs[..|rs| - 1], rs[|rs| - 1];
      AllAreOthers(front, name, rtype);
      assert Others(rs, name, rtype) == front + [last] == rs;
    }
  }

  lemma {:induction false} OthersDoNotMatch(rs: seq<ApiRecord>, name: string, rtype: string)
    ensures forall r | r in Others(rs, name, rtype) :: !Matches(r, name, rtype)
    ensures Matching(Others(rs, name, rtype), name, rtype) == []
    decreases |rs|
  {
    if rs != [] { OthersDoNotMatch(rs[..|rs| - 1], name, rtype); }
    NoneMatch(Others(rs, name, rtype), name, rtype);
  }

  lemma {:induction false} OthersAppend(rs: seq<ApiRecord>, added: seq<ApiRecord>, name: string, rtype: string)
    requires forall r | r in added :: Matches(r, name, rtype)
    ensures Others(rs + added, name, rtype) == Others(rs, name, rtype)
    ensures Matching(rs + added, name, rtype) == Matching(rs, name, rtype) + added
    decreases |added|
  {
    if added == [] {
      assert rs + added == rs;
    } else {
      var all, front := rs + added, added[..|added| - 1];
      assert forall r | r in front :: r in added;
      OthersAppend(rs, front, name, rtype);
      assert all[..|all| - 1] == rs + front && added[|added| - 1] in added;
      assert front + [added[|added| - 1]] == added;
    }
  }

  // ---- grouping what was listed ----

  predicate IsComplete(r: ApiRecord) {
    r.rr.Some? && r.rtype.Some? && r.value.Some? && r.ttl.Some?
  }

  function AsRR(root: string, r: ApiRecord): RR
    requires IsComplete(r)
  {
    RR(FqdnOf(root, r.rr.value), r.rtype.value, r.ttl.value, [r.value.value])
  }

  /** The complete records, under their full names. */
  function Complete(root: string, rs: seq<ApiRecord>): seq<RR> {
    if rs == [] then [] else
    var r := rs[|rs| - 1];
    Complete(root, rs[..|rs| - 1]) + if IsComplete(r) then [AsRR(root, r)] else []
  }

  /** What is read of the API records: those with every field but the ID, in order; the full name is
      the zone's for a blank label or "@", and label, dot and zone otherwise. */
  lemma CompleteInOrder(root: string, rs: seq<ApiRecord>) returns (at: seq<nat>)
    ensures |at| == |Complete(root, rs)| && forall i, j | 0 <= i < j < |at| :: at[i] < at[j]
    ensures forall i :: i in at <==> 0 <= i < |rs| && rs[i].rr != None && rs[i].rtype != None && rs[i].value != None && rs[i].ttl != None
    ensures forall j | 0 <= j < |at| ::
      && at[j] < |rs| && rs[at[j]].rr.Some? && rs[at[j]].value.Some?
      && var r, read, rr := rs[at[j]], Complete(root, rs)[j], TrimSpace(rs[at[j]].rr.value);
         && read.name == (if rr == "" || rr == "@" then root else rr + "." + root) + "."
         && Some(read.rtype) == r.rtype && Some(read.ttl) == r.ttl && read.values == [r.value.value]
  {
    hide Complete, AsRR, IsComplete, Picked;
    at := [];
    var read: seq<RR> := [];
    NothingComplete(root, rs);
    for n := 0 to |rs|
      invariant read == Complete(root, rs[..n]) && Picked(root, rs, n, at, read)
    {
      CompleteStep(root, rs, n);
      PickNext(root, rs, n, at, read);
      if IsComplete(rs[n]) { at, read := at + [n], read + [AsRR(root, rs[n])]; }
    }
    assert rs[..|rs|] == rs;
    PickedInFields(root, rs, at, read);
  }

  /** Of the first n records, `at` points at the complete ones and `read` is what they become. */
  ghost predicate Picked(root: string, rs: seq<ApiRecord>, n: nat, at: seq<nat>, read: seq<RR>)
    requires n <= |rs|
  {
    && |at| == |read| && (forall i, j | 0 <= i < j < |at| :: at[i] < at[j])
    && (forall i :: i in at <==> 0 <= i < n && IsComplete(rs[i]))
    && forall j | 0 <= j < |at| :: at[j] < n && IsComplete(rs[at[j]]) && read[j] == AsRR(root, rs[at[j]])
  }

  lemma PickNext(root: string, rs: seq<ApiRecord>, n: nat, at: seq<nat>, read: seq<RR>)
    requires n < |rs| && Picked(root, rs, n, at, read)
    ensures if IsComplete(rs[n]) then Picked(root, rs, n + 1, at + [n], read + [AsRR(root, rs[n])])
            else Picked(root, rs, n + 1, at, read)
  {
    hide AsRR, IsComplete;
  }

  lemma PickedInFields(root: string, rs: seq<ApiRecord>, at: seq<nat>, read: seq<RR>)
    requires Picked(root, rs, |rs|, at, read)
    ensures |at| == |read| && forall i, j | 0 <= i < j < |at| :: at[i] < at[j]
    ensures forall i :: i in at <==> 0 <= i < |rs| && rs[i].rr != None && rs[i].rtype != None && rs[i].value != None && rs[i].ttl != None
    ensures forall j | 0 <= j < |at| ::
      && at[j] < |rs| && rs[at[j]].rr.Some? && rs[at[j]].value.Some?
      && var r, rr := rs[at[j]], TrimSpace(rs[at[j]].rr.value);
         && read[j].name == (if rr == "" || rr == "@" then root else rr + "." + root) + "."
         && Some(read[j].rtype) == r.rtype && Some(read[j].ttl) == r.ttl && read[j].values == [r.value.value]
  {
    hide AsRR, IsComplete, TrimSpace;
    forall i | 0 <= i < |rs| { AsRRInFields(root, rs[i]); }
  }

  lemma AsRRInFields(root: string, r: ApiRecord)
    ensures IsComplete(r) <==> r.rr != None && r.rtype != None && r.value != None && r.ttl != None
    ensures IsComplete(r) ==>
              var read, rr := AsRR(root, r), TrimSpace(r.rr.value);
              && read.name == (if rr == "" || rr == "@" then root else rr + "." + root) + "."
              && Some(read.rtype) == r.rtype && Some(read.ttl) == r.ttl && read.values == [r.value.value]
  {}

  lemma NothingComplete(root: string, rs: seq<ApiRecord>)
    ensures Complete(root, rs[..0]) == [] && Picked(root, rs, 0, [], [])
  {}

  lemma CompleteStep(root: string, rs: seq<ApiRecord>, n: nat)
    requires n < |rs|
    ensures Complete(root, rs[..n + 1]) == Complete(root, rs[..n]) + if IsComplete(rs[n]) then [AsRR(root, rs[n])] else []
    ensures Complete(root, rs[..n]) + [] == Complete(root, rs[..n])
  {
    hide AsRR, IsComplete;
    assert rs[..n + 1][..n] == rs[..n];
  }

  /** Lists, drops incomplete records, groups by name and type and sorts. */
  method GetRecords(provider: AlidnsProvider) returns (records: seq<DnsRecord>, err: bool)
    requires provider.server.Valid()
    modifies provider.server`script
    ensures err ==> records == []
    ensures !err ==>
              var listed := if provider.ListsAll() then provider.server.records else UpTo(provider.server.records, provider.server.pageCap);
              var rrs := Complete(provider.rootDomainName, listed);
              records == Groups(rrs, Listing(RRKeyOrder(), KeysOf(rrs)))
    ensures err == !Smooth(old(provider.server.script), provider.server.Pages())
    ensures AllComplete(old(provider.server.script)) ==> !err
  {
    records := [];
    var apiRecords;
    apiRecords, err := provider.ListRecords();
    if err { return; }
    var rrs: seq<RR> := [];
    for i := 0 to |apiRecords|
      invariant rrs == Complete(provider.rootDomainName, apiRecords[..i])
    {
      var current := apiRecords[i];
      assert apiRecords[..i + 1][..i] == apiRecords[..i];
      if current.rr.None? || current.rtype.None? || current.value.None? || current.ttl.None? {
        assert rrs + [] == rrs;
        continue;
      }
      rrs := rrs + [RR(FqdnOf(provider.rootDomainName, current.rr.value), current.rtype.value,
                       current.ttl.value, [current.value.value])];
    }
    assert apiRecords[..|apiRecords|] == apiRecords;
    records := GroupByMap(rrs);
  }
}
