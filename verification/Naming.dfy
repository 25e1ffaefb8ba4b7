/** Names: label normalisation, generated FQDNs and the state record (utils/utils.go). */
module Naming {
  import opened Records
  import opened Ordering

  // ---- labels ----

  predicate IsAlnum(c: char) {
    'a' <= c <= 'z' || 'A' <= c <= 'Z' || '0' <= c <= '9'
  }

  /** Every character a label may not contain becomes a dash. */
  function ReplaceOthers(s: string): string {
    if s == "" then "" else [if IsAlnum(s[0]) then s[0] else '-'] + ReplaceOthers(s[1..])
  }

  /** Each run of dashes becomes one dash. */
  function CollapseDashes(s: string): string {
    if s == "" then ""
    else if s[0] == '-' && |s| > 1 && s[1] == '-' then CollapseDashes(s[1..])
    else [s[0]] + CollapseDashes(s[1..])
  }

  function TrimLeft(s: string, c: char): string {
    if s != "" && s[0] == c then TrimLeft(s[1..], c) else s
  }

  function TrimRight(s: string, c: char): string {
    if s != "" && s[|s| - 1] == c then TrimRight(s[..|s| - 1], c) else s
  }

  function Trim(s: string, c: char): string {
    TrimRight(TrimLeft(s, c), c)
  }

  function SanitizeLabel(s: string): string {
    Trim(CollapseDashes(ReplaceOthers(s)), '-')
  }

  /** The maximal alphanumeric runs of a string, in order: a character joins the run of the
      character behind it when there is one. */
  function Runs(s: string): (r: seq<string>)
    ensures s != "" && IsAlnum(s[0]) ==> r != []
    ensures forall i | 0 <= i < |r| :: r[i] != "" && forall c | c in r[i] :: IsAlnum(c)
  {
    if s == "" then []
    else if !IsAlnum(s[0]) then Runs(s[1..])
    else if |s| > 1 && IsAlnum(s[1]) then
      var rest := Runs(s[1..]);
      [[s[0]] + rest[0]] + rest[1..]
    else [[s[0]]] + Runs(s[1..])
  }

  function JoinDashes(runs: seq<string>): string {
    if runs == [] then "" else if |runs| == 1 then runs[0]
    else runs[0] + "-" + JoinDashes(runs[1..])
  }

  lemma {:induction false} TrimRightCons(c: char, s: string, d: char)
    ensures TrimRight([c] + s, d) == if c == d && TrimRight(s, d) == "" then "" else [c] + TrimRight(s, d)
    decreases |s|
  {
    var w := [c] + s;
    if s != "" && s[|s| - 1] == d {
      assert w[..|w| - 1] == [c] + s[..|s| - 1];
      TrimRightCons(c, s[..|s| - 1], d);
    } else if s == "" {
      assert w[..0] == "";
    }
  }

  lemma {:induction false} TrimsCommute(s: string, c: char)
    ensures TrimRight(TrimLeft(s, c), c) == TrimLeft(TrimRight(s, c), c)
    decreases |s|
  {
    if s != "" {
      assert s == [s[0]] + s[1..];
      TrimRightCons(s[0], s[1..], c);
      TrimsCommute(s[1..], c);
    }
  }

  /** A dash stays in front of the first run when something precedes it. */
  function LeadDash(s: string): string {
    if s != "" && !IsAlnum(s[0]) && Runs(s) != [] then "-" else ""
  }

  lemma {:induction false} NormalForm(s: string)
    ensures TrimRight(CollapseDashes(ReplaceOthers(s)), '-') == LeadDash(s) + JoinDashes(Runs(s))
    decreases |s|
  {
    hide TrimRight, JoinDashes;
    if s == "" {
      TrimRightKeeps("", '-');
      JoinIsEmptyIff([]);
    } else {
      var c, t := s[0], s[1..];
      var w := CollapseDashes(ReplaceOthers(t));
      NormalForm(t);
      var r := ReplaceOthers(s);
      assert r[1..] == ReplaceOthers(t);
      if IsAlnum(c) {
        TrimRightCons(c, w, '-');
        assert CollapseDashes(r) == [c] + w;
        JoinGrows(c, t);
      } else if t != "" && !IsAlnum(t[0]) {
        assert CollapseDashes(r) == w;
      } else {
        TrimRightCons('-', w, '-');
        assert CollapseDashes(r) == ['-'] + w;
        JoinIsEmptyIff(Runs(t));
      }
    }
  }

  lemma JoinGrows(c: char, t: string)
    requires IsAlnum(c)
    ensures JoinDashes(Runs([c] + t)) == [c] + (LeadDash(t) + JoinDashes(Runs(t)))
  {
    var s := [c] + t;
    assert s[1..] == t;
    var rest := Runs(t);
    if t != "" && IsAlnum(t[0]) {
      var longer := [[c] + rest[0]] + rest[1..];
      assert longer[1..] == rest[1..];
      assert Runs(s) == longer;
    } else {
      assert ([[c]] + rest)[1..] == rest;
      assert Runs(s) == [[c]] + rest;
    }
  }

  lemma JoinIsEmptyIff(runs: seq<string>)
    requires forall i | 0 <= i < |runs| :: runs[i] != ""
    ensures JoinDashes(runs) == "" <==> runs == []
  {}

  /** The three rewrites of sanitizeLabel amount to joining the maximal alphanumeric runs of
      the label by single dashes. */
  lemma SanitizedIsJoinedRuns(s: string)
    ensures SanitizeLabel(s) == JoinDashes(Runs(s))
  {
    var w := CollapseDashes(ReplaceOthers(s));
    NormalForm(s);
    TrimsCommute(w, '-');
    var j := JoinDashes(Runs(s));
    JoinIsEmptyIff(Runs(s));
    if j != "" {
      assert j[0] == Runs(s)[0][0] && Runs(s)[0][0] in Runs(s)[0];
      assert LeadDash(s) == "-" ==> ("-" + j)[1..] == j;
    }
  }

  /** Letters, digits and single inner dashes: with a length of 1 to 63 this is the label
      syntax of section 2.1 of RFC 1123. */
  predicate CleanLabel(s: string) {
    && (forall i | 0 <= i < |s| :: IsAlnum(s[i]) || s[i] == '-')
    && (forall i | 0 <= i < |s| - 1 :: IsAlnum(s[i]) || IsAlnum(s[i + 1]))
    && (s != "" ==> IsAlnum(s[0]) && IsAlnum(s[|s| - 1]))
  }

  lemma {:induction false} JoinedRunsAreClean(runs: seq<string>)
    requires forall i | 0 <= i < |runs| :: runs[i] != "" && forall c | c in runs[i] :: IsAlnum(c)
    ensures CleanLabel(JoinDashes(runs)) && (runs != [] ==> JoinDashes(runs) != "")
    decreases |runs|
  {
    if |runs| >= 1 {
      var r, rest := runs[0], JoinDashes(runs[1..]);
      JoinedRunsAreClean(runs[1..]);
      assert forall i | 0 <= i < |r| :: r[i] in r;
      if |runs| > 1 {
        var s := r + "-" + rest;
        assert forall i | 0 <= i < |s| :: s[i] == if i < |r| then r[i] else if i == |r| then '-' else rest[i - |r| - 1];
      }
    }
  }

  lemma {:induction false} TrimRightKeeps(s: string, c: char)
    requires s != "" ==> s[|s| - 1] != c
    ensures TrimRight(s, c) == s
  {}

  lemma {:induction false} CleanIsUntouched(s: string)
    requires forall i | 0 <= i < |s| :: IsAlnum(s[i]) || s[i] == '-'
    requires forall i | 0 <= i < |s| - 1 :: IsAlnum(s[i]) || IsAlnum(s[i + 1])
    ensures ReplaceOthers(s) == s && CollapseDashes(s) == s
    decreases |s|
  {
    if s != "" {
      var t := s[1..];
      assert forall i | 0 <= i < |t| :: t[i] == s[i + 1];
      CleanIsUntouched(t);
      assert s == [s[0]] + t;
    }
  }

  /** The labels sanitizeLabel produces are the clean ones, and it leaves exactly those alone:
      it is idempotent. */
  lemma SanitizeFixesExactlyCleanLabels(s: string)
    ensures CleanLabel(SanitizeLabel(s))
    ensures SanitizeLabel(s) == s <==> CleanLabel(s)
    ensures SanitizeLabel(SanitizeLabel(s)) == SanitizeLabel(s)
  {
    SanitizedIsJoinedRuns(s);
    JoinedRunsAreClean(Runs(s));
    CleanIsFixed(SanitizeLabel(s));
    if CleanLabel(s) { CleanIsFixed(s); }
  }

  /** So a label survives exactly if it consists of letters, digits and single inner dashes. */
  lemma LabelSurvivesIff(s: string)
    ensures SanitizeLabel(s) == s <==>
            && (forall i | 0 <= i < |s| :: 'a' <= s[i] <= 'z' || 'A' <= s[i] <= 'Z' || '0' <= s[i] <= '9' || s[i] == '-')
            && (s != "" ==> s[0] != '-' && s[|s| - 1] != '-')
            && (forall i | 0 <= i < |s| - 1 :: s[i] != '-' || s[i + 1] != '-')
  {
    hide SanitizeLabel;
    SanitizeFixesExactlyCleanLabels(s);
  }

  lemma CleanIsFixed(s: string)
    requires CleanLabel(s)
    ensures SanitizeLabel(s) == s
  {
    CleanIsUntouched(s);
    assert TrimLeft(s, '-') == s;
    TrimRightKeeps(s, '-');
  }

  /** A character that is not a letter or a digit separates the runs on its two sides. */
  lemma {:induction false} RunsApart(a: string, c: char, b: string)
    requires !('a' <= c <= 'z') && !('A' <= c <= 'Z') && !('0' <= c <= '9')
    ensures Runs(a + [c] + b) == Runs(a) + Runs(b)
    decreases |a|
  {
    hide Runs, IsAlnum;
    assert !IsAlnum(c) by { NotAlnum(c); }
    if a == "" {
      RunsStep(c, b);
      assert a + [c] + b == [c] + b;
      NoRuns();
    } else {
      var t := a[1..];
      RunsApart(t, c, b);
      RunsStep(a[0], t);
      RunsStep(a[0], t + [c] + b);
      assert [a[0]] + t == a && [a[0]] + (t + [c] + b) == a + [c] + b;
      assert (t + [c] + b)[0] == if t == "" then c else t[0];
      assert [[a[0]]] + (Runs(t) + Runs(b)) == [[a[0]]] + Runs(t) + Runs(b);
      if Runs(t) != [] { FirstRunGrows(a[0], Runs(t), Runs(b)); }
    }
  }

  lemma FirstRunGrows(c: char, runs: seq<string>, more: seq<string>)
    requires runs != []
    ensures [[c] + (runs + more)[0]] + (runs + more)[1..] == [[c] + runs[0]] + runs[1..] + more
  {}

  lemma NotAlnum(c: char)
    requires !('a' <= c <= 'z') && !('A' <= c <= 'Z') && !('0' <= c <= '9')
    ensures !IsAlnum(c)
  {}

  lemma NoRuns()
    ensures Runs("") == []
  {}

  lemma RunsStep(c: char, t: string)
    ensures var rest := Runs(t);
            Runs([c] + t) == if !IsAlnum(c) then rest
                             else if t != "" && IsAlnum(t[0]) then [[c] + rest[0]] + rest[1..]
                             else [[c]] + rest
  {
    assert ([c] + t)[1..] == t;
  }

  /** Letters and digits in a row are one run. */
  lemma {:induction false} RunOfAlnum(w: string)
    requires w != "" && forall i | 0 <= i < |w| :: 'a' <= w[i] <= 'z' || 'A' <= w[i] <= 'Z' || '0' <= w[i] <= '9'
    ensures Runs(w) == [w]
    decreases |w|
  {
    if |w| > 1 {
      RunOfAlnum(w[1..]);
      assert [w[0]] + w[1..] == w;
    } else {
      assert w == [w[0]] && w[1..] == "";
    }
  }

  /** Trimming cuts off the whole runs of the character at both ends and nothing else. */
  lemma {:induction false} TrimShape(s: string, c: char) returns (from: nat, to: nat)
    ensures from <= to <= |s| && Trim(s, c) == s[from..to]
    ensures forall i | 0 <= i < from || to <= i < |s| :: s[i] == c
    ensures from < to ==> s[from] != c && s[to - 1] != c
    decreases |s|
  {
    if s != "" && s[0] == c {
      from, to := TrimShape(s[1..], c);
      from, to := from + 1, to + 1;
    } else {
      from := 0;
      to := TrimRightShape(s, c);
    }
  }

  lemma {:induction false} TrimRightShape(s: string, c: char) returns (to: nat)
    ensures to <= |s| && TrimRight(s, c) == s[..to]
    ensures forall i | to <= i < |s| :: s[i] == c
    ensures to > 0 ==> s[to - 1] != c
    decreases |s|
  {
    to := |s|;
    if s != "" && s[|s| - 1] == c {
      to := TrimRightShape(s[..|s| - 1], c);
      assert forall i | to <= i < |s| - 1 :: s[i] == s[..|s| - 1][i];
    }
  }

  // ---- generated names ----

  /** ASCII lower-casing, character by character. */
  function LowerChar(c: char): char {
    if 'A' <= c <= 'Z' then (c as int + 32) as char else c
  }

  function ToLower(s: string): string {
    seq(|s|, i requires 0 <= i < |s| => LowerChar(s[i]))
  }

  /** A name template after parsing: literal text and the three known placeholders. */
  datatype TemplatePart = Text(text: string) | ServiceName | StackName | EnvironmentName

  function Expand(template: seq<TemplatePart>, service: string, stack: string, environment: string): string {
    if template == [] then "" else
    (match template[0]
     case Text(t) => t
     case ServiceName => SanitizeLabel(service)
     case StackName => SanitizeLabel(stack)
     case EnvironmentName => SanitizeLabel(environment)) + Expand(template[1..], service, stack, environment)
  }

  function FqdnFromTemplate(template: seq<TemplatePart>, service: string, stack: string, environment: string, root: string): string {
    ToLower(Expand(template, service, stack, environment) + "." + root)
  }

  function StateFqdn(environmentUUID: string, root: string): string {
    ToLower("external-dns-" + environmentUUID + "." + root)
  }

  /** Letters 'A' to 'Z' become their small counterparts and nothing else changes. */
  lemma LowerCased(s: string, i: nat)
    requires i < |s|
    ensures |ToLower(s)| == |s|
    ensures var c, l := s[i], ToLower(s)[i];
            if 'A' <= c <= 'Z' then 'a' <= l <= 'z' && l as int - 'a' as int == c as int - 'A' as int else l == c
  {}

  lemma LowerAppends(s: string, t: string)
    ensures ToLower(s + t) == ToLower(s) + ToLower(t)
  {}

  lemma LowerJoined(s: string, root: string)
    ensures ToLower(s + "." + root) == ToLower(s) + "." + ToLower(root)
  {
    LowerAppends(s + ".", root);
    LowerAppends(s, ".");
    assert ToLower(".") == ".";
  }

  /** A template expands piece by piece and in order. */
  lemma {:induction false} ExpandsInOrder(xs: seq<TemplatePart>, ys: seq<TemplatePart>, service: string, stack: string, environment: string)
    ensures Expand(xs + ys, service, stack, environment) ==
            Expand(xs, service, stack, environment) + Expand(ys, service, stack, environment)
    decreases |xs|
  {
    hide SanitizeLabel;
    if xs == [] {
      assert xs + ys == ys;
    } else {
      ExpandsInOrder(xs[1..], ys, service, stack, environment);
      assert (xs + ys)[1..] == xs[1..] + ys;
    }
  }

  /** Text stands for itself, each placeholder for its own input made a label. */
  lemma PieceExpandsTo(part: TemplatePart, service: string, stack: string, environment: string)
    ensures Expand([part], service, stack, environment) ==
            match part
            case Text(t) => t
            case ServiceName => JoinDashes(Runs(service))
            case StackName => JoinDashes(Runs(stack))
            case EnvironmentName => JoinDashes(Runs(environment))
  {
    hide SanitizeLabel, JoinDashes, Runs;
    SanitizedIsJoinedRuns(service);
    SanitizedIsJoinedRuns(stack);
    SanitizedIsJoinedRuns(environment);
    assert [part][1..] == [];
  }

  lemma StateFqdnShape(uuid: string, root: string)
    ensures StateFqdn(uuid, root) == "external-dns-" + ToLower(uuid) + "." + ToLower(root)
  {
    var prefix := "external-dns-";
    assert ToLower(prefix) == prefix;
    hide ToLower;
    LowerJoined(prefix + uuid, root);
    LowerAppends(prefix, uuid);
  }

  /** The state record's name holds the lower-cased identity of the environment, so two
      environments share it only if their identities agree up to case. */
  lemma StateFqdnIsPerEnvironment(uuid: string, other: string, root: string)
    ensures StateFqdn(uuid, root) == StateFqdn(other, root) <==> ToLower(uuid) == ToLower(other)
  {
    hide StateFqdn, ToLower;
    StateFqdnShape(uuid, root);
    StateFqdnShape(other, root);
    if StateFqdn(uuid, root) == StateFqdn(other, root) {
      forall u ensures "external-dns-" + u + "." + ToLower(root) == "external-dns-" + u + ("." + ToLower(root)) {}
      SameBetween("external-dns-", ToLower(uuid), ToLower(other), "." + ToLower(root));
    }
  }

  lemma SameBetween(front: string, a: string, b: string, back: string)
    requires front + a + back == front + b + back
    ensures a == b
  {
    assert |a| == |b|;
    assert (front + a + back)[|front|..|front| + |a|] == a;
    assert (front + b + back)[|front|..|front| + |a|] == b;
  }

  /** A generated name is the lower-cased expansion below the lower-cased root. */
  lemma GeneratedNameShape(template: seq<TemplatePart>, service: string, stack: string, environment: string, root: string)
    ensures FqdnFromTemplate(template, service, stack, environment, root) ==
            ToLower(Expand(template, service, stack, environment)) + "." + ToLower(root)
  {
    LowerJoined(Expand(template, service, stack, environment), root);
  }

  /** Generated names are fixed points of lower-casing, so the name compared with the state
      record is the name that was written into it. */
  lemma GeneratedNamesAreLowerCase(template: seq<TemplatePart>, service: string, stack: string, environment: string, root: string)
    ensures var n := FqdnFromTemplate(template, service, stack, environment, root); ToLower(n) == n
    ensures var n := StateFqdn(environment, root); ToLower(n) == n
  {
    LowerTwice(Expand(template, service, stack, environment) + "." + root);
    LowerTwice("external-dns-" + environment + "." + root);
  }

  lemma LowerTwice(s: string)
    ensures ToLower(ToLower(s)) == ToLower(s)
  {}

  /** Normalising the inputs first changes nothing: a name depends on service, stack and
      environment only through their alphanumeric runs. */
  lemma {:induction false} NamesDependOnRunsOnly(template: seq<TemplatePart>, service: string, stack: string, environment: string,
                                                 service': string, stack': string, environment': string)
    requires Runs(service) == Runs(service') && Runs(stack) == Runs(stack') && Runs(environment) == Runs(environment')
    ensures Expand(template, service, stack, environment) == Expand(template, service', stack', environment')
    decreases |template|
  {
    if template != [] {
      SanitizedIsJoinedRuns(service); SanitizedIsJoinedRuns(service');
      SanitizedIsJoinedRuns(stack); SanitizedIsJoinedRuns(stack');
      SanitizedIsJoinedRuns(environment); SanitizedIsJoinedRuns(environment');
      NamesDependOnRunsOnly(template[1..], service, stack, environment, service', stack', environment');
    }
  }

  predicate HasSuffix(s: string, suffix: string) {
    |suffix| <= |s| && s[|s| - |suffix|..] == suffix
  }

  /** Drops the trailing dot. */
  function UnFqdn(name: string): string {
    if |name| != 0 && name[|name| - 1] == '.' then name[..|name| - 1] else name
  }

  /** One trailing dot is dropped if there is one. */
  lemma UnFqdnIff(name: string, r: string)
    ensures UnFqdn(name) == r <==> name == r + "." || (name == r && (r == "" || r[|r| - 1] != '.'))
  {
    if name == r + "." { assert name[..|name| - 1] == r; }
    if name != "" && name[|name| - 1] == '.' { assert name == name[..|name| - 1] + "."; }
  }

  /** A suffix is what a name ends in. */
  lemma HasSuffixIff(s: string, suffix: string)
    ensures HasSuffix(s, suffix) <==> exists front :: s == front + suffix
  {
    if HasSuffix(s, suffix) { assert s == s[..|s| - |suffix|] + suffix; }
    if front :| s == front + suffix { assert s[|s| - |suffix|..] == suffix; }
  }

  // ---- the state record ----

  /** The one TXT record that lists a set of names, in ascending order. */
  ghost function StateRecordOf(fqdn: string, ttl: int, entries: set<string>): DnsRecord {
    DnsRecord(fqdn, Listing(NameOrder(), entries), "TXT", ttl)
  }

  /** Fills a slice from the map's keys, in whatever order they come, and sorts it. */
  method StateRecord(fqdn: string, ttl: int, entries: set<string>) returns (r: DnsRecord)
    ensures r == StateRecordOf(fqdn, ttl, entries)
  {
    var records := new string[|entries|];
    var idx := 0;
    var rest := entries;
    while rest != {}
      invariant rest <= entries && idx + |rest| == |entries| && idx <= records.Length
      invariant forall k :: k in records[..idx] <==> k in entries && k !in rest
      invariant forall i, j | 0 <= i < j < idx :: records[i] != records[j]
      decreases rest
    {
      var entry :| entry in rest;
      assert entry !in records[..idx];
      records[idx] := entry;
      assert records[..idx + 1] == records[..idx] + [entry];
      idx := idx + 1;
      rest := rest - {entry};
    }
    assert records[..idx] == records[..];
    SortedEntries(records[..], entries);
    r := DnsRecord(fqdn, Sort(NameOrder(), records[..]), "TXT", ttl);
  }

  lemma SortedEntries(names: seq<string>, entries: set<string>)
    requires forall k :: k in names <==> k in entries
    requires forall i, j | 0 <= i < j < |names| :: names[i] != names[j]
    ensures Sort(NameOrder(), names) == Listing(NameOrder(), entries)
  {
    hide Sort, Listing;
    assert Elements(names) == entries;
    NameOrderIsStrict(entries);
    SortLists(NameOrder(), names, entries);
    ListingLists(NameOrder(), entries);
    ListingIsUnique(NameOrder(), Sort(NameOrder(), names), Listing(NameOrder(), entries), entries);
  }

  /** The state record lists its names strictly ascending, each once, and its values are
      exactly the names. */
  lemma StateRecordIsCanonical(fqdn: string, ttl: int, entries: set<string>, names: seq<string>)
    ensures var r := StateRecordOf(fqdn, ttl, entries);
            && ValueSet(r.records) == entries
            && (r.records == [] <==> entries == {})
            && (names == r.records <==> Lists(NameOrder(), names, entries))
            && r.fqdn == fqdn && r.rtype == "TXT" && r.ttl == ttl
            && forall i, j | 0 <= i < j < |r.records| :: StrLess(r.records[i], r.records[j])
  {
    var listing := Listing(NameOrder(), entries);
    NameOrderIsStrict(entries);
    ListingLists(NameOrder(), entries);
    assert forall i, j | 0 <= i < j < |listing| :: NameOrder()(listing[i], listing[j]);
    if Lists(NameOrder(), names, entries) {
      ListingIsUnique(NameOrder(), names, listing, entries);
    }
    assert listing == [] <==> entries == {} by {
      if entries != {} { var e :| e in entries; assert e in listing; }
      if listing != [] { assert listing[0] in entries; }
    }
  }
}
