# External DNS Sync: a verified model

External DNS Sync keeps the A records of an external DNS zone in step with the services of an
environment. It owns the A records whose names it lists in one TXT record, the state record
`external-dns-<environment UUID>.<root domain>`, and removes only what that record lists.

The model covers the path from metadata to provider and back:

- `Building` and `Wishes`: the wanted records built from services, containers and hosts, and what they mean.
- `Zones`, `Planning`, `Reconciling`: the provider, the plan of one attempt, and the reconciler that carries it out loop by loop.
- `Safety`, `Histories`, `Upgrading`: what holds inside an attempt, over any sequence of attempts, and at start-up.
- `Polling`, `Caching`, `Healing`: the polling loop, what its cache is worth, and how long a wrong zone can last.
- `Route53`, `Stored`, `AliDns`, `Gandi`, `Grouping`: provider adapters, down to stored values, pages, single-record calls and zone versions.
- `Naming`, `Ordering`, `Records`: labels, names, the state record, and the orders in which things are listed. `Samples` holds concrete runs.

Members whose names end in `InFields`, `InOrder` or `Iff` say the same in terms of the inputs themselves: stored sets, labels, states, seconds and texts.

## How failure is modelled

Every provider call has a fate: it completes, it fails without effect, or it takes effect and its
reply is lost. A script fixes the fates of the calls to come, so a statement about every script is one
about every failure. An attempt stops at the first error; therefore the zone an attempt leaves is the
zone after the first `j` calls of its plan (`Zones.RunIsPrefix`), and the results of `Safety` are about
every `j`. A failing last call that was applied and one that was not are `j + 1` and `j`.

`Planning.Target` describes the zone an attempt aims for key by key, without reference to any call.
`Planning.IsPlan` describes the plan by which calls it holds and in which order; the three phases
produce the only sequence that fits (`Planning.PlanIsCanonical`).

Standing premises, both kept by every interrupted attempt and every loop round: no record set is empty
and no A record sits at the state record's name (`Planning.ZoneOk`); wanted records are well formed
(`Planning.WellFormed`), which the builder ensures exactly when no container maps to the state record's
name (`Wishes.BuiltIsWellFormedIff`). Nobody else writes the zone.

## Properties that need a condition

- Cache soundness fails after a failed attempt: `Samples.FlipBackExample`. `Caching.SkipIsHarmlessIff` says for every run of the loop exactly when a skip does no harm.
- The cache can change what is written even without failures, because it changes when forced updates fall due: `Samples.CacheCostExample`. `Caching.CachedLoopRefinesUncached` says exactly when it does not; it never does when the records are a function of the version (`Caching.VersionedRunsAgree`).
- "Everything written is listed" fails after a failed attempt: `Samples.LeakExample`. `Histories.PresentIsListedIff` says over all histories, and `Histories.WrittenIsListedIff` within an attempt, exactly when a record is listed.
- A wrong zone is not always put right: `Samples.StarvedExample`. `Healing.HealsIff` says exactly when it is; `Healing.ChangingVersionsStarveTheForcedUpdate` and `Healing.HealsWithinAMinute` are its two ends.
- The comparator of the sort is an order only with at most one type besides TXT: `Ordering.KeyOrderIsStrictIff`.
- TXT values survive Route 53's quoting exactly when they have no quote at either end: `Route53.QuoteRoundTripIff`.
- An AliDNS update is not atomic: `AliDns.UpdateIsAtomicIff` gives the exact cases in which it is, and `AliDns.AlidnsProvider.UpdateRecord` how far it gets. With a TTL that is not positive it removes the old values and then fails.
- An AliDNS record whose label is empty or has outer blanks is read under a name that does not lead back to it; its removal reports success and removes nothing: `AliDns.ReadRecordIsAddressedIff`.
- A Gandi update at the zone apex, or of a name without its final dot, finds nothing to remove: `Gandi.ApexIsNeverFound`, `Gandi.DotlessNameIsAddedButNotFound`.

Where documentation and code differ the model follows the code. The comment on the cache speaks of
records having changed; the code compares lists of values, so a reordering counts as a change
(`Wishes.OrderShowsInTheRecords`) and costs a read of the zone but no call (`Wishes.ReorderedMetadataIsIdle`).

## Model

| member | source | states |
|---|---|---|
| Ordering.KeyOrderIsStrictIff | external-dns.go:155-162 | the comparator is a strict order exactly when at most one type besides TXT occurs |
| Ordering.StrLessIff | external-dns.go:163 | names compare by the first place where they differ, smaller character or end first |
| Ordering.ListingIsUnique | external-dns.go:150-180 | sorting by a strict order leaves one possible sequence, whatever order the map was ranged over in |
| Zones.Provider.GetRecords | providers/provider.go:12-20 | a read that succeeds yields every record set of the zone once; a read changes nothing |
| Zones.Provider.AddRecord | providers/provider.go:12-20 | one atomic upsert, subject to its fate |
| Zones.Provider.UpdateRecord | providers/provider.go:12-20 | one atomic upsert, subject to its fate |
| Zones.Provider.RemoveRecord | providers/provider.go:12-20 | one atomic removal that has to name the stored set, values and TTL, subject to its fate |
| Zones.RunIsPrefix | external-dns.go:59-84 | a run of accepted calls under any script ends in the zone after a prefix of them; at most the last issued call is unacknowledged |
| Zones.RunFailsIff | external-dns.go:76-78 | a run of accepted calls reports an error exactly when the script makes one of them fail |
| Zones.RanOn | external-dns.go:24-38 | runs compose: zone, log, remaining script, acknowledged calls and error of a run in phases are those of one run |
| Planning.PlanMembers | external-dns.go:43-57 | the plan calls a name exactly when its situation in zone and wishes asks for it, with exactly that call |
| Planning.PlanAscends | external-dns.go:150-180 | the plan ascends strictly by phase, A before TXT, then name |
| Planning.PlanInFields | external-dns.go:43-148 | in terms of stored sets and wishes: removed are the unwanted names the state record lists and an unwanted state record, added the wanted ones not stored, updated those stored with other values |
| Planning.PlanOrderInFields | external-dns.go:16-41 | removals, additions, updates; in each the TXT record last and the names ascending |
| Planning.PlanIsCanonical | external-dns.go:16-41 | the plan is the only ascending sequence of exactly the calls asked for |
| Safety.OneCallPerName | external-dns.go:16-41 | an attempt calls each name at most once |
| Safety.StateCallComesLast | external-dns.go:150-180 | whatever follows the state record's call belongs to a later phase |
| Safety.AfterLookup | external-dns.go:59-84 | in mid-attempt a key holds the effect of its own call if that was reached and its old set otherwise |
| Safety.ListedAfter | external-dns.go:198-207 | in mid-attempt the state record lists the old names before its call and exactly the desired ones after it |
| Safety.PlanIsAccepted | external-dns.go:129-147 | no upsert of an attempt is empty and each removal names the set stored at that moment |
| Safety.SoundAfter | external-dns.go:16-41 | the premises of the next attempt hold wherever this one stops |
| Safety.CompletedAttemptReachesTarget | external-dns.go:16-41 | a completed attempt leaves exactly the target: desired values in place, dropped records gone, everything else untouched |
| Safety.CompletedAttemptInFields | external-dns.go:16-41 | the same set by set, in terms of the stored values and the wishes |
| Safety.TargetIsStable | external-dns.go:16-148 | from every stopping point an attempt aims for the same zone |
| Safety.ResumeIsConfluent | external-dns.go:16-148 | from every stopping point a completed rerun ends in the zone of an undisturbed run, values and TTLs |
| Safety.NothingToDoIff | external-dns.go:86-118 | an attempt issues no call exactly when every desired record is held and nothing is due for removal |
| Safety.TargetIsInSync | external-dns.go:16-41 | after a completed attempt the same wishes ask for no call |
| Safety.OwnershipIsKept | external-dns.go:129-180 | an A record listed at one point of an attempt is listed at every later point at which it exists |
| Safety.ClaimsExist | external-dns.go:150-180 | at every point, each newly listed name is desired and has an A record in the zone |
| Safety.TtlIsNotReconciled | external-dns.go:90-113 | a set with the desired values is never called and keeps its own TTL and order |
| Reconciling.Reconciler.SortedDnsRecordKeys | external-dns.go:166-180 | the keys in the one order the comparator allows |
| Reconciling.Reconciler.SortedKeys | external-dns.go:150-164 | the same for wanted records |
| Reconciling.Reconciler.UpdateRecords | external-dns.go:59-84 | issues the calls in order, stops at the first error, returns the acknowledged records except for removals |
| Reconciling.Reconciler.RemoveExtraRecords | external-dns.go:129-148 | runs the removals of the plan |
| Reconciling.Reconciler.AddMissingRecords | external-dns.go:43-57 | runs the additions of the plan and returns them in order |
| Reconciling.Reconciler.ValuesDiffer | external-dns.go:90-113 | the size and membership loops decide inequality of value sets |
| Reconciling.Reconciler.UpdateExistingRecords | external-dns.go:86-127 | runs the updates of the plan and returns them in order |
| Reconciling.Reconciler.GetProviderDnsRecords | external-dns.go:182-223 | from one read, exactly the records owned and the records compared with |
| Reconciling.Reconciler.UpdateProviderDnsRecords | external-dns.go:16-41 | one attempt is the run of the plan under the script; on success the returned records are, one for one and in order, those of the calls issued after the removals, additions before updates; on failure none |
| Reconciling.ReportFollowsPlan | external-dns.go:28-40 | the same of the plan and the report of a completed attempt |
| Histories.ReconcilerMakesAttempts | external-dns.go:16-41 | under every script the reconciler performs the attempt, with the outcome, that histories are made of |
| Histories.ZonesStaySound | external-dns.go:16-148 | the zone premises hold before every attempt of any history |
| Histories.CompletedAttemptLists | external-dns.go:86-148 | after a completed attempt exactly the desired A names are listed |
| Histories.LeakBound | external-dns.go:16-84 | a present record the service wrote is listed, or was written by a failed attempt and desired by no later successful one |
| Histories.WrittenIsListedIff | external-dns.go:150-180 | a record just written is listed exactly when the state record's call was reached or it was listed before |
| Histories.HistoryLookup | external-dns.go:59-84 | after any history, failures included, a key holds what the last attempt whose call on it took effect wished for, else its first contents |
| Histories.ListedByHistory | external-dns.go:198-207 | the listed names are those the last attempt that reached the state record desired, else the first ones |
| Histories.PresentIsListedIff | external-dns.go:182-223 | over histories, a present A record is listed exactly when that attempt desired it, or it was listed at first |
| Histories.NothingLeaksWithoutFailure | external-dns.go:16-84 | with no failures every present record the service wrote is listed after every attempt |
| Histories.OwnershipLasts | external-dns.go:129-180 | across any attempts and failures a listed A record stays listed at every moment while it exists |
| Upgrading.EnsureUpgradeToStateRRSet | external-dns.go:230-265 | issues no call if there is a state record or nothing to adopt, and else one addition of a TXT record that lists exactly the A names with the configured TTL that end in the lower-cased environment name and root domain |
| Upgrading.AdoptionInFields | external-dns.go:246-259 | when there is something to adopt, and what, in terms of the stored sets |
| Upgrading.CollectLegacy | external-dns.go:246-254 | collects exactly the A names with the legacy suffix and TTL |
| Upgrading.UpgradeIsExactAndIdempotent | external-dns.go:225-265 | the new state record lists exactly the legacy names, no other set changes, a second run does nothing |
| Upgrading.FirstAttemptRemovesExactlyLegacy | external-dns.go:129-148 | the first attempt after an upgrade removes exactly the legacy A records not desired |
| Polling.StepStaysSound | main.go:104-163 | a round keeps the zone premises |
| Polling.AttemptsIff | main.go:104-173 | at a new version the records are read, and an attempt is made unless they are the cached ones and one has succeeded; at the old version both happen exactly when sixty seconds have passed since the last success |
| Polling.RoundInFields | main.go:110-156 | a version that was read is taken over whatever fails; time, flag and cache change with a success only |
| Polling.LoopRunsAreHistories | main.go:104-163 | the zone after any run of the loop is the zone after the history of its attempts |
| Polling.LoopLeakBound | main.go:104-163 | the leak bound holds for the running loop |
| Caching.CacheIsCurrent | main.go:132-156 | while nothing failed since the last success the zone is in sync with the cache |
| Caching.SkippedRoundsAreIdle | main.go:132-159 | in that case a round the cache skips would have issued no call |
| Caching.SyncDecidesWishes | external-dns.go:86-118 | a zone is in sync with two wishes at once exactly when they ask for the same values |
| Caching.LevelStep | main.go:104-173 | one round of the two loops, with and without cache: their zones differ afterwards exactly when just one reads and reads other values than the cache holds |
| Caching.CachedLoopRefinesUncached | main.go:104-173 | while calls complete, the cached loop's zone is at every moment the one of the loop without cache, with its own update times, if and only if no such round occurs |
| Caching.VersionedRunsAgree | main.go:104-173 | when the records are a function of the version the two loops differ in the time of the last update only |
| Caching.FlipBackIsHarmlessIff | main.go:136-142 | after any attempts for any wishes, skipping the cached ones is harmless exactly when, name by name, the last call that took effect wanted the same |
| Caching.SkipIsHarmlessIff | main.go:132-159 | for every run of the loop, a skipped round would have issued no call exactly when the attempts failed since the last success agree in that way with the cache |
| Caching.OneFlipBackIsHarmlessIff | main.go:136-142 | after one interrupted attempt the flipped-back wishes ask for nothing exactly when no applied call named one of them or the state record |
| Healing.CalmStep | main.go:104-163 | with favourable calls a round leaves the target if it makes an attempt and the same zone if not |
| Healing.CalmRun | main.go:104-163 | nothing but the version changes before the first round that triggers an attempt, and from then on the zone is the target |
| Healing.HealsIff | main.go:110-162 | while the same records are read and calls complete, the zone is the target exactly when it was from the start or some round saw a new version with uncached wishes, or the old one sixty seconds after the last success |
| Healing.HealsWithinAMinute | main.go:110-162 | from any state, in calm, the zone is the target from the first unchanged-version round sixty seconds after the last success on |
| Healing.ChangingVersionsStarveTheForcedUpdate | main.go:110-119 | with a new version in every round and cached wishes the zone is never touched |
| Polling.ReportedIsWritten | external-dns.go:28-40 | a completed attempt reports exactly the wanted records that had to be written |
| Polling.InterruptedWritesGoUnreported | external-dns.go:28-38 | a record written by an attempt that then fails is not reported by it, nor by the next attempt that wants it |
| Polling.Controller.Round | main.go:104-163 | one round of the loop is the step function: trigger, metadata read, cache, attempt, bookkeeping |
| Samples.FlipBackExample | main.go:136-156 | a concrete run in which the cache skips a zone that is wrong |
| Samples.LeakExample | external-dns.go:43-57 | a concrete history that leaves a written record listed nowhere |
| Samples.CacheCostExample | main.go:104-173 | a concrete run without failures in which the loops with and without cache leave different zones |
| Samples.StarvedExample | main.go:110-142 | for any number of minutes a wrong zone stays wrong though nothing fails |
| Naming.SanitizedIsJoinedRuns | utils/utils.go:97-106 | a sanitized label is its maximal alphanumeric runs joined by single dashes |
| Naming.SanitizeFixesExactlyCleanLabels | utils/utils.go:97-106 | results are clean labels, exactly clean labels are left alone, hence idempotence |
| Naming.LabelSurvivesIff | utils/utils.go:97-106 | a label is left alone exactly if it consists of a-z, A-Z, 0-9 and single inner dashes |
| Naming.RunsApart | utils/utils.go:97-106 | any other character separates the runs on its two sides |
| Naming.RunOfAlnum | utils/utils.go:97-106 | letters and digits in a row are one run |
| Naming.TrimShape | utils/utils.go:105 | trimming cuts off the whole runs of the character at both ends and nothing else |
| Naming.LowerCased | utils/utils.go:73-78 | A to Z become a to z and nothing else changes |
| Naming.ExpandsInOrder | utils/utils.go:53-74 | a template expands piece by piece, in order |
| Naming.PieceExpandsTo | utils/utils.go:59-70 | text stands for itself, each placeholder for its own input made a label |
| Naming.GeneratedNameShape | utils/utils.go:72-73 | a generated name is the lower-cased expansion, a dot and the lower-cased root |
| Naming.StateFqdnShape | utils/utils.go:14-16 | the state name is made of the prefix, the lower-cased identity and the lower-cased root |
| Naming.StateFqdnIsPerEnvironment | utils/utils.go:76-79 | two environments share it exactly when their identities agree up to case |
| Naming.UnFqdnIff | utils/utils.go:45-51 | one trailing dot is dropped if there is one |
| Naming.GeneratedNamesAreLowerCase | utils/utils.go:53-79 | generated names are fixed points of lower-casing |
| Naming.NamesDependOnRunsOnly | utils/utils.go:53-74 | a name depends on service, stack and environment only through their alphanumeric runs |
| Naming.StateRecord | utils/utils.go:81-95 | the state record of a set of names, whatever order the set is ranged over in |
| Naming.StateRecordIsCanonical | utils/utils.go:81-95 | its values are exactly the names, strictly ascending, in the only such sequence |
| Building.MetadataClient.GetMetadataDnsRecords | metadata/metadata.go:73-84 | refreshes the environment name, then builds; any failed read fails the call |
| Building.MetadataClient.UpdateEnvironmentName | metadata/metadata.go:201-211 | the name is replaced exactly when the read succeeds |
| Building.MetadataClient.GetContainersDnsRecords | metadata/metadata.go:86-191 | the nested loops with the host cache build what uncached lookups in the host table give |
| Building.MetadataClient.AddService | metadata/metadata.go:111-177 | the inner loop adds exactly the contributions of the service's containers |
| Building.MetadataClient.Consider | metadata/metadata.go:111-173 | the filters, host lookup and address choice yield the container's contribution; the cache stays a part of the host table |
| Building.MetadataClient.AddToDnsEntries | metadata/metadata.go:213-238 | adds one entry, or nothing if the address is there |
| Wishes.CollectedRecord | metadata/metadata.go:213-238 | a record holds the addresses entered for its name, each once, in order of first appearance |
| Wishes.CollectedOwner | metadata/metadata.go:228-231 | the record is credited to the last entry that brought in a new address |
| Wishes.BuiltOrderIsFirstAppearance | metadata/metadata.go:213-238 | a built record lists its addresses in order of first appearance in the metadata |
| Wishes.ContributionIff | metadata/metadata.go:94-177 | what a container contributes, in terms of the service's kind and labels, its own state, health, ports and host, and the host's labels |
| Wishes.AddressIff | metadata/metadata.go:144-162 | the host's label, else the first port's address, else the agent's |
| Wishes.BuiltIff | metadata/metadata.go:94-177 | an address is wanted at a name exactly when some container is published there with it by these rules |
| Wishes.EntriesInOrder | metadata/metadata.go:94 | contributions come service by service |
| Wishes.ContainersInOrder | metadata/metadata.go:111 | and container by container |
| Wishes.OneAtATime | metadata/metadata.go:111-177 | each container contributes one entry or none |
| Wishes.OrderShowsInTheRecords | main.go:172 | the containers of a service listed the other way round are the same pairs but build other records by value |
| Wishes.BuiltAddressesAreExact | metadata/metadata.go:94-177 | an A record is wanted exactly where an eligible container maps, with exactly those containers' addresses, none twice |
| Wishes.StateRecordIsWantedIff | metadata/metadata.go:180-188 | the state record is wanted exactly when some container is eligible; without it nothing is |
| Wishes.BuiltStateRecordIsExact | utils/utils.go:81-95 | it lists exactly the mapped names, strictly ascending |
| Wishes.BuiltIsWellFormedIff | metadata/metadata.go:180-188 | the result is fit for the reconciler exactly when no container maps to the state record's name |
| Wishes.BuiltIgnoresOrder | metadata/metadata.go:94-188 | key set, value sets and state record depend only on which containers belong to which services |
| Wishes.PermutedServicesKeepPairs | metadata/metadata.go:94 | permuting services leaves that unchanged |
| Wishes.PermutedContainersKeepPairs | metadata/metadata.go:111 | permuting the containers of a service leaves that unchanged |
| Wishes.ReorderedMetadataIsIdle | external-dns.go:86-118 | after a completed attempt a merely reordered reading asks for no call |
| Wishes.PortYieldsAddressIff | metadata/metadata.go:258-270 | a port yields an address exactly when it has three parts and the first is neither empty nor the wildcard |
| Route53.QuoteRoundTripIff | providers/route53/route53.go:185-188 | a TXT value is read back as written exactly when it has no quote at either end |
| Route53.RequoteIff | providers/route53/route53.go:252-262 | requoting what was read restores the stored value exactly when it is in the adapter's own form |
| Route53.Route53Provider.ChangeRecord | providers/route53/route53.go:179-208 | one request with the encoded values; an empty record is turned down before any request |
| Route53.Route53Provider.AddRecord | providers/route53/route53.go:167-169 | an upsert: unless refused, the zone then holds the TTL and the values in order, TXT values in double quotes |
| Route53.Route53Provider.UpdateRecord | providers/route53/route53.go:171-173 | an upsert, with the same result: the whole set is replaced at once or not at all |
| Route53.Route53Provider.RemoveRecord | providers/route53/route53.go:175-177 | a deletion of exactly the encoded set |
| Route53.PlannedDeleteMatchesIff | providers/route53/route53.go:175-208 | a deletion planned from a read matches the stored set exactly when that is in the adapter's own form |
| Route53.ChangeRefinesCall | providers/route53/route53.go:167-208 | a request does to the zone as read exactly what the abstract call does, reply included |
| Route53.RawRunRefinesRun | providers/route53/route53.go:167-208 | so does any interrupted sequence of requests, and what was stored in the adapter's own form still is |
| Route53.AttemptOnStoredZone | providers/route53/route53.go:167-208 | so does an attempt of the reconciler, given a state record stored in the adapter's own form and listed names without outer quotes; the former still holds after it |
| Stored.StateRecordIsCleanIff | providers/route53/route53.go:185-188 | a wanted state record survives quoting exactly when every name it lists has no quote at either end |
| Stored.StoredHistoryRefinesHistory | providers/route53/route53.go:167-276 | through any history with failures, what is read from the stored zone is what the abstract history leaves |
| Stored.StoredLeakBound | providers/route53/route53.go:167-276 | the leak bound holds for the stored zone |
| Route53.RecordSetLister.GetRecords | providers/route53/route53.go:210-276 | for every choice of page sizes, all readable sets once, in server order, decoded; it ends, and cannot fail on a named zone |
| Route53.DecodeAll | providers/route53/route53.go:238-275 | skips exactly the incomplete and proprietary sets and trims TXT values |
| Route53.SetsInOrder | providers/route53/route53.go:238-250 | read are, in server order, the sets with name, type and TTL that are neither alias nor traffic-policy sets |
| Route53.ValuesInOrder | providers/route53/route53.go:252-262 | of a set, the values present, in order |
| Route53.CompleteSetIsRead | providers/route53/route53.go:252-275 | a set with all values present is read value for value, TXT values without outer quotes |
| Route53.ReadingEnumeratesZone | providers/route53/route53.go:238-275 | reading a listing that shows every stored value enumerates the decoded zone |
| Grouping.GroupByScanning | providers/rfc2136/rfc2136.go:149-201 | one set per key in order of first appearance, values in input order, the first TTL |
| Grouping.HandledIff | providers/rfc2136/rfc2136.go:156-181 | kept are CNAME, A, AAAA and TXT records of the Internet class, each with its own type, name, TTL and data |
| Grouping.HandledInOrder | providers/rfc2136/rfc2136.go:156-181 | in the order of the transfer |
| Grouping.ValuesInOrder | providers/rfc2136/rfc2136.go:183-197 | the values of a group come in input order |
| Grouping.ValuesOfOne | providers/rfc2136/rfc2136.go:183-197 | a record gives its values to the group of its name and type only |
| Grouping.TtlOfFirst | providers/rfc2136/rfc2136.go:190-196 | the TTL of a group is that of its first record |
| Grouping.FirstSeenGrows | providers/rfc2136/rfc2136.go:183-197 | groups stand in the order in which their first records come |
| Grouping.Extend | providers/rfc2136/rfc2136.go:183-197 | extends the one set with the record's key or appends a new one |
| Grouping.GroupByMap | providers/alidns/alidns.go:129-165 | the same groups, in ascending order of name and type |
| Grouping.RRKeyOrderIsStrict | providers/alidns/alidns.go:156-161 | the key comparator is a strict order |
| Grouping.MapAndScanHoldTheSameSets | providers/alidns/alidns.go:125-166 | on the same input the map result holds the sets of the scan result and as many |
| Grouping.MapResultAscends | providers/alidns/alidns.go:152-165 | the map result ascends strictly by name and type, so each key occurs once |
| Grouping.GroupingConservesRecords | providers/rfc2136/rfc2136.go:183-197 | the multiset of name, type and value is conserved |
| AliDns.NameRoundTrip | providers/alidns/alidns.go:136-142 | parsing the full name built from a label gives its trimmed form, and the label itself exactly when it is not empty and has no outer blanks |
| AliDns.ReadRecordIsAddressedIff | providers/alidns/alidns.go:210-227 | a change under the name a record was read with finds that record exactly in this case |
| AliDns.ParseNameAcceptsZoneOnly | providers/alidns/alidns.go:169-183 | exactly the apex and names below it are accepted |
| AliDns.ParsedNameIs | providers/alidns/alidns.go:169-183 | an accepted name parses to what stands before the zone, and to "@" at the apex |
| AliDns.TrimSpaceShape | providers/alidns/alidns.go:136 | trimming cuts off all blanks at both ends and nothing else |
| AliDns.AlidnsProvider.ListRecords | providers/alidns/alidns.go:229-260 | all records once in server order if a total is reported or pages are full; otherwise exactly the first page; the number of calls is known and it fails exactly when one of them does |
| AliDns.AlidnsProvider.FindRecords | providers/alidns/alidns.go:210-227 | exactly the records of the addressed name and type among those listed |
| AliDns.MatchingMembers | providers/alidns/alidns.go:219-225 | addressed are the records with this name and this type, and no others |
| AliDns.AlidnsProvider.RemoveRecord | providers/alidns/alidns.go:100-117 | success removes exactly the addressed records; no failure touches any other; with complete listings what is left of the set is a tail, and the fates decide which |
| AliDns.AlidnsProvider.AddRecord | providers/alidns/alidns.go:80-91 | appends the values in order up to the first failure; TTL and name are checked first |
| AliDns.AlidnsProvider.UpdateRecord | providers/alidns/alidns.go:93-98 | success leaves exactly the new values and all other sets; with complete listings the set is at every failure point a tail of the old or a prefix of the new, and the fates decide which; with no failed call and all IDs it errs exactly when the TTL is not positive and there is a value to add |
| AliDns.UpdateIsAtomicIff | providers/alidns/alidns.go:80-117 | every failure point is wholly old or wholly new exactly when there is at most one step to take |
| AliDns.GetRecords | providers/alidns/alidns.go:119-167 | the complete records among those listed, grouped by name and type, ascending; it fails exactly when a listing call does |
| AliDns.CompleteInOrder | providers/alidns/alidns.go:129-150 | read are, in order, the records with label, type, value and TTL, under label, dot and zone or the zone alone |
| Gandi.InZoneNameAddressesItsLabel | providers/gandi/gandi.go:168-172 | below the apex a name finds and adds exactly its own label |
| Gandi.DotlessNameIsAddedButNotFound | providers/gandi/gandi.go:161-177 | a name without its final dot is added under its label but no stored record is found |
| Gandi.ApexIsNeverFound | providers/gandi/gandi.go:226-236 | at the apex no stored record is found |
| Gandi.TrimSuffixIs | providers/gandi/gandi.go:226-236 | a suffix is cut off once, if it is there |
| Gandi.GandiProvider.NewZoneVersion | providers/gandi/gandi.go:272-285 | a fresh copy of the active version |
| Gandi.GandiProvider.VersionAddRecord | providers/gandi/gandi.go:231-253 | adds the values in order to an inactive version, the live zone untouched |
| Gandi.GandiProvider.VersionRemoveRecord | providers/gandi/gandi.go:255-270 | removes exactly the addressed records of an inactive version, the live zone untouched |
| Gandi.GandiProvider.FindRecords | providers/gandi/gandi.go:161-177 | exactly the addressed records of the version |
| Gandi.GandiProvider.UpdateRecord | providers/gandi/gandi.go:123-142 | at every failure point the live zone is wholly old or wholly new; success is the latter |
| Gandi.GandiProvider.AddRecord | providers/gandi/gandi.go:106-121 | likewise for an addition |
| Gandi.GandiProvider.RemoveRecord | providers/gandi/gandi.go:144-159 | likewise for a removal |
| Gandi.UpdatedSetHoldsNewValuesOnly | providers/gandi/gandi.go:123-142 | below the apex the updated set holds exactly the new values and all other sets are as before |

## Left out

- Reconciling.Reconciler.UpdateProviderDnsRecords: asks that wanted records are of type A or TXT, because the order in which sort.Slice leaves other types is not specified (`Ordering.KeyOrderIsStrictIff`); the builder produces no others.
- Reconciling.Reconciler.UpdateRecords: the default branch for an unknown operation is not modelled, because the three operations are the only ones that exist.
- Building.MetadataClient.GetContainersDnsRecords: host lookups are answered by a table that does not change during a build; a lookup that fails once and then succeeds is not modelled.
- Naming.GeneratedNamesAreLowerCase: lower-casing is ASCII only, because Unicode case mapping belongs to Go's library.
- Naming.NamesDependOnRunsOnly: templates arrive parsed into text and known placeholders; a template with an unknown placeholder ends the process and is not modelled.
- Naming.SanitizeFixesExactlyCleanLabels: the 63-character limit of section 2.1 of RFC 1123 is not enforced by the code and not stated.
- Polling.Controller.Round: reflect.DeepEqual is equality of values, so a nil list and an empty one are not told apart; platform notifications are represented by the returned list only.
- Caching.CachedLoopRefinesUncached: compares the loops while calls complete, because with failures the two meet them at different calls; what a skip costs then is said by `Caching.SkipIsHarmlessIff`.
- Route53.ChangeRefinesCall: alias and traffic-policy sets are skipped in reading and cannot be changed; weighted sets, several under one name and type, are not part of this model, although the code reads them like any other; values the service itself would reject are taken as a refused call.
- Route53.RecordSetLister.GetRecords: continuation is by name and type; the set identifier of weighted sets is not part of this model.
- AliDns.NameRoundTrip: trimming knows the ASCII blanks only, because Unicode blanks belong to Go's library.
- AliDns.AlidnsProvider.ListRecords: a missing response body is represented by the failing call, and IDs are numbers or missing.
- Gandi.GandiProvider.FindRecords: the version listing is one call that fails or returns the whole version.
- Integer widths: TTLs and counters are unbounded.
- HTTP clients, retries, rate limits, TSIG, credentials, logging, the health endpoint, environment parsing, provider and zone discovery: input and output around the modelled code.
- RFC 2136 message construction, Gandi GetRecords, and the Cloudflare, DNSimple, OVH, PointHQ, Infoblox, DigitalOcean and PowerDNS adapters: none is registered in the published image, and their grouping adds no harder property.
- Concurrent writers to the zone: the protocol has no locking and assumes none.
