# Verified model of the Barman evidence pipeline

ObjectStoreViewer lists an object store that holds PostgreSQL base backups and WAL, and publishes what the listing
proves about them. Its design goal is never to overstate evidence. This project models that pipeline in Dafny and proves
the goal end to end, over every listing, every store behaviour and every run of refreshes:

1. **Listing to WAL ranges.** `WalNames`, `WalClassify` and `WalCollector` turn object keys into segments and compact
   them as they stream by. `WalRanges`, `WalGaps` and `WalCatalog` place them in linear positions, merge across log
   rollover and compute gaps; `WalEvidence` relates the result to the plain set of listed segments, `WalValidation` to
   the validator, and `GapLifecycle` to the sequence of complete scans.
2. **Timelines and recovery.** `Timelines`, `Ancestries` and `Histories` parse, cross-check and judge history files.
   `RangeWalk`, `PathCoverage`, `RecoveryPaths`, `ServerRecovery` and `RecoveryCatalogs` walk each backup over its
   switchpoints; `SwitchCoverage` settles when switch segments are seen on both timelines. `RecoveryValidation` and
   `RecoveryValidity` say when the result is publishable.
3. **Scanner.** `RecentHeap`, `BarmanFormat`, `InventoryBuilder` and `InventoryCompletion` count one listing;
   `BackupCatalogs` groups its backup objects by directory; `Scanning` and `ScanOutcomes` run the bounded paged scan
   against a store that may answer anything; `ScanEvidence` rolls evidence up; `Inventory` validates and caches snapshots;
   `Scanner` is the refresh state machine, over the cache alone or over the sidecar's publishing cache. `EndToEnd` composes
   all of it. `ScanValidity` says when a complete scan is accepted, `ScanRuns` and `ScanRefusals` which scans are not, and
   `ScanStores` and `SwitchScans` exhibit stores and scan them.
4. **Publication.** `EvidenceContract`, `Publications`, `EvidenceEngine`, `Traversals` and `Sidecar` cover projection,
   revision-monotone publication, cursor paging under interleaved publication, and the engine-then-cache pair;
   `ServedRuns` relates all the sidecar serves to the scans behind it, and `ServedFailures`, `Admissions` and
   `AdmittedScans` say which failures and which complete scans are served; `AdmittedStores` scans two such stores.
5. **Two exact refinements.** `Base64` and `CursorCodec` (provider cursors), and `WalBrowser` (one page of all rows).

Objects whose methods update fields are classes (`ServerBuilder`, `Collector`, `Heap`, `Builder`, `Cache`,
`RefreshScanner`, `Engine`, `EvidencePublishingCache`); loops are methods proved against specification functions; the
properties are lemmas about those functions and invariants of the classes. The store, the clock, the context, the reader of
one backup directory and the history reader are parameters (`Scanning.Environment`) about which nothing is assumed, except
that the clock does not read the zero time in `ServedIff`.

Some promises turn out to need a condition. The code is modelled as it is, each condition is exact and on the input, and
where a listing can break it a store is exhibited whose scan is proved to complete and to break it:

- A healthy path shows each switch segment on both timelines exactly when the first switch is not before the segment the
  backup begins in (`AlwaysObservedIff`). Through the whole analysis that holds of a backup exactly when its EndLSN leaves
  no room for a branch before that segment (`SwitchesKeptIff`). `EarlyBranchIsAdmitted` gives the inputs on which it fails;
  `EarlySwitchStore` scans a store with such an input, a backup at position 5 with EndLSN 0/1 (`EarlyEndExists`); the scan
  is published.
- A complete scan can be refused by validation. `CompletedValidIff` gives the condition: the clock did not run backwards;
  no unrecognised WAL key with a control character is among the first 200 findings about its server (`FinishedValidIff`);
  the paths the backups ask for do not overrun the ceiling (which they do exactly when the first few ask for 9,999 and all
  for more than 10,000, because a backup's own path is appended unchecked); the identifiers that reach a path have at most
  256 bytes and no control character; no history object claims a timeline below 2; and at most 1,000 timelines have or miss
  a history (`RecoveryValidIff`). `ScanRefusals` shows that each breach refuses every scan, `ScanStores` scans one store
  for each.
- A valid complete scan is served by the sidecar exactly when its backup records fit the public contract (`ServedIff`). A
  lower-case WAL name does not (`LowerNameIsRefused`): `LowerNameStore` scans a store that is published and not served.
- A failed refresh is published exactly when its category is not `unknown` and the clock did not run backwards
  (`FailurePublishedIff`), and served exactly then (`FailureIsServed`).

## Model

| member | source | states |
|---|---|---|
| `EndToEnd.HealthyMeansProven` | internal/inventory/scanner.go:207-224 | a completed scan is healthy only if every server's listing is free of doubt and contiguous, reported as observed exactly where listed; every listed backup directory has its metadata and a healthy backup; and every backup is covered from its beginning over each switchpoint to the greatest observed position of each target, each switch segment on both timelines unless EndLSN lies before the beginning, with no later timeline left unaccounted for |
| `EndToEnd.HealthyDirectory` | internal/formats/barmancloud/catalog.go:146-182 | where all backups are healthy, every backup directory in the listing has a listed backup.info and a healthy backup of its server and identifier |
| `EndToEnd.CompletedIsWellFounded` | internal/inventory/scanner.go:356-464 | whatever a completed scan publishes as healthy is proven by the listing that scan accepted; without Barman analysis nothing is healthy |
| `EndToEnd.FinishedNeverUnclassified` | internal/formats/barmancloud/recovery.go:459-512 | on the ranges and gaps of any finished catalog neither walk reports an unclassified discontinuity |
| `WalCollector.Collector.Add` | internal/formats/barmancloud/wal.go:152-184 | adding any object keeps one builder per listed server, each holding exactly its share of the listing, and the bounded history references |
| `WalCollector.ServerBuilder.AddSegment` | internal/formats/barmancloud/wal.go:186-232 | one segment advances compaction by one step; the other counters stay as they were |
| `WalCollector.RunCompacts` | internal/formats/barmancloud/wal.go:186-232 | for any sequence of segments: ranges strictly ordered, never adjacent within a log, covering only named positions; segments plus duplicates is the number added; without truncation the out-of-order flag is exact, and in order nothing is lost and receipts are those of the segments |
| `WalCollector.CompactionIsExact` | internal/formats/barmancloud/wal.go:186-232 | untruncated and in order, the covered set is the set of added segments, Segments its cardinality, Duplicates the rest |
| `WalCollector.FindingsQuote` | internal/formats/barmancloud/wal.go:234-243 | every diagnostic quotes the key, name and time of some listed object, and in order there is one per object that is not a complete segment and one per duplicate |
| `WalRanges.MergeRanges` | internal/formats/barmancloud/wal.go:248-294 | the in-place merge equals the merge of all placeable raw ranges, and reports whether any is not placeable |
| `WalRanges.MergedCorrect` | internal/formats/barmancloud/wal.go:262-294 | merged ranges are sorted, disjoint, non-adjacent per timeline across log rollover, with exact counts and names, and cover exactly the placeable raw positions |
| `WalGaps.GapIdentityInjective` | internal/formats/barmancloud/wal.go:363-365 | the text identity of a gap determines its timeline and bounds |
| `WalGaps.GapsForRanges` | internal/formats/barmancloud/wal.go:335-361 | the loop over neighbouring ranges with its index of prior gaps yields exactly the gaps of the ranges |
| `WalGaps.GapsPartition` | internal/formats/barmancloud/wal.go:335-361 | gaps and ranges together partition the interval between the first and last observed position of each timeline |
| `WalGaps.GapHasNeighbours` | internal/formats/barmancloud/wal.go:335-361 | every gap lies exactly between two neighbouring ranges, with count and names to match, and is confirmed exactly when a prior gap has its identity |
| `WalCatalog.WalContext` | internal/formats/barmancloud/wal.go:385-406 | the context loop yields the context of the backups of one server |
| `WalCatalog.ContextKnownIff` | internal/formats/barmancloud/wal.go:385-406 | a context is known only if some backup informs and all that inform are supported and agree; it is rejected only for a witness against that |
| `WalCatalog.Finish` | internal/formats/barmancloud/wal.go:248-327 | one entry per listed or backed-up server, strictly sorted, each determined by that server's share of the listing, the backups, the previous gaps and the generation |
| `WalCatalog.LatestIsGreatest` | internal/formats/barmancloud/wal.go:248-327 | the latest archive receipt is the greatest receipt of the ranges, or the zero time |
| `WalEvidence.ServerHealthyIff` | internal/formats/barmancloud/wal.go:295-322 | a server is healthy exactly when its context is known, its segments are strictly increasing and all placeable, nothing is unrecognized or truncated, and each timeline is one interval |
| `WalEvidence.ObservedIffListed` | internal/formats/barmancloud/wal.go:248-327 | when untruncated, in order and placeable, a position is observed exactly when a listed segment sits there |
| `WalEvidence.NoGapsIff` | internal/formats/barmancloud/wal.go:335-361 | there are no gaps exactly when the observed positions of each timeline form one interval |
| `WalValidation.FinishedValidIff` | internal/formats/barmancloud/wal.go:555-605 | a finished catalog with valid server names passes Validate exactly when no unrecognised key with a control character comes before the first 200 findings about its server are full |
| `WalValidation.FinishedIsValid` | internal/formats/barmancloud/wal.go:555-605 | so it always passes when no key holds a control character |
| `WalValidation.KeptArePlainIff` | internal/formats/barmancloud/wal.go:234-243 | the kept diagnostics quote plain keys exactly when each unrecognised key with a control character has 200 findings before it |
| `WalValidation.RecognisedIsPlain` | internal/formats/barmancloud/wal.go:460-533 | whatever the classification recognises has a key without control characters, if its server has |
| `WalNames.BitTrickIsPowerOfTwo` | internal/formats/barmancloud/wal.go:408-410 | the bit test accepts exactly the powers of two |
| `WalNames.SegmentsFillLog` | internal/formats/barmancloud/wal.go:414-442 | for every valid size the segments of a log fill its 4 GiB exactly |
| `WalNames.ParseOfName` | internal/formats/barmancloud/wal.go:427-456 | parsing inverts naming on every representable position |
| `WalNames.NameOfParse` | internal/formats/barmancloud/wal.go:427-456 | naming a parsed name gives its upper-case form |
| `WalNames.NameOrder` | internal/formats/barmancloud/wal.go:427-442 | byte order of names is (timeline, position) order across log rollover |
| `WalClassify.SegmentKeyClassifies` | internal/formats/barmancloud/wal.go:460-533 | a key in Barman's layout with any supported suffix classifies as a segment of that server with the name's own components |
| `WalClassify.ClassifiedSegmentHasKey` | internal/formats/barmancloud/wal.go:460-533 | every object classified as a segment has such a key |
| `WalClassify.HistoryKeyClassifies` | internal/formats/barmancloud/wal.go:460-533 | a history key directly below wals classifies as the history of any non-zero timeline it names, including 1 |
| `GapLifecycle.GapsAreFaithful` | internal/formats/barmancloud/wal.go:335-361 | over every chain of published complete scans a gap is confirmed exactly when the previous one held it, First is the generation that began the unbroken run, Last the newest, and First is before Last exactly when confirmed |
| `Timelines.ParseHistory` | internal/formats/barmancloud/recovery.go:118-175 | yields the linked edges exactly for 1 to 128 real, strictly ascending ancestors below the target at strictly ascending switchpoints |
| `Timelines.ParsedIsChained` | internal/formats/barmancloud/recovery.go:156-174 | a parsed history is a strictly ascending parent-to-child chain that ends at its target, with ascending switch positions |
| `Timelines.SwitchIsNameable` | internal/formats/barmancloud/recovery.go:165-171 | every 64-bit switchpoint lies in a nameable segment, so the naming error is never returned |
| `Timelines.LsnPosition` | internal/formats/barmancloud/recovery.go:165-188 | the switch position of an LSN is the position of the segment file that holds it, for every valid segment size |
| `Ancestries.HistoryEdgesAgree` | internal/formats/barmancloud/recovery.go:656-666 | answers whether no edge contradicts the known parent of its child, and records the edges only then |
| `Ancestries.LearnRecords` | internal/formats/barmancloud/recovery.go:656-666 | learning agreeing ascending edges records them, forgets nothing and keeps the parent map a forest |
| `Ancestries.CycleInEdges` | internal/formats/barmancloud/recovery.go:668-684 | terminates on every map and answers exactly whether climbing from some child never ends |
| `Ancestries.ForestEnds` | internal/formats/barmancloud/recovery.go:668-684 | in a forest every climb ends, so there is never a cycle |
| `Ancestries.PathUnique` | internal/formats/barmancloud/recovery.go:365-391 | within one parent map there is at most one path between two timelines |
| `Ancestries.DescendantsPath` | internal/formats/barmancloud/recovery.go:534-541 | every prefix of the descendants of a chain is a path from the start to the child of its last edge |
| `Histories.JudgeOne` | internal/formats/barmancloud/recovery.go:246-269 | one history is judged in the order duplicate, unreadable, malformed, contradictory, cyclic, disagreeing with child ranges, healthy |
| `Histories.JudgedFormForest` | internal/formats/barmancloud/recovery.go:220-284 | the healthy histories of a server are chains recorded in one forest, with each switch position that of its LSN, that their child ranges bear out, and none is ever rejected as cyclic |
| `Histories.AnalyzeHistories` | internal/formats/barmancloud/recovery.go:220-284 | the strictly sorted result holds exactly the judged histories and one missing entry per observed timeline nothing accounts for; the state is healthy exactly when something was observed and all of it is healthy |
| `RangeWalk.WalkTo` | internal/formats/barmancloud/recovery.go:459-488 | the loop agrees with the recursive walk over the ranges of one timeline |
| `RangeWalk.WalkOn` | internal/formats/barmancloud/recovery.go:490-512 | the loop agrees with the recursive frontier walk |
| `RangeWalk.ReachRefines` | internal/formats/barmancloud/recovery.go:459-488 | healthy exactly when every position from the start to the required one is observed; otherwise it stops at the end of the run of the start, for the reason the gap there gives |
| `RangeWalk.ExtendRefines` | internal/formats/barmancloud/recovery.go:490-512 | from an observed start it returns the largest position up to which everything is observed, healthy exactly when that is the greatest observed one |
| `RangeWalk.FinishedGapsClassify` | internal/formats/barmancloud/recovery.go:715-722 | wherever observed WAL breaks off before more of it, the finished gaps hold one that starts right there |
| `RangeWalk.WalksIgnoreHistory` | internal/formats/barmancloud/recovery.go:696-722 | ranges and gaps wholly before the start change neither walk |
| `PathCoverage.EvaluateRecoveryPath` | internal/formats/barmancloud/recovery.go:423-457 | the loop over switchpoints agrees with the recursive evaluation of the legs |
| `PathCoverage.PathHealthyIff` | internal/formats/barmancloud/recovery.go:423-457 | a path is healthy exactly when WAL is not unknown and every position of every leg is observed, each switch segment also on its child; its frontier is then the greatest observed position of the last timeline |
| `PathCoverage.PathStopsAtGap` | internal/formats/barmancloud/recovery.go:423-512 | a warning or unhealthy path is observed up to its frontier, and a candidate or confirmed gap starts exactly one position later |
| `PathCoverage.EvaluateLabelled` | internal/formats/barmancloud/recovery.go:423-512 | over known WAL a path names its frontier position, gives no receipt but that of the range ending there, and its stop tells its state |
| `SwitchCoverage.HealthySwitches` | internal/formats/barmancloud/recovery.go:441-452 | on a healthy path every switch segment is observed on both timelines if the first switch is not before the segment the backup begins in |
| `SwitchCoverage.AlwaysObservedIff` | internal/formats/barmancloud/recovery.go:423-457 | for any path of edges with ascending switches: whatever WAL there is, being healthy implies each switch segment on the parent exactly when the first switch is not before the segment the backup begins in |
| `SwitchCoverage.EarlySwitchUnchecked` | internal/formats/barmancloud/recovery.go:441-452 | over any edges whose first switch is before that segment there is evidence on which the path is healthy though the parent never showed the switch segment |
| `SwitchCoverage.BranchAfterBackup` | internal/formats/barmancloud/recovery.go:526-532 | a branch the guard lets through switches no earlier than the segment EndLSN is anchored to |
| `SwitchCoverage.LateSwitchesObserved` | internal/formats/barmancloud/recovery.go:376-391 | for every history edge the guard lets through, a healthy path of a backup whose EndLSN is not before its first segment has every switch segment on both timelines |
| `SwitchCoverage.SwitchesKeptIff` | internal/formats/barmancloud/recovery.go:423-457 | over everything that can be analysed, healthy paths of a backup have their switch segments on both timelines exactly when EndLSN leaves no room for a branch before the first segment, or there is no later timeline |
| `SwitchCoverage.EarlyBranchIsAdmitted` | internal/formats/barmancloud/recovery.go:526-532 | for every other backup: on all WAL and history of that shape, which exists, the analysis lets the guard admit an early branch and the path is healthy without its switch segment |
| `SwitchCoverage.EarlyEndExists` | internal/formats/barmancloud/recovery.go:514-532 | a backup at position 5 with EndLSN 0/1 has valid anchors and is such a backup |
| `RecoveryPaths.BackupPaths` | internal/formats/barmancloud/recovery.go:350-410 | one genuine path per reached target and the backup's own, one unknown path per unconnected later timeline, targets all different; cut exactly when it has several targets and they reach the ceiling, then holding the first targets in order of discovery up to the ceiling and one unknown path |
| `ServerRecovery.RecoveryPathsOf` | internal/formats/barmancloud/recovery.go:338-421 | the sorted list is conflicting, complete, or capped at the first backup whose paths reach the ceiling; its length is exactly what the backups ask for up to that cut; strictly increasing by backup and target for distinct identifiers and agreeing histories |
| `ServerRecovery.PathsFitIff` | internal/formats/barmancloud/recovery.go:338-421 | the list stays within the ceiling exactly unless the first few backups ask for one path less than it and all of them for more than it (under a conflict: unless there are more healthy backups than that) |
| `ServerRecovery.PathsPartition` | internal/formats/barmancloud/recovery.go:338-421 | each healthy backup with valid anchors has exactly one path on its own timeline, and each later observed timeline is the target of exactly one path unless it lies on a healthy chain branching at or before the backup's end |
| `ServerRecovery.GenuineUnique` | internal/formats/barmancloud/recovery.go:385-391 | any two histories that reach a target evaluate to the same path, so skipping seen targets loses nothing |
| `ServerRecovery.SameEdges` | internal/formats/barmancloud/recovery.go:365-391 | two healthy histories that connect a backup to the same timeline give identical edges and the same branch decision |
| `ServerRecovery.ReachedExcludesSkipped` | internal/formats/barmancloud/recovery.go:376-391 | no target is both evaluated and passed over as branching before the backup |
| `ServerRecovery.CompletePartitions` | internal/formats/barmancloud/recovery.go:362-410 | in the list of one backup each target occurs once, and a later observed timeline is missing exactly when it was passed over |
| `ServerRecovery.ConflictingSystemIDs` | internal/formats/barmancloud/recovery.go:623-638 | answers exactly whether two healthy backups carry different system identifiers |
| `ServerRecovery.CoverageHealthyIff` | internal/formats/barmancloud/recovery.go:570-588 | coverage is healthy exactly when there are paths and all are healthy, which excludes a conflict and a capped list |
| `RecoveryCatalogs.AnalyzeRecovery` | internal/formats/barmancloud/recovery.go:190-218 | one entry per server named by WAL, backups or histories, strictly sorted, each judged, evaluated and rolled up from its own share |
| `RecoveryCatalogs.RetentionSummary` | internal/formats/barmancloud/recovery.go:543-568 | counts the usable backups, bounds their completions, and is unhealthy only below a configured minimum, unknown under an uninterpreted policy |
| `RecoveryValidity.RecoveryValidIff` | internal/formats/barmancloud/recovery.go:728-771 | the catalog passes Validate exactly when for every server the paths asked for fit, the identifiers that reach a path are valid, no history object claims a timeline below 2, and the timelines with objects and those that miss a history are at most a thousand |
| `RecoveryValidity.HistoriesCounted` | internal/formats/barmancloud/recovery.go:220-284 | there is one history per timeline with objects and one per timeline that requires one and has none |
| `RecoveryValidity.HistoriesDetermined` | internal/formats/barmancloud/recovery.go:220-284 | the judged histories of a server are a function of its WAL and history objects |
| `Evidence.JoinIsLeastBound` | internal/inventory/scanner.go:423-434 | the roll-up of states is the least one at least as cautious as every member |
| `Evidence.JoinHealthyIff` | internal/inventory/scanner.go:386-464 | a roll-up is healthy exactly when there is something to join and all of it is healthy |
| `ScanEvidence.ApplyCatalog` | internal/inventory/scanner.go:356-384 | the switch over backup states is the same roll-up, unknown without backups |
| `ScanEvidence.ConcludedHealthyIff` | internal/inventory/scanner.go:356-464 | the envelope is healthy exactly when backups, WAL servers and recovery entries exist and each is healthy in every respect |
| `RecentHeap.Heap.Add` | internal/inventory/scanner.go:484-493 | after any sequence of adds the heap holds a selection of the most recent objects within the limit, and nothing left out is more recent than anything kept |
| `RecentHeap.Heap.Recent` | internal/inventory/scanner.go:509-511 | the published list is that selection, newest first |
| `RecentHeap.RootIsLeast` | internal/inventory/scanner.go:520-533 | the root is never more recent than anything kept |
| `RecentHeap.SelectLength` | internal/inventory/scanner.go:484-493 | the selection has min(limit, n) entries |
| `RecentHeap.SelectionIsPrefix` | internal/inventory/scanner.go:484-511 | without ties the published list is the beginning of everything offered, sorted |
| `BarmanFormat.MatchedServer` | internal/formats/barmancloud/format.go:61-78 | the scope an object matches is a valid one, a configured one where any is configured, and the server its WAL facts belong to |
| `InventoryBuilder.Builder.Add` | internal/inventory/scanner.go:303-346 | an object is refused exactly for the listed reasons, never for a scope counter; otherwise all counters, scopes, recents, catalog objects and WAL facts are those of the longer listing |
| `InventoryBuilder.ShareFits` | internal/inventory/scanner.go:323-327 | a scope's counters can never overflow before the totals do |
| `InventoryCompletion.CompleteSnapshot` | internal/inventory/scanner.go:495-518 | the snapshot of a listing holds exactly its counts, strictly sorted scopes, and the most recent objects |
| `InventoryCompletion.CountersConserved` | internal/inventory/scanner.go:495-518 | scoped and unscoped objects add up to the whole listing, scoped bytes never exceed the total, and all fit 64 bits |
| `Scanning.ListAll` | internal/inventory/scanner.go:171-206 | against any store the loop ends within the page ceiling, counts at most maxObjects, and either accepts the walked listing or reports why not |
| `Scanning.WalkExhausts` | internal/inventory/scanner.go:171-206 | a walk succeeds only after a page without a cursor, having accepted exactly the concatenation of the store's answers, each asked for with the cursor of the one before |
| `ScanOutcomes.Scan` | internal/inventory/scanner.go:161-225 | every outcome of a scan: the error of the first failing step, or the completed snapshot of the walked listing, evaluated against the previous WAL catalog |
| `BackupCatalogs.GroupDirectories` | internal/formats/barmancloud/catalog.go:147-156 | the loop files every backup object under its directory, in listing order, and nothing else |
| `BackupCatalogs.Analyze` | internal/formats/barmancloud/catalog.go:146-182 | one backup for each listed directory, unknown where backup.info is not listed, strictly sorted by server and identifier, whatever order the map yields |
| `BackupCatalogs.CatalogUnique` | internal/formats/barmancloud/catalog.go:176-181 | the listing and the reader determine the catalog |
| `ScanValidity.BackupsAreSane` | internal/formats/barmancloud/catalog.go:146-182 | the backups of a scan belong to its scopes, each identifier once per scope, and are no more than their objects |
| `ScanValidity.CompletedValidIff` | internal/inventory/inventory.go:80-135 | a complete Barman scan is publishable exactly when the clock did not run backwards, its WAL findings can be quoted, and the recovery input of every server is acceptable in that sense |
| `ScanRuns.FinishedObserves` | internal/formats/barmancloud/wal.go:248-294 | segments listed in increasing order, each placeable and no more than the range ceiling, are observed exactly where they are listed |
| `ScanRuns.UnprintableIsRefused` | internal/formats/barmancloud/wal.go:595-599 | an unrecognised key with a control character among the first 200 findings refuses every complete scan |
| `ScanRefusals.ControlKeyIsListed` | internal/inventory/scanner.go:303-306 | the key s/wals/ followed by the byte 1 is within bounds and classified as such an object |
| `ScanRefusals.HistoryIsListed` | internal/formats/barmancloud/wal.go:460-533 | the key s/wals/00000001.history is accepted as history metadata of timeline 1, and likewise for every other timeline |
| `ScanRefusals.EarlyHistoryIsRefused` | internal/formats/barmancloud/recovery.go:733-735 | one history object of timeline 1 refuses every complete scan that keeps its histories |
| `ScanRefusals.BadIdentifierIsRefused` | internal/formats/barmancloud/recovery.go:752-755 | one identifier that Validate does not accept refuses every complete scan in which its backup reaches a path |
| `ScanRefusals.LongIdentifierIsRefused` | internal/formats/barmancloud/recovery.go:752-755 | so does an identifier of more than 256 bytes of a server's first backup, if that is healthy |
| `ScanRefusals.LongBackupIsListed` | internal/formats/barmancloud/catalog.go:248-258 | a key whose identifier component has 257 bytes is within bounds and names a backup with that identifier |
| `ScanRefusals.ManyHistoriesAreRefused` | internal/formats/barmancloud/recovery.go:729-732 | WAL on more than 1,001 timelines without any history refuses every complete scan |
| `ScanRefusals.ManyPathsAreRefused` | internal/formats/barmancloud/recovery.go:361-410 | 102 backups over WAL on 99 timelines refuse every complete scan: after 101 of them one place is left and two paths are appended |
| `ScanStores.WalkOfStore` | internal/inventory/scanner.go:171-206 | the walk over a store that answers one object a page takes in all of them |
| `ScanStores.InfosCatalogued` | internal/formats/barmancloud/catalog.go:146-182 | a listing of backup.info objects is read as exactly the backups of their directories |
| `ScanStores.ScanStore` | internal/inventory/scanner.go:161-225 | scanning such a store completes, with exactly its objects and the backups of its directories |
| `ScanStores.ControlKeyStore` | internal/formats/barmancloud/wal.go:595-599 | the scan of a store with one key that ends in a control character completes and is refused |
| `ScanStores.EarlyHistoryStore` | internal/formats/barmancloud/recovery.go:733-735 | so is that of a store with one history of timeline 1 |
| `ScanStores.LongIdentifierStore` | internal/formats/barmancloud/recovery.go:752-755 | so is that of a store with one healthy backup under an identifier of 257 bytes |
| `ScanStores.ManyHistoriesStore` | internal/formats/barmancloud/recovery.go:729-732 | so is that of a store with one backup and WAL on 1,002 timelines |
| `ScanStores.ManyPathsStore` | internal/formats/barmancloud/recovery.go:361-410 | so is that of a store with 102 backups and WAL on 99 timelines |
| `SwitchScans.EarlyServerWal` | internal/formats/barmancloud/wal.go:245-333 | the finished WAL of a listing with one segment on each of two timelines and a history: healthy, one range for each segment |
| `SwitchScans.EarlySwitchStore` | internal/formats/barmancloud/recovery.go:423-457 | the scan of a store with a backup, its segment, and the history and first segment of a branch before it is published, and has a healthy path over a switch segment not seen on the parent |
| `Scanner.FailureNeverOverstates` | internal/inventory/scanner.go:227-265 | a failure leaves totals and catalogs unchanged while state and every capability become unknown and stale |
| `Scanner.FailurePublishedIff` | internal/inventory/scanner.go:227-265 | a failure snapshot is valid exactly when its category is an accepted one and the clock did not run backwards |
| `Scanner.RunContinues` | internal/inventory/scanner.go:145-159 | one refresh keeps all that was published valid, each healthy snapshot proven by the recorded scan of its own generation, in strictly increasing generations, with totals that stay known, and the WAL catalog of the last published complete scan |
| `Scanner.CachedGapsFaithful` | internal/inventory/scanner.go:213-215 | over every run of successful, failed, refused and cancelled refreshes, cached gaps are faithful to the published complete scans alone |
| `Scanner.InheritedGapsAreOlder` | internal/inventory/scanner.go:213-215 | every gap the next scan inherits was first seen in an earlier generation |
| `Scanner.RefreshScanner.Refresh` | internal/inventory/scanner.go:145-159 | over the cache alone or over engine and cache: publishes the scan if accepted, its failure if accepted, nothing after a cancellation, records the listing of each published scan, and keeps the run invariant and that of the sidecar |
| `Inventory.Validate` | internal/inventory/inventory.go:80-135 | accepts exactly the snapshots whose parts are valid and whose scope counters reconcile with the totals |
| `Inventory.SumScopes` | internal/inventory/inventory.go:109-125 | the 64-bit accumulation with its overflow checks accepts exactly the sorted scopes whose true sums fit |
| `Inventory.Cache.Publish` | internal/inventory/inventory.go:168-175 | replaces the current snapshot exactly when the new one is valid |
| `Inventory.InitialIsValid` | internal/inventory/inventory.go:74-78 | the initial snapshot of every registered format is valid |
| `Inventory.InitialCapabilities` | internal/evidence/evidence.go:103-128 | the initial capabilities are those of the descriptor, sorted, each unproven and unknown |
| `Publications.ProjectSnapshot` | internal/evidenceapi/projection.go:52-80 | the projection is a function of the snapshot and the fixed identity alone |
| `Publications.BackupCounts` | internal/evidenceapi/projection.go:351-368 | every backup is counted in exactly one state |
| `Publications.PathsSurvive` | internal/evidenceapi/projection.go:306-322 | exactly the paths with a target are published, each with its own state, stop, start and frontier |
| `Publications.ProjectionSurvives` | internal/evidenceapi/projection.go:286-322 | from a publication the ranges and gaps of its server can be read back one for one and in order, and so can exactly the paths with a target |
| `EvidenceEngine.Engine.Publish` | internal/evidenceapi/engine.go:119-144 | only a later revision replaces the publication; an equal one is accepted only unchanged; every other leaves it as it was |
| `EvidenceEngine.IssuedCursor` | internal/evidenceapi/engine.go:309-342 | an issued cursor decodes to its payload and is a bounded printable text |
| `EvidenceEngine.SliceIsValid` | internal/evidenceapi/engine.go:156-307 | every slice of a valid publication makes a page that passes Validate |
| `Traversals.Follow` | internal/evidenceapi/engine.go:244-307 | under any interleaving with publication, following cursors yields exactly the collection of that revision, or an error exactly when the revision changed or holds no evidence |
| `Traversals.CountedPages` | internal/evidenceapi/engine.go:280-307 | a finished traversal took max(1, ceil(n/limit)) pages |
| `Sidecar.EvidencePublishingCache.Publish` | internal/application/application.go:174-179 | engine and cache agree after every accepted, refused or repeated publish, and the engine's log holds only projections of snapshots that were current; what the engine admits the cache never refuses |
| `ServedRuns.HealthyPublicationIsProven` | internal/application/application.go:174-179 | every healthy publication in the log of an engine that mirrors a run stands for a published snapshot that the recorded scan of that very revision proves with its listing |
| `ServedRuns.SidecarServesProven` | internal/application/application.go:174-179 | after any number of refreshes of a scanner that publishes through the engine, that holds of all the engine ever served |
| `ServedFailures.FailureIsServed` | internal/inventory/scanner.go:227-265 | a failure of a served snapshot is taken by the engine exactly when the inventory accepts it, and then as a later revision that is stale and unknown throughout |
| `ServedFailures.SortDoubt` | internal/inventory/scanner.go:227-265 | doubting capabilities before or after sorting them makes no difference |
| `AdmittedScans.ServedIff` | internal/evidenceapi/projection.go:52-80 | a valid complete scan of the one configured server is projected exactly when each of its backup records fits the public contract; its scopes, WAL, gaps, paths and summary always do |
| `AdmittedScans.ScanIsConfined` | internal/evidenceapi/projection.go:60-105 | a complete scan of one configured server carries evidence of no other |
| `AdmittedScans.LowerNameIsRefused` | api/evidence/v1alpha1/types.go:709-727 | a segment name in lower case is parsed by the pipeline and refused by the contract |
| `AdmittedStores.LowerNameStore` | internal/application/application.go:174-179 | the scan of a store with one backup under such a name is published by the inventory and refused by the engine |
| `AdmittedStores.UpperNameStore` | internal/application/application.go:174-179 | under the upper-case name both take it |
| `Admissions.GapsInOrder` | internal/formats/barmancloud/wal.go:335-361 | the gaps of canonical ranges come sorted by timeline and start |
| `Admissions.PathItemsOrdered` | internal/evidenceapi/projection.go:306-322 | the published paths of a strictly sorted list are strictly sorted in contract order |
| `Base64.DecodeOfEncode` | internal/provider/cursor/cursor.go:48-64 | unpadded base64url decoding inverts encoding |
| `Base64.DecodeIsLenient` | internal/provider/cursor/cursor.go:64-69 | the decoder accepts other spellings: a newline, or non-zero unused bits |
| `CursorCodec.EncodeCursor` | internal/provider/cursor/cursor.go:38-54 | the buffer filled in place is the big-endian length, the prefix, the token and the digest, in base64url, within the size limits |
| `CursorCodec.RoundTrip` | internal/provider/cursor/cursor.go:38-86 | decoding under the same prefix returns the token |
| `CursorCodec.PrefixConfined` | internal/provider/cursor/cursor.go:82-84 | a cursor is accepted only under the prefix it was issued for |
| `CursorCodec.AcceptedIsCanonical` | internal/provider/cursor/cursor.go:69-85 | every accepted non-empty value is the one spelling that encoding its result produces |
| `WalBrowser.FilterRows` | internal/web/wal.go:216-278 | the retained page is the page of all matching rows of all servers, the total is their number, and at most one page is kept |
| `WalBrowser.PagesPartition` | internal/web/wal.go:98-110 | consecutive pages show each matching row once, in order, and nothing else |
| `WalBrowser.ServerRowsSorted` | internal/web/wal.go:221-269 | a server's rows are its matching ranges, gaps and diagnostics in browsing order |
| `Sorting.SortStrict` | internal/formats/barmancloud/recovery.go:414-421 | sorting entries with pairwise different keys gives a strictly sorted list of the same entries |

## Left out

- ParseHistory: starts from the parent and switchpoint pairs of a file; splitting lines, trimming, the size limits and the reason text are not modelled.
- Reading and decompressing history files, parsing `backup.info` and checking the artifacts of one backup: inputs of `Scanning.Environment`. The backup record keeps only the fields the pipeline computes with and the texts and times the public contract checks.
- ContextOf: backup records carry version and segment size as parsed numbers.
- Human-readable reasons are enumerations that tell the branches apart, or dropped where the state already does; the assumptions listed with a recovery path are constants and dropped.
- Validate: reason texts, dependency notes, scope display names and time zones of a snapshot are not checked by the model.
- Strings are sequences of one-byte characters: byte order, splitting and lengths are as in Go; validity of UTF-8 and control characters are judged on the bytes, as Go does by decoding them.
- Times are instants on one clock with 0 for the zero time; time zones are not modelled.
- Sorting: Go's sorts are not stable; one deterministic sort stands for them. Where keys are pairwise different the result is unique (`SortStrict`); for ties only the order contract is promised by Go.
- Map iteration order: loops over maps pick any key; their results are sorted or order-independent.
- PathHealthyIff: says nothing about WAL bytes, like the source, which inspects segment names only.
- GapsAreFaithful: gap identity ignores the segment size, so the lifecycle is stated in positions.
- ValidSettings: bounds maxObjects by the 10,000,000 of internal/config/config.go:296, so that the page ceiling cannot wrap; the constructor of the scanner alone does not.
- Refresh: the run invariant covers the first 2^64 - 1 refreshes; the 64-bit generation wraps after that. The mutex is modelled by one refresh at a time.
- Readiness probing and the refresh ticker: I/O.
- AddSegment: also does the `Segments++` that the source does just before calling it.
- ProjectSnapshot: covers the fields of the model's backup record; cluster identity, fingerprint and producer are one validity flag, and reason texts, byte counts and artifact counts are not projected.
- PathsSurvive: reason codes and assumption codes of a path are not projected.
- Publish: the comparison of publications with equal revisions covers the fields of the model; texts, identity and byte counts that the source also compares are not part of it.
- ServedIff: is stated for the format with all nine capabilities, a clock that does not read the zero time, and records with non-negative byte counts, which the model does not carry.
- ValidPublicSnapshot: reason codes and texts, producer and identity are not part of the model.
- IssuedCursor: the digest and the payload encoding are opaque; unmarshalling inverts marshalling and bounds its length by assumption. That cursors cannot be forged is not claimed.
- GetPage: stands for the four typed page methods, which differ only in their route.
- Cloning and aliasing of published values: snapshots and publications are immutable values here.
- FilterRows: query parsing, page links and rendered texts of the browser are not modelled.
- Provider adapters, HTTP handlers, the Unix socket, token files, configuration, templates, the registry and the prefix-confined reader: plumbing.
- CountersConserved: the wire-level conversion to unsigned counters is exact because of it and is not stated again.
