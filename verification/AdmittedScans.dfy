// The exact condition under which a complete scan is served (inventory/scanner.go with internal/evidenceapi/projection.go).
module AdmittedScans {
  import opened Results
  import opened Store
  import opened WalNames
  import opened WalRanges
  import opened WalGaps
  import opened WalCatalog
  import opened WalValidation
  import opened ServerRecovery
  import opened RecoveryCatalogs
  import opened RecoveryValidation
  import opened Inventory
  import opened InventoryBuilder
  import opened InventoryCompletion
  import opened ScanEvidence
  import opened Scanning
  import opened ScanOutcomes
  import opened ScanValidity
  import opened EvidenceContract
  import opened Publications
  import opened Admissions
  import opened Backups
  import opened BackupCatalogs
  import opened RecoveryValidity
  import EndToEnd
  import Evidence
  import Sorting

  // ---------------------------------------------------------------- the WAL of the server

  /** What one valid finished entry publishes. */
  lemma EntryIsPublic(wal: Catalog, listing: seq<Object>, backups: seq<Backup>, previous: Catalog, generation: U64, k: nat)
    requires Finished(wal, listing, backups, previous, generation) && ValidCatalog(wal)
    requires k < |wal.servers| && ValidPublicServer(wal.servers[k].server)
    ensures var w := wal.servers[k];
            && WalPublic(w, w.server) && EndsNamed(w.ranges, w.segmentSize)
            && (w.rangesTruncated || w.diagnosticsTruncated ==> w.state == Evidence.Unknown)
  {
    var w := wal.servers[k];
    EndToEnd.FinishedCanonical(listing, backups, previous, generation, w.server);
    FinishedGaps(listing, backups, previous, generation, w.server);
    assert ValidServer(w);
    assert w == FinishedServer(listing, backups, previous, generation, w.server);
    hide Finished, FinishedServer, ValidCatalog, Canonical, GapsOf, PreviousGaps, WalPublic, Reported;
    FinishedIsPublic(w, PreviousGaps(previous, w.server), generation);
    RangesNamed(w);
  }

  lemma FinishedGaps(listing: seq<Object>, backups: seq<Backup>, previous: Catalog, generation: U64, server: string)
    ensures var w := FinishedServer(listing, backups, previous, generation, server);
            w.gaps == [] || w.gaps == GapsOf(w.ranges, PreviousGaps(previous, server), w.segmentSize, generation)
  {
    hide Merged, GapsOf, VerdictOf, WalCollector.OfServer, ContextOf, PreviousGaps, LatestOf, AnyMisplaced, WalCollector.FactsOf;
  }

  lemma RangesNamed(w: ServerWal)
    requires ValidServer(w)
    ensures EndsNamed(w.ranges, w.segmentSize)
    ensures w.rangesTruncated || w.diagnosticsTruncated ==> w.state == Evidence.Unknown
  {
    hide ValidName, ValidGap, ValidDiagnostic, WalName, Nameable, ValidContext;
    forall r | r in w.ranges ensures Nameable(r.end, w.segmentSize) {
      var k :| 0 <= k < |w.ranges| && w.ranges[k] == r;
      NameableIffNamed(r.timeline, r.end, w.segmentSize);
    }
  }

  lemma NothingPublic(w: ServerWal, server: string)
    requires w.ranges == [] && w.gaps == []
    ensures WalPublic(w, server) && EndsNamed(w.ranges, w.segmentSize)
  {
  }

  lemma ServerPublic(s: Snapshot, listing: seq<Object>, previous: Catalog, generation: U64, server: string)
    requires Finished(s.wal, listing, s.backups, previous, generation) && ValidCatalog(s.wal) && ValidPublicServer(server)
    ensures var w := WalFor(s.wal, server);
            && WalPublic(w, server) && EndsNamed(w.ranges, w.segmentSize)
            && (w.rangesTruncated || w.diagnosticsTruncated ==> w.state == Evidence.Unknown)
  {
    hide Finished, ValidCatalog, WalPublic, EndsNamed;
    var found := FindServer(s.wal, server);
    if found.Some? {
      var k :| 0 <= k < |s.wal.servers| && s.wal.servers[k] == found.value;
      EntryIsPublic(s.wal, listing, s.backups, previous, generation, k);
    } else {
      NothingPublic(WalFor(s.wal, server), server);
    }
  }

  // ---------------------------------------------------------------- the recovery paths of the server

  /** The paths of a publication never stand in its way once its backups do not. */
  lemma RecoveredPaths(e: Recovery, i: RecoveryInput, server: string)
    requires RecoveredServer(e, i) && e.server == server && ValidRecoveryServer(e) && ValidPublicServer(server)
    requires EndsNamed(WalFor(i.wal, server).ranges, WalFor(i.wal, server).segmentSize)
    requires DistinctIds(BackupsFor(i.backups, server)) && forall b :: b in i.backups ==> Presentable(b)
    ensures var items := PathItems(e.paths, server);
            (forall k :: 0 <= k < |items| ==> ValidPublicPath(items[k])) && Publications.Ordered(PathItemBefore, items)
  {
    hide AllPaths, Retained, TimelinesJudged, EndsNamed, ValidPublicServer, ValidPublicPath, Coherent, Presentable, PathItem, PathItemBefore,
         BackupsFor, DistinctIds, Sorting.StrictlySorted, PathItems;
    var wal, backups, items := WalFor(i.wal, server), BackupsFor(i.backups, server), PathItems(e.paths, server);
    var known :| Coherent(e.histories, known, wal);
    PathItemsOrdered(e.paths, server);
    StrictIsOrdered(PathItemBefore, items);
    forall k | 0 <= k < |items| ensures ValidPublicPath(items[k]) {
      assert items[k] in items;
      var p :| ItemOf(items[k], p, e.paths, server);
      var m := AllNamed(e.paths, backups, wal, e.histories, known, p);
      BackupsForMembers(i.backups, server);
      assert backups[m] in backups;
      PresentableBegin(backups[m]);
      PresentableId(backups[m]);
      PathIsPublic(p, backups[m], server, wal.segmentSize);
    }
  }

  lemma PresentableBegin(b: Backup)
    requires Presentable(b)
    ensures b.beginWal == "" || PublicName(b.beginWal)
  {
    hide PublicName, PublicLsn, Decimal, ValidSegmentSize, PublicText;
  }

  lemma PresentableId(b: Backup)
    requires Presentable(b)
    ensures PublicText(b.id, 256)
  {
    hide PublicName, PublicLsn, Decimal, ValidSegmentSize, PublicText;
  }

  lemma {:induction false} RecoveryOfServer(recovery: RecoveryCatalog, server: string)
    ensures var e := RecoveryOf(recovery, server);
            e.server == server && (e in recovery.servers
                                   || e == Recovery(server, Evidence.Unknown, Evidence.Unknown, [], [],
                                                    Retention(0, 0, 0, 0, false, 0, false, Evidence.Unknown)))
    decreases |recovery.servers|
  {
    if recovery.servers != [] && recovery.servers[0].server != server {
      RecoveryOfServer(RecoveryCatalog(recovery.servers[1..]), server);
    }
  }

  lemma ServerPaths(s: Snapshot, i: RecoveryInput, server: string)
    requires Recovered(s.recovery, i) && ValidRecovery(s.recovery) && i.wal == s.wal && i.backups == s.backups && ValidPublicServer(server)
    requires EndsNamed(WalFor(s.wal, server).ranges, WalFor(s.wal, server).segmentSize)
    requires DistinctIds(BackupsFor(s.backups, server)) && forall b :: b in s.backups ==> Presentable(b)
    ensures var items := PathItems(RecoveryOf(s.recovery, server).paths, server);
            (forall k :: 0 <= k < |items| ==> ValidPublicPath(items[k])) && Publications.Ordered(PathItemBefore, items)
  {
    hide RecoveredServer, ValidRecoveryServer, EndsNamed, ValidPublicServer, ValidPublicPath, Presentable, PathItemBefore, RecoveryOf, DistinctIds,
         BackupsFor;
    RecoveryOfServer(s.recovery, server);
    var e := RecoveryOf(s.recovery, server);
    if e in s.recovery.servers {
      var k :| 0 <= k < |s.recovery.servers| && s.recovery.servers[k] == e;
      hide PathItems;
      RecoveredPaths(e, i, server);
    }
  }

  lemma RetentionIsPublic(s: Snapshot, server: string)
    requires ValidRecovery(s.recovery)
    ensures ValidRetentionDetails(RetentionDetails(RecoveryOf(s.recovery, server).retention))
  {
    RecoveryOfServer(s.recovery, server);
    hide RecoveryOf, ValidHistory, ValidPath, ValidName;
    var e := RecoveryOf(s.recovery, server);
    if e in s.recovery.servers {
      var k :| 0 <= k < |s.recovery.servers| && s.recovery.servers[k] == e;
    }
  }

  // ---------------------------------------------------------------- the summary

  /** The header of a complete scan by a clock that is set. */
  ghost predicate FreshHeader(s: Snapshot) {
    && s.totalsKnown && s.refreshFailure.None? && !s.evidence.stale && s.evidence.completeness == Complete
    && 0 < s.evidence.generation == s.refreshGeneration
    && s.evidence.startedAt != 0 && s.evidence.completedAt != 0 && s.evidence.startedAt <= s.evidence.completedAt
    && s.objectCount >= 0 && s.storedBytes >= 0 && s.unscoped >= 0
    && AllNine(s.evidence.capabilities)
  }

  lemma DetailsAreValid(s: Snapshot, server: string, backups: seq<PublicBackup>, ranges: seq<PublicRange>, gaps: seq<PublicGap>,
                        paths: seq<PublicPath>)
    requires s.totalsKnown && ValidRecovery(s.recovery)
    requires var w := WalFor(s.wal, server); w.rangesTruncated || w.diagnosticsTruncated ==> w.state == Evidence.Unknown
    ensures ValidDetails(DetailsOf(s, server, GenerationOf(s, backups, ranges, gaps, paths)))
  {
    RetentionIsPublic(s, server);
    StatesAddUp(backups);
    hide ValidRecovery, ValidRetentionDetails, RetentionDetails, CountState, RecoveryOf, WalFor;
  }

  lemma SummaryIsPublic(s: Snapshot, server: string, backups: seq<PublicBackup>, ranges: seq<PublicRange>, gaps: seq<PublicGap>,
                        paths: seq<PublicPath>)
    requires FreshHeader(s) && ValidRecovery(s.recovery)
    requires var w := WalFor(s.wal, server); w.rangesTruncated || w.diagnosticsTruncated ==> w.state == Evidence.Unknown
    ensures ValidPublicSnapshot(SnapshotOf(s, server, GenerationOf(s, backups, ranges, gaps, paths)))
    ensures SnapshotOf(s, server, GenerationOf(s, backups, ranges, gaps, paths)).details.counts == GenerationOf(s, backups, ranges, gaps, paths)
  {
    hide CompleteCapabilities, ValidDetails, Sorting.Sort, WalFor, RecoveryOf, RetentionDetails, CountState, AllNine, ValidRecovery;
    NineAreComplete(s.evidence.capabilities);
    DetailsAreValid(s, server, backups, ranges, gaps, paths);
  }

  // ---------------------------------------------------------------- what a complete scan puts into its header

  lemma ProveOffers(list: seq<Capability>, ids: set<CapabilityId>, state: Evidence.State, id: CapabilityId)
    requires Offers(list, id)
    ensures Offers(Prove(list, ids, state), id)
  {
    var c :| c in list && c.id == id;
    var k :| 0 <= k < |list| && list[k] == c;
    assert Prove(list, ids, state)[k] in Prove(list, ids, state);
    hide Prove;
  }

  lemma ConcludedOffers(e: Envelope, backups: seq<Backup>, wal: Catalog, recovery: RecoveryCatalog, id: CapabilityId)
    requires Offers(e.capabilities, id)
    ensures Offers(Concluded(e, backups, wal, recovery).capabilities, id)
  {
    hide Prove, Evidence.JoinOf, Offers;
    var a, b := WithCatalog(e, backups), WithWal(WithCatalog(e, backups), wal);
    var timelines, coverage, retention := Evidence.JoinOf(recovery.servers, TimelinesState), Evidence.JoinOf(recovery.servers, CoverageState),
                                          Evidence.JoinOf(recovery.servers, RetentionOf);
    ProveOffers(e.capabilities, {CatalogListing, StructuralValidation}, Evidence.JoinOf(backups, BackupState), id);
    ProveOffers(a.capabilities, {WalContinuity}, Evidence.JoinOf(wal.servers, WalState), id);
    var c := Prove(b.capabilities, {TimelineTraversal}, timelines);
    var d := Prove(c, {RecoveryCoverage}, coverage);
    ProveOffers(b.capabilities, {TimelineTraversal}, timelines, id);
    ProveOffers(c, {RecoveryCoverage}, coverage, id);
    ProveOffers(d, {RetentionExpectation}, retention, id);
  }

  lemma ConcludedKeeps(e: Envelope, backups: seq<Backup>, wal: Catalog, recovery: RecoveryCatalog)
    ensures var r := Concluded(e, backups, wal, recovery);
            (r.format, r.scopeKind, r.generation, r.startedAt, r.completedAt, r.completeness, r.stale)
            == (e.format, e.scopeKind, e.generation, e.startedAt, e.completedAt, e.completeness, e.stale)
  {
    hide Prove, Evidence.JoinOf;
  }

  lemma CompleteOffers(d: Descriptor, generation: U64, started: Time, completed: Time, id: CapabilityId)
    requires ValidDescriptor(d) && id in d.capabilities
    ensures Offers(CompleteEnvelope(d, generation, started, completed).capabilities, id)
  {
    InitialCapabilities(d);
    hide InitialEnvelope, Prove;
    var list := InitialEnvelope(d).capabilities;
    assert Capability(id, SupportUnknown, Evidence.Unknown) in list;
    assert Offers(list, id);
    ProveOffers(list, {ObjectInventory}, Evidence.Healthy, id);
  }

  lemma EnvelopeFields(d: Descriptor, generation: U64, started: Time, completed: Time)
    ensures var e := CompleteEnvelope(d, generation, started, completed);
            (e.format, e.scopeKind, e.generation, e.startedAt, e.completedAt, e.completeness, e.stale)
            == (d.id, d.scopeKind, generation, started, completed, Complete, false)
  {
    hide Prove, Sorting.Sort;
  }

  lemma NineInEnvelope(e: Envelope)
    requires ValidEnvelope(e) && forall id: CapabilityId :: Offers(e.capabilities, id)
    ensures AllNine(e.capabilities)
  {
    hide ValidText, Offers;
    forall c | c in e.capabilities ensures c.support != Supported ==> c.state == Evidence.Unknown {
      var k :| 0 <= k < |e.capabilities| && e.capabilities[k] == c;
    }
  }

  lemma EvaluatedHeader(s: Snapshot, matcher: Matcher, l: seq<Object>, env: Environment, st: Settings, previous: Catalog, generation: U64)
    requires Evaluated(s, matcher, l, env, st, previous, generation) && ValidSettings(st)
    requires forall id: CapabilityId :: id in st.descriptor.capabilities
    ensures var e := s.evidence;
            && (e.format, e.scopeKind, e.generation, e.startedAt, e.completedAt, e.completeness, e.stale)
               == (st.descriptor.id, st.descriptor.scopeKind, generation, env.started, env.completed, Complete, false)
            && AllNine(e.capabilities)
  {
    PositivePages(st);
    ScanEnvelopeIsValid(s, env, st, matcher, l, previous, generation);
    hide ValidSettings, ValidDescriptor, Finished, Recovered, CompleteEnvelope, Concluded, ValidEnvelope, AllNine, Offers;
    var e := CompleteEnvelope(st.descriptor, generation, env.started, env.completed);
    ConcludedKeeps(e, s.backups, s.wal, s.recovery);
    EnvelopeFields(st.descriptor, generation, env.started, env.completed);
    forall id: CapabilityId ensures Offers(s.evidence.capabilities, id) {
      CompleteOffers(st.descriptor, generation, env.started, env.completed, id);
      ConcludedOffers(e, s.backups, s.wal, s.recovery, id);
    }
    NineInEnvelope(s.evidence);
  }

  // ---------------------------------------------------------------- the theorem

  /** A valid complete scan for the one server the options name, by a clock that is set. */
  ghost predicate ServableScan(s: Snapshot, env: Environment, st: Settings, configured: seq<string>, walked: Walked, previous: Catalog,
                               generation: U64, o: ProjectOptions)
  {
    && PlainScan(s, env, st, configured, walked, previous, generation) && ValidSnapshot(s)
    && (forall id: CapabilityId :: id in st.descriptor.capabilities) && env.started != 0 && env.completed != 0
    && ValidOptions(o) && o.format == st.descriptor.id && st.descriptor.scopeKind == "server" && configured == [o.server]
  }

  // ---------------------------------------------------------------- one configured server

  lemma ScopeIsThere(s: Snapshot, matcher: Matcher, initial: set<string>, l: seq<Object>, limit: nat, server: string)
    requires Inventoried(s, matcher, initial, l, limit) && ScopeNames(matcher, initial, l) == {server}
    ensures s.totalsKnown && |s.scopes| == 1 && s.scopes[0].name == server
  {
    ScopesFit(s, matcher, initial, l, limit);
    hide ScopeNames, ScopeOf, Recents, Matched, Bytes, Countable;
    assert ScopeOf(matcher, l, server) in s.scopes;
    assert s.scopes != [] && s.scopes[0] in s.scopes;
  }

  lemma RecoveredNamed(recovery: RecoveryCatalog, i: RecoveryInput, names: set<string>)
    requires Recovered(recovery, i) && NamesOf(i) <= names
    ensures forall k :: 0 <= k < |recovery.servers| ==> recovery.servers[k].server in names
  {
    hide RecoveredServer, NamesOf;
    forall k | 0 <= k < |recovery.servers| ensures recovery.servers[k].server in names {
      assert recovery.servers[k] in recovery.servers;
    }
  }

  /** A complete scan of one configured server carries evidence of no other. */
  lemma ScanIsConfined(s: Snapshot, env: Environment, st: Settings, configured: seq<string>, walked: Walked, previous: Catalog,
                       generation: U64, server: string)
    requires PlainScan(s, env, st, configured, walked, previous, generation) && configured == [server]
    ensures Confined(s, server) <==> forall b :: b in s.backups ==> b.postgresVersion >= 0 && b.segmentSize >= 0
  {
    hide WalkOf, ValidName, ObservedBefore, ScopeNames, Recovered, Concluded, Inventoried, Matched, Finished, ValidSettings, CatalogOf,
         OpeningRefusal, BarmanMatcher, CompleteEnvelope, WalCollector.HistoryRefs, DistinctIds, BackupsFor, SaneInput, NamesOf;
    var names := ScanNames(s, env, st, configured, walked, previous, generation);
    assert InitialScopes(st) == {server} by {
      assert st.initial == [server] && [server][0] == server;
    }
    OneScope(server, walked.listing);
    ScopeIsThere(s, BarmanMatcher(configured), InitialScopes(st), walked.listing, st.recentLimit, server);
    ReportedAreNamed(s, env, st, configured, walked, previous, generation, names);
    RecoveryInputIsSane(s, env, st, configured, walked, previous, generation, names);
    RecoveredNamed(s.recovery, RecoveryInputOf(s, Matched(BarmanMatcher(configured), walked.listing), env, st), names);
    assert forall k :: 0 <= k < |s.backups| ==> s.backups[k] in s.backups;
  }

  /** All that matters of such a scan here. */
  ghost predicate Servable(s: Snapshot, listing: seq<Object>, i: RecoveryInput, previous: Catalog, generation: U64, server: string) {
    && FreshHeader(s) && ValidPublicServer(server) && ValidCatalog(s.wal) && ValidRecovery(s.recovery)
    && Finished(s.wal, listing, s.backups, previous, generation)
    && Recovered(s.recovery, i) && i.wal == s.wal && i.backups == s.backups
    && DistinctIds(BackupsFor(s.backups, server)) && forall b :: b in s.backups ==> b.server == server
  }

  lemma ValidParts(s: Snapshot)
    requires ValidSnapshot(s)
    ensures ValidCatalog(s.wal) && ValidRecovery(s.recovery) && ValidTimes(s)
  {
    hide ValidCatalog, ValidRecovery, ValidTimes, ValidEnvelope, ValidScopes, ValidListing;
  }

  lemma ScanIsServable(s: Snapshot, env: Environment, st: Settings, configured: seq<string>, walked: Walked, previous: Catalog,
                       generation: U64, o: ProjectOptions)
    requires ServableScan(s, env, st, configured, walked, previous, generation, o) && Confined(s, o.server)
    ensures var matched := Matched(BarmanMatcher(configured), walked.listing);
            Servable(s, matched, RecoveryInputOf(s, matched, env, st), previous, generation, o.server)
    ensures s.evidence.format == o.format && s.evidence.scopeKind == "server"
  {
    hide Walk, ValidName, ObservedBefore, ScopeNames, Inventoried, Finished, Recovered, Concluded, CompleteEnvelope, ValidSettings,
         ValidSnapshot, ValidCatalog, ValidRecovery, ValidPublicServer, Matched, AllNine, DistinctIds, BarmanMatcher;
    EvaluatedHeader(s, BarmanMatcher(configured), walked.listing, env, st, previous, generation);
    ValidCounters(s);
    ValidParts(s);
    KnownTotals(s, BarmanMatcher(configured), InitialScopes(st), walked.listing, st.recentLimit);
    var names := ScanNames(s, env, st, configured, walked, previous, generation);
  }

  lemma KnownTotals(s: Snapshot, matcher: Matcher, initial: set<string>, l: seq<Object>, limit: nat)
    requires Inventoried(s, matcher, initial, l, limit)
    ensures s.totalsKnown
  {
    hide ScopeList, Recents, Matched, Bytes, Countable;
  }

  /** With servable evidence only the backup records decide. */
  lemma AssembledIff(s: Snapshot, listing: seq<Object>, i: RecoveryInput, previous: Catalog, generation: U64, server: string)
    requires Servable(s, listing, i, previous, generation, server)
    ensures s.objectCount >= 0 && s.storedBytes >= 0 && s.unscoped >= 0
    ensures ValidPublication(Assembled(s, server)) <==> forall b :: b in s.backups ==> Presentable(b)
  {
    hide Finished, Recovered, ValidCatalog, ValidRecovery, ValidPublicServer, ValidPublicBackup, ValidPublicRange, ValidPublicGap,
         ValidPublicPath, ValidPublicSnapshot, Presentable, DistinctIds, BackupsFor, Publications.Ordered, SnapshotOf, WalFor, RecoveryOf,
         Sorting.Sort, BackupItems, RangeItems, GapItems, PathItems, WalPublic, EndsNamed, AllNine;
    ServerPublic(s, listing, previous, generation, server);
    BackupsPublicIff(s.backups, server);
    var p := Assembled(s, server);
    WalItems(s, server);
    SummaryIsPublic(s, server, p.backups, p.ranges, p.gaps, p.paths);
    if forall b :: b in s.backups ==> Presentable(b) {
      ServerPaths(s, i, server);
    }
  }

  lemma WalItems(s: Snapshot, server: string)
    requires WalPublic(WalFor(s.wal, server), server)
    ensures var w := WalFor(s.wal, server);
            var ranges, gaps := RangeItems(w.ranges, server), GapItems(w.gaps, server);
            && (forall k :: 0 <= k < |ranges| ==> ValidPublicRange(ranges[k])) && Publications.Ordered(RangeItemBefore, ranges)
            && (forall k :: 0 <= k < |gaps| ==> ValidPublicGap(gaps[k])) && Publications.Ordered(GapItemBefore, gaps)
  {
    hide WalPublic, WalFor, ValidPublicRange, ValidPublicGap, Publications.Ordered;
    ItemsOrdered(WalFor(s.wal, server), server);
  }

  /**
   * A valid complete scan of the one configured server is served exactly when each of its backup records is presentable:
   * neither its other scopes, its WAL, its gaps, its recovery paths nor its summary can keep the engine from taking it.
   */
  lemma ServedIff(s: Snapshot, env: Environment, st: Settings, configured: seq<string>, walked: Walked, previous: Catalog,
                  generation: U64, o: ProjectOptions)
    requires ServableScan(s, env, st, configured, walked, previous, generation, o)
    ensures Project(s, o).Some? <==> forall b :: b in s.backups ==> Presentable(b) && b.postgresVersion >= 0 && b.segmentSize >= 0
  {
    hide PlainScan, ValidSnapshot, Servable, Presentable, ValidPublication, Assembled, Confined;
    ScanIsConfined(s, env, st, configured, walked, previous, generation, o.server);
    if exists b :: b in s.backups && (b.postgresVersion < 0 || b.segmentSize < 0) {
      return;
    }
    var matched := Matched(BarmanMatcher(configured), walked.listing);
    ScanIsServable(s, env, st, configured, walked, previous, generation, o);
    AssembledIff(s, matched, RecoveryInputOf(s, matched, env, st), previous, generation, o.server);
  }

  // ---------------------------------------------------------------- the scan it fails on

  /** A lower-case spelling of a segment name. */
  function LowerName(): string {
    Hex(1, 8) + Hex(0, 8) + (Hex(0, 7) + "a")
  }

  /** The pipeline reads such a name, and anchors a backup on it; the contract does not take it. */
  lemma LowerNameIsRefused()
    ensures ParseWalName(LowerName(), DEFAULT_SEGMENT_SIZE) == Ok(ParsedName(1, 10))
    ensures forall b: Backup :: b.beginWal == LowerName() ==> !Presentable(b)
  {
    LowerNameParses();
    assert LowerName()[23] == 'a';
    assert !PublicName(LowerName());
    hide LowerName, PublicName;
    assert LowerName() != "" by {
      LowerNameLength();
    }
  }

  lemma LowerNameLength()
    ensures |LowerName()| == 24
  {
  }

  lemma LowerNameParses()
    ensures ParseWalName(LowerName(), DEFAULT_SEGMENT_SIZE) == Ok(ParsedName(1, 10))
  {
    hide Hex, ParseHex32, ValidSegmentSize, SegmentsPerLog;
    var tail := Hex(0, 7) + "a";
    LowerTail();
    Padded();
    ThreeParts(Hex(1, 8), Hex(0, 8), tail);
    TenthSegment();
  }

  lemma Padded()
    ensures ParseHex32(Hex(1, 8)) == Some(1) && ParseHex32(Hex(0, 8)) == Some(0)
  {
    Widths();
    ValueOfHex(1, 8);
    ValueOfHex(0, 8);
    hide Hex, HexValue;
  }

  lemma TenthSegment()
    ensures WalPosition(1, 0, 10, DEFAULT_SEGMENT_SIZE) == Ok(10)
  {
    DefaultSizeIsValid();
    hide BitAnd;
  }

  lemma SevenDigits()
    ensures HexValue(Hex(0, 7)) == 0
  {
    assert Power16(7) >= 1;
    ValueOfHex(0, 7);
  }

  lemma LowerTail()
    ensures var tail := Hex(0, 7) + "a"; |tail| == 8 && AllHex(tail) && ParseHex32(tail) == Some(10)
  {
    var tail := Hex(0, 7) + "a";
    SevenDigits();
    hide Hex;
    assert tail[..7] == Hex(0, 7);
    assert HexValue(tail) == 10;
    hide HexValue;
  }
}
