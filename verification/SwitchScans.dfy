// A store whose complete scan has a healthy path over a switch segment never seen on the parent (scanner.go with recovery.go).
module SwitchScans {
  import opened Results
  import opened Store
  import opened WalNames
  import opened WalClassify
  import opened WalCollector
  import opened WalRanges
  import opened WalCatalog
  import opened WalEvidence
  import opened WalValidation
  import opened Timelines
  import opened Histories
  import opened PathCoverage
  import opened RecoveryCatalogs
  import opened RecoveryPaths
  import opened ServerRecovery
  import opened Ancestries
  import opened RecoveryValidation
  import opened RecoveryValidity
  import opened SwitchCoverage
  import opened InventoryBuilder
  import opened Inventory
  import opened ScanValidity
  import opened ScanRuns
  import opened ScanRefusals
  import opened ScanStores
  import opened Backups
  import opened BarmanFormat
  import Evidence

  // ---------------------------------------------------------------- two observed positions

  lemma Apart(ranges: seq<WalRange>, i: int, j: int)
    requires Canonical(ranges) && 0 <= i < j < |ranges|
    ensures ranges[i].timeline < ranges[j].timeline || (ranges[i].timeline == ranges[j].timeline && ranges[i].start < ranges[j].start)
  {
    assert RangeBefore(ranges[i], ranges[j]);
  }

  lemma Endpoints(ranges: seq<WalRange>, k: int)
    requires Canonical(ranges) && 0 <= k < |ranges|
    ensures Observed(ranges, ranges[k].timeline, ranges[k].start) && Observed(ranges, ranges[k].timeline, ranges[k].end)
  {
    assert InRange(ranges[k], ranges[k].timeline, ranges[k].start) && InRange(ranges[k], ranges[k].timeline, ranges[k].end);
  }

  lemma RangeAt(ranges: seq<WalRange>, t: U32, p: int) returns (i: int)
    requires Observed(ranges, t, p)
    ensures 0 <= i < |ranges| && ranges[i].timeline == t
  {
    i :| 0 <= i < |ranges| && InRange(ranges[i], t, p);
  }

  /** Canonical ranges that observe one position on each of two timelines. */
  lemma TwoPoints(ranges: seq<WalRange>, t: U32, p: U64, u: U32, q: U64)
    requires Canonical(ranges) && t < u
    requires forall x: U32, y :: Observed(ranges, x, y) <==> (x == t && y == p) || (x == u && y == q)
    ensures |ranges| == 2 && Stretches(ranges[0], t, p, p) && Stretches(ranges[1], u, q, q)
  {
    hide Observed, Canonical;
    var i := RangeAt(ranges, t, p);
    var j := RangeAt(ranges, u, q);
    forall k | 0 <= k < |ranges| ensures Stretches(ranges[k], t, p, p) || Stretches(ranges[k], u, q, q) {
      Endpoints(ranges, k);
    }
    Apart(ranges, 0, 1);
    if |ranges| > 2 {
      Apart(ranges, 1, 2);
    }
  }

  // ---------------------------------------------------------------- the store

  /** The metadata of the backup, its segment, and the history and first segment of the timeline that branched off before it. */
  function EarlyStore(): seq<Object> {
    [] + [InfoObject("b")] + [SegmentObject(1, 5)] + [Object(HistoryKey(2), 1, 1)] + [SegmentObject(2, 0)]
  }

  /** The only line of that history. */
  function EarlyText(o: HistoryObject): HistoryText {
    Parsed([Entry(1, 2)])
  }

  lemma EarlyStoreIsStored()
    ensures AllStored(EarlyStore())
  {
    hide InfoObject, SegmentObject, HistoryKey, Stored, Classify;
    InfoIsListed("b");
    SegmentIsListed(1, 5);
    HistoryIsStored(2);
    SegmentIsListed(2, 0);
  }

  lemma EarlyBackupInforms()
    ensures EarlyBackup().server == SERVER && ContextOf([EarlyBackup()], SERVER) == Known(MIN_POSTGRES_VERSION, DEFAULT_SEGMENT_SIZE)
  {
    DefaultSizeIsValid();
    assert [EarlyBackup()][..0] == [];
    assert ContextAfter([], SERVER) == Pending;
    hide NameOr, ValidSegmentSize;
  }

  function EarlyReader(server: string, id: string, listed: seq<Object>): Backup {
    EarlyBackup()
  }

  /** Only the first of its objects belongs to a backup. */
  lemma EarlyCatalogObjects()
    ensures CatalogObjects(BarmanMatcher(CONFIGURED), EarlyStore()) == [InfoObject("b")]
  {
    hide InfoObject, SegmentObject, HistoryKey, MatchKey, BackupObject, CatalogObjects, Matched, Recents, Bytes;
    var info, first, record, second := InfoObject("b"), SegmentObject(1, 5), Object(HistoryKey(2), 1, 1), SegmentObject(2, 0);
    var matcher := BarmanMatcher(CONFIGURED);
    InfoIsBackup("b");
    SegmentIsNoBackup(1, 5);
    HistoryIsNoBackup(2);
    SegmentIsNoBackup(2, 0);
    NoCatalogObjects();
    ListingSnoc(matcher, [], info);
    ListingSnoc(matcher, [] + [info], first);
    ListingSnoc(matcher, [] + [info] + [first], record);
    ListingSnoc(matcher, [] + [info] + [first] + [record], second);
  }

  lemma NoCatalogObjects()
    ensures CatalogObjects(BarmanMatcher(CONFIGURED), []) == []
  {
  }

  lemma EarlyStoreIsCatalogued()
    ensures Catalogued([EarlyBackup()], EarlyStore(), EarlyReader)
  {
    hide InfoObject, EarlyStore, CatalogObjects;
    EarlyCatalogObjects();
    EarlyBackupId();
    InfosCatalogued([InfoObject("b")], [EarlyBackup()], EarlyReader);
  }

  lemma EarlyBackupId()
    ensures EarlyBackup().id == "b" && EarlyBackup().server == SERVER
  {
    hide NameOr;
  }

  function EarlyFact(timeline: U32, segment: U32): Classified
    requires timeline != 0
  {
    SegmentIsListed(timeline, segment);
    Classify(SegmentObject(timeline, segment)).value
  }

  function EarlyRecord(): Classified {
    HistoryIsListed(2, 1);
    Classify(Object(HistoryKey(2), 1, 1)).value
  }

  /** What the collector makes of it. */
  lemma EarlyStoreIsCollected()
    ensures OfServer(EarlyStore(), SERVER) == [EarlyFact(1, 5), EarlyRecord(), EarlyFact(2, 0)]
    ensures HistoryRefs(EarlyStore()) == [HistoryRef(EarlyRecord())]
    ensures EarlyRecord().kind == History && EarlyRecord().server == SERVER && EarlyRecord().timeline == 2
  {
    hide InfoObject, SegmentObject, HistoryKey, Stored, Classify, OfServer, HistoryRefs;
    var info, first, record, second := InfoObject("b"), SegmentObject(1, 5), Object(HistoryKey(2), 1, 1), SegmentObject(2, 0);
    InfoIsListed("b");
    SegmentIsListed(1, 5);
    HistoryIsListed(2, 1);
    SegmentIsListed(2, 0);
    NothingCollectedYet();
    CollectOne([], info);
    CollectOne([] + [info], first);
    CollectOne([] + [info] + [first], record);
    CollectOne([] + [info] + [first] + [record], second);
  }

  lemma PlacedAt(timeline: U32, segment: U32)
    requires timeline != 0 && segment < 256
    ensures PositionOf(SegmentId(timeline, 0, segment), DEFAULT_SEGMENT_SIZE) == Ok(segment)
  {
    DefaultSizeIsValid();
    SegmentBounds(DEFAULT_SEGMENT_SIZE);
    assert SegmentsPerLog(DEFAULT_SEGMENT_SIZE) == 256;
    hide ValidSegmentSize;
  }

  /** A collected listing with one segment on each of two timelines and a history between them. */
  ghost predicate EarlyObjects(objects: seq<Classified>) {
    && |objects| == 3 && objects[0].kind == Segment && objects[1].kind == History && objects[2].kind == Segment
    && IdOf(objects[0]) == SegmentId(1, 0, 5) && IdOf(objects[2]) == SegmentId(2, 0, 0)
  }

  lemma EarlySegments(objects: seq<Classified>)
    requires EarlyObjects(objects)
    ensures SegmentsIn(objects) == [objects[0], objects[2]]
  {
    assert objects[..2][..1] == objects[..1] && objects[..1][..0] == [];
    assert SegmentsIn([]) == [];
    assert SegmentsIn(objects[..1]) == [objects[0]];
    assert SegmentsIn(objects[..2]) == [objects[0]];
  }

  lemma EarlyPositions(objects: seq<Classified>)
    requires EarlyObjects(objects)
    ensures var segments := SegmentsIn(objects);
            && Orderly(objects, DEFAULT_SEGMENT_SIZE) && CleanListing(objects, DEFAULT_SEGMENT_SIZE)
            && Contiguous(segments, DEFAULT_SEGMENT_SIZE)
            && forall t: U32, p :: At(segments, DEFAULT_SEGMENT_SIZE, t, p) <==> (t == 1 && p == 5) || (t == 2 && p == 0)
  {
    hide SegmentsIn, PositionOf;
    EarlySegments(objects);
    PlacedAt(1, 5);
    PlacedAt(2, 0);
    var segments := [objects[0], objects[2]];
    assert SitsAt(segments[0], DEFAULT_SEGMENT_SIZE, 1, 5) && SitsAt(segments[1], DEFAULT_SEGMENT_SIZE, 2, 0);
  }

  /** The finished WAL of that listing. */
  lemma EarlyServerWal(wal: Catalog, listing: seq<Object>, backups: seq<Backup>, previous: Catalog, generation: U64)
    requires Finished(wal, listing, backups, previous, generation) && EarlyObjects(OfServer(listing, SERVER))
    requires ContextOf(backups, SERVER) == Known(MIN_POSTGRES_VERSION, DEFAULT_SEGMENT_SIZE)
    ensures var w := WalFor(wal, SERVER);
            && w.segmentSize == DEFAULT_SEGMENT_SIZE && w.state == Evidence.Healthy
            && |w.ranges| == 2 && Stretches(w.ranges[0], 1, 5, 5) && Stretches(w.ranges[1], 2, 0, 0)
  {
    hide Finished, OfServer, ContextOf, Canonical, Observed, At, Orderly, CleanListing, Contiguous, SegmentsIn, PreviousGaps, Run,
         FactsOf, ServerResult, ValidSegmentSize, WellKinded, WalFor, EarlyObjects;
    var objects := OfServer(listing, SERVER);
    EarlyPositions(objects);
    EarlyIsListed(listing);
    FinishedObserves(wal, listing, backups, previous, generation, SERVER);
    FewRanges(SegmentsIn(objects));
    assert |SegmentsIn(objects)| == 2 by {
      EarlySegments(objects);
    }
    ListedWellKinded(listing, SERVER);
    ServerHealthyIff(SERVER, objects, ContextOf(backups, SERVER), PreviousGaps(previous, SERVER), generation);
    TwoPoints(WalFor(wal, SERVER).ranges, 1, 5, 2, 0);
  }

  lemma EarlyIsListed(listing: seq<Object>)
    requires EarlyObjects(OfServer(listing, SERVER))
    ensures Listed(listing, SERVER)
  {
    hide OfServer;
  }

  // ---------------------------------------------------------------- what its scan concludes

  lemma EarlyEdgeOf()
    requires EndsEarly(EarlyBackup(), Anchors(1, 5, 5)) && NextLsn(EarlyBackup()) == 2
    ensures var edge := EarlyEdge(EarlyBackup(), Anchors(1, 5, 5));
            edge.child == 2 && edge.switchPosition == 0 && EarlyEntries(EarlyBackup(), Anchors(1, 5, 5)) == [Entry(1, 2)]
  {
    FirstSegment();
    EarlyHistoryParses(EarlyBackup(), Anchors(1, 5, 5));
    hide EarlyEdge, NameOr, SegmentAt, EndsEarly, NextLsn;
  }

  lemma OneKept(o: HistoryObject)
    requires o.server == SERVER
    ensures Keep([o], MAX_HISTORY_FILES) == [o] && ObjectsFor([o], SERVER) == [o]
  {
    assert [o][..0] == [];
    assert ObjectsFor([], SERVER) == [];
  }

  /** The scan of that store is the input on which an early switch goes unseen. */
  lemma EarlyScanInput(r: ScanRun)
    requires Plain(r) && MatchedOf(r) == EarlyStore() && r.s.backups == [EarlyBackup()] && r.env.read == EarlyText
    requires EndsEarly(EarlyBackup(), Anchors(1, 5, 5))
    ensures EarlyInput(InputsFor(InputOf(r), SERVER), EarlyBackup(), Anchors(1, 5, 5)) && !InputOf(r).truncated
    ensures SERVER in NamesOf(InputOf(r))
  {
    hide Plain, MatchedOf, Finished, SaneInput, Recovered, OfServer, HistoryRefs, EarlyStore, EarlyFact, EarlyRecord, EndsEarly, EarlyEdge,
         EarlyEntries, NameOr, ContextOf, NamesOf, WalFor, ObjectsFor, EarlyBackup;
    PlainParts(r);
    EarlyStoreIsCollected();
    EarlyFacts();
    EarlyBackupInforms();
    EarlyBackupSize();
    EarlyServerWal(r.s.wal, MatchedOf(r), r.s.backups, r.previous, r.generation);
    EarlyEndExists();
    EarlyEdgeOf();
    OneKept(HistoryRef(EarlyRecord()));
    EarlyIsListed(MatchedOf(r));
    ListedIsNamed(r, SERVER);
  }

  lemma EarlyFacts()
    ensures EarlyObjects([EarlyFact(1, 5), EarlyRecord(), EarlyFact(2, 0)])
  {
    SegmentIsListed(1, 5);
    HistoryIsListed(2, 1);
    SegmentIsListed(2, 0);
    hide Classify, SegmentObject, HistoryKey;
  }

  lemma EarlyBackupSize()
    ensures EarlyBackup().server == SERVER && EarlyBackup().segmentSize == DEFAULT_SEGMENT_SIZE
  {
    hide NameOr;
  }

  /** A healthy path of the backup over an edge whose switch segment is not observed on the parent. */
  ghost predicate MissesSwitch(r: ScanRun, e: Recovery, b: Backup, a: Anchors, k: int) {
    && e in r.s.recovery.servers && e.server == b.server && b in r.s.backups && BackupRange(b) == Some(a)
    && (exists timelines :: Admitted(b, a, InputsFor(InputOf(r), e.server), timelines, e.histories, k, 0))
    && !SwitchesSeen(b, a, InputsFor(InputOf(r), e.server), e.histories, k, 0)
  }

  lemma EarlyScanMisses(r: ScanRun)
    requires Plain(r) && MatchedOf(r) == EarlyStore() && r.s.backups == [EarlyBackup()] && r.env.read == EarlyText
    ensures exists e, k :: MissesSwitch(r, e, EarlyBackup(), Anchors(1, 5, 5), k)
  {
    hide Plain, MatchedOf, Finished, SaneInput, EarlyInput, EarlyStore, EndsEarly, Admitted, SwitchesSeen, EarlyHistories, InputOf, NamesOf,
         EarlyBackup, BackupRange, RecoveredServer, HistoriesFor, InputsFor;
    PlainParts(r);
    EarlyEndExists();
    EarlyScanInput(r);
    EarlyBackupSize();
    var b, a, i := EarlyBackup(), Anchors(1, 5, 5), InputOf(r);
    var input := InputsFor(i, SERVER);
    var e :| e in r.s.recovery.servers && e.server == SERVER;
    EarlyBranchIsAdmitted(input, b, a);
    EarlyEntry(e, r);
    assert MissesSwitch(r, e, b, a, |e.histories| - 1);
  }

  /** The histories of its entry are those of that input. */
  lemma EarlyEntry(e: Recovery, r: ScanRun)
    requires RecoveredServer(e, InputOf(r)) && SaneInput(InputOf(r)) && e.server == SERVER && SERVER in NamesOf(InputOf(r))
    requires EndsEarly(EarlyBackup(), Anchors(1, 5, 5)) && !InputOf(r).truncated && EarlyBackup().server == SERVER
    requires EarlyInput(InputsFor(InputOf(r), SERVER), EarlyBackup(), Anchors(1, 5, 5))
    ensures e.histories == EarlyHistories(InputsFor(InputOf(r), SERVER), EarlyBackup(), Anchors(1, 5, 5))
  {
    hide RecoveredServer, SaneInput, NamesOf, EarlyInput, EndsEarly, EarlyHistories, Analyzed, InputsFor, InputOf, ValidRecoveryServer,
         AcceptableWith, EarlyBackup;
    var b, a, i := EarlyBackup(), Anchors(1, 5, 5), InputOf(r);
    RecoveryValidity.EntryValidIff(e, i);
    EarlyIsAnalyzed(InputsFor(i, SERVER), b, a);
    HistoriesDetermined(e.histories, EarlyHistories(InputsFor(i, SERVER), b, a), i, SERVER);
  }

  // ---------------------------------------------------------------- and that it is published

  lemma EarlyTargets(input: Inputs, b: Backup, a: Anchors)
    requires EndsEarly(b, a) && EarlyInput(input, b, a) && a.timeline == 1
    ensures Targets(EarlyHistories(input, b, a), Source(b, a, input.wal)) <= {1, 2}
  {
    var histories, s := EarlyHistories(input, b, a), Source(b, a, input.wal);
    EarlyLeaves(input, b, a);
    EarlyWal(input, b, a);
    EarlyHistoryParses(b, a);
    hide EarlyEdge, EarlyInput, EndsEarly, Leaving, ChildRangesAgree, ParseResult, Path, SwitchesAscend, BranchBeforeBackup, HasRange,
         BranchesEarly, EarlyEntries;
    assert |histories| == 1;
  }

  lemma AtMostTwo(s: set<U32>)
    requires s <= {1, 2}
    ensures |s| <= 2
  {
    assert s == s * {1} + s * {2};
    assert s * {1} <= {1} && s * {2} <= {2};
    Subset(s * {1}, 1);
    Subset(s * {2}, 2);
  }

  lemma Subset(s: set<U32>, t: U32)
    requires s <= {t}
    ensures |s| <= 1
  {
    assert s == {} || s == {t};
  }

  lemma EarlyPathsFit(input: Inputs, b: Backup, a: Anchors)
    requires EndsEarly(b, a) && EarlyInput(input, b, a) && a.timeline == 1 && BackupRange(b) == Some(a)
    ensures PathsFit([b], input.wal, EarlyHistories(input, b, a))
  {
    EarlyTargets(input, b, a);
    EarlySize(input, b, a);
    var histories := EarlyHistories(input, b, a);
    hide EarlyHistories, EarlyInput, EndsEarly, BackupRange, Targets, Conflicting;
    AtMostTwo(Targets(histories, Source(b, a, input.wal)));
    assert [b][..0] == [];
    assert Asked([], input.wal, histories) == 0;
    assert Asked([b], input.wal, histories) <= 2;
  }

  lemma EarlySize(input: Inputs, b: Backup, a: Anchors)
    requires EndsEarly(b, a) && EarlyInput(input, b, a)
    ensures input.wal.segmentSize == b.segmentSize
  {
    hide EndsEarly, EarlyEdge, EarlyEntries, EarlyRanges;
  }

  lemma EarlyLength(input: Inputs, b: Backup, a: Anchors)
    requires EndsEarly(b, a) && EarlyInput(input, b, a) && a.timeline == 1
    ensures |EarlyHistories(input, b, a)| == 1
  {
    hide EndsEarly, EarlyInput, EarlyJudged;
  }

  lemma EarlyIsLate(input: Inputs, b: Backup, a: Anchors)
    requires EndsEarly(b, a) && EarlyInput(input, b, a)
    ensures LateObjects(input.objects)
  {
    hide EarlyEdge, EarlyEntries, EarlyRanges;
  }

  lemma EarlyCount(input: Inputs, b: Backup, a: Anchors, timelines: seq<U32>)
    requires EndsEarly(b, a) && EarlyInput(input, b, a) && a.timeline == 1
    requires Analyzed(input, timelines, EarlyHistories(input, b, a))
    ensures HistoryCount(input, EarlyHistories(input, b, a)) == 1 && LateObjects(input.objects)
  {
    hide EndsEarly, EarlyInput, EarlyHistories, Analyzed, HistoryCount, LateObjects;
    EarlyLength(input, b, a);
    EarlyIsLate(input, b, a);
    HistoriesCounted(input, timelines, EarlyHistories(input, b, a));
  }

  lemma EarlyIsAcceptable(r: ScanRun)
    requires Plain(r) && MatchedOf(r) == EarlyStore() && r.s.backups == [EarlyBackup()] && r.env.read == EarlyText
    ensures Acceptable(InputOf(r), SERVER)
  {
    hide Plain, MatchedOf, Finished, SaneInput, EarlyInput, EarlyStore, EndsEarly, EarlyHistories, NamesOf, EarlyBackup, BackupRange,
         HistoriesFor, BackupsFor, PathsFit, HistoryCount, LateObjects, Analyzed, ObjectsFor, WalFor, HistoryRefs;
    EarlyEndExists();
    EarlyScanInput(r);
    EarlyBackupId();
    var b, a, i := EarlyBackup(), Anchors(1, 5, 5), InputOf(r);
    var input := InputsFor(i, SERVER);
    EarlyIsAnalyzed(input, b, a);
    BackupsOfOne([b], SERVER);
    EarlyPathsFit(input, b, a);
    EarlyCount(input, b, a, [a.timeline + 1]);
    assert HistoriesFor(EarlyHistories(input, b, a), i, SERVER) by {
      EarlyFor(i, input, EarlyHistories(input, b, a), [a.timeline + 1]);
    }
    assert ValidBackupId("b") by {
      ShortId();
    }
    forall histories | HistoriesFor(histories, i, SERVER) ensures AcceptableWith(i, SERVER, histories) {
      HistoriesDetermined(histories, EarlyHistories(input, b, a), i, SERVER);
      OnlyBackup(b, input.wal, histories);
    }
  }

  lemma EarlyFor(i: RecoveryInput, input: Inputs, histories: seq<TimelineHistory>, timelines: seq<U32>)
    requires input == InputsFor(i, SERVER) && Analyzed(input, timelines, histories) && !i.truncated
    ensures HistoriesFor(histories, i, SERVER)
  {
    hide Analyzed, InputsFor;
  }

  lemma ShortId()
    ensures ValidBackupId("b")
  {
  }

  lemma OnlyBackup(b: Backup, wal: ServerWal, histories: seq<TimelineHistory>)
    requires ValidBackupId(b.id)
    ensures IdentifiersFit([b], wal, histories)
  {
    hide ValidBackupId, Conflicting, NoCutBefore;
  }

  lemma EarlyElsewhere(server: string)
    requires server != SERVER
    ensures OfServer(EarlyStore(), server) == []
  {
    hide InfoObject, SegmentObject, HistoryKey, Stored, Classify, OfServer, HistoryRefs;
    var info, first, record, second := InfoObject("b"), SegmentObject(1, 5), Object(HistoryKey(2), 1, 1), SegmentObject(2, 0);
    InfoIsListed("b");
    SegmentIsListed(1, 5);
    HistoryIsListed(2, 1);
    SegmentIsListed(2, 0);
    NothingElsewhere(server);
    ElsewhereStays([], info, server);
    ElsewhereStays([] + [info], first, server);
    ElsewhereStays([] + [info] + [first], record, server);
    ElsewhereStays([] + [info] + [first] + [record], second, server);
  }

  lemma NothingElsewhere(server: string)
    ensures OfServer([], server) == []
  {
  }

  lemma ElsewhereStays(listing: seq<Object>, entry: Object, server: string)
    requires Classify(entry).Some? ==> Classify(entry).value.server != server
    ensures OfServer(listing + [entry], server) == OfServer(listing, server)
  {
    hide Classify;
    ListOneMore(listing, entry);
    hide OfServer, HistoryRefs;
  }

  lemma RecognisedReports(objects: seq<Classified>)
    requires forall k :: 0 <= k < |objects| ==> objects[k].kind != UnknownClass
    ensures PlainReports(objects)
  {
    hide ControlFree, Findings;
  }

  lemma EarlyIsPrintable()
    ensures Printable(EarlyStore())
  {
    hide EarlyStore, OfServer, EarlyFact, EarlyRecord, PlainReports;
    EarlyStoreIsCollected();
    EarlyFacts();
    RecognisedReports(OfServer(EarlyStore(), SERVER));
    RecognisedReports([]);
    forall s ensures PlainReports(OfServer(EarlyStore(), s)) {
      if s != SERVER {
        EarlyElsewhere(s);
      }
    }
  }

  lemma EarlyScanIsValid(r: ScanRun)
    requires Plain(r) && MatchedOf(r) == EarlyStore() && r.s.backups == [EarlyBackup()] && r.env.read == EarlyText
    requires r.configured == CONFIGURED && TimesAscend(r.env.started, r.env.completed)
    ensures ValidSnapshot(r.s)
  {
    CompletedValidIff(r.s, r.env, r.st, r.configured, r.walked, r.previous, r.generation);
    hide PlainScan, Matched, ValidSnapshot, NamesOf, Acceptable, Printable, HistoryRefs, BarmanMatcher, EarlyStore, EarlyBackup;
    OnlyServer(r);
    EarlyIsPrintable();
    EarlyIsAcceptable(r);
  }

  /** A store whose complete scan is published although the promise about switch segments fails on it. */
  method EarlySwitchStore() returns (r: ScanRun)
    ensures Plain(r) && MatchedOf(r) == EarlyStore() && r.s.backups == [EarlyBackup()] && ValidSnapshot(r.s)
    ensures exists e, k :: MissesSwitch(r, e, EarlyBackup(), Anchors(1, 5, 5), k)
  {
    hide Plain, MatchedOf, EarlyStore, EarlyBackup, AllStored, Catalogued, MissesSwitch, ValidSnapshot;
    EarlyStoreIsStored();
    EarlyStoreIsCatalogued();
    EarlyStoreHasObjects();
    r := ScanStore(EarlyStore(), [EarlyBackup()], EarlyReader, EarlyText);
    EarlyScanMisses(r);
    EarlyScanIsValid(r);
  }

  lemma EarlyStoreHasObjects()
    ensures EarlyStore() != []
  {
    hide InfoObject, SegmentObject, HistoryKey;
  }
}
