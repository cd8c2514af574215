// A store whose complete scan is published by the inventory and refused by the engine (scanner.go with projection.go).
module AdmittedStores {
  import opened Results
  import opened Store
  import opened WalNames
  import opened WalCollector
  import opened WalRanges
  import opened WalCatalog
  import opened WalValidation
  import opened Histories
  import opened PathCoverage
  import opened RecoveryPaths
  import opened ServerRecovery
  import opened RecoveryCatalogs
  import opened RecoveryValidation
  import opened RecoveryValidity
  import opened Inventory
  import opened InventoryBuilder
  import WalClassify
  import opened ScanValidity
  import opened ScanRuns
  import opened ScanRefusals
  import opened ScanStores
  import opened EvidenceContract
  import opened Publications
  import opened Admissions
  import opened AdmittedScans
  import opened Backups
  import opened BackupCatalogs
  import Evidence

  const OPTIONS := ProjectOptions(SERVER, "barman-cloud", true)

  /** A healthy backup that begins and ends in the segment of this name. */
  function BareBackup(name: string): Backup {
    Backup(SERVER, "b", "", Evidence.Healthy, name, name, "", DEFAULT_SEGMENT_SIZE, 150_000, 1, 1, NO_NOTES)
  }

  // ---------------------------------------------------------------- its scan is valid

  /** Nothing is listed but backup metadata. */
  ghost predicate NoWal(r: ScanRun) {
    forall s :: OfServer(MatchedOf(r), s) == []
  }

  lemma NothingMerged(size: int)
    ensures Merged(FactsOf([]).ranges, size) == []
  {
  }

  lemma NoRanges(wal: Catalog, listing: seq<Object>, backups: seq<Backup>, previous: Catalog, generation: U64, server: string)
    requires Finished(wal, listing, backups, previous, generation) && OfServer(listing, server) == []
    ensures WalFor(wal, server).ranges == []
  {
    hide FinishedServer, Reported;
    var found := FindServer(wal, server);
    if found.Some? {
      var k :| 0 <= k < |wal.servers| && wal.servers[k] == found.value;
      BareServer(listing, backups, previous, generation, server);
    }
  }

  lemma BareServer(listing: seq<Object>, backups: seq<Backup>, previous: Catalog, generation: U64, server: string)
    requires OfServer(listing, server) == []
    ensures FinishedServer(listing, backups, previous, generation, server).ranges == []
  {
    hide OfServer, ContextOf, PreviousGaps, Merged, FactsOf, VerdictOf, AnyMisplaced, LatestOf;
    var context := ContextOf(backups, server);
    if context.Known? {
      NothingMerged(context.size);
    }
  }

  /** Without WAL and history objects there is no history to judge or to miss. */
  lemma NoHistories(input: Inputs, timelines: seq<U32>, histories: seq<TimelineHistory>)
    requires Analyzed(input, timelines, histories) && input.objects == [] && input.wal.ranges == []
    ensures histories == []
  {
    NoTimelines(input.objects, timelines);
    EmptyOrMember(histories);
    assert JudgeAll(input, []).histories == [];
    hide JudgeAll;
  }

  lemma NoTimelines(objects: seq<HistoryObject>, timelines: seq<U32>)
    requires objects == [] && ObjectTimelines(objects, timelines)
    ensures timelines == []
  {
    EmptyOrMember(timelines);
  }

  /** One backup asks for one path. */
  lemma OnePath(b: Backup, wal: ServerWal)
    requires wal.ranges == []
    ensures PathCount(b, wal, []) == 1
  {
    hide BackupRange;
    var anchors := AnchorsFor(b, wal);
    if anchors.Some? {
      var s := Source(b, anchors.value, wal);
      forall t: U32 ensures t in Targets([], s) <==> t == anchors.value.timeline {
        hide Leaving;
      }
      assert Targets([], s) == {anchors.value.timeline};
    }
  }

  lemma OneBackupFits(b: Backup, wal: ServerWal)
    requires wal.ranges == [] && b.state == Evidence.Healthy && ValidBackupId(b.id)
    ensures PathsFit([b], wal, []) && IdentifiersFit([b], wal, [])
  {
    OnePath(b, wal);
    hide PathCount, Conflicting, ValidBackupId;
    assert [b][..0] == [];
    assert Asked([], wal, []) == 0;
    assert Asked([b], wal, []) == 1;
  }

  lemma BareIsAcceptable(r: ScanRun, b: Backup)
    requires Plain(r) && r.s.backups == [b] && b.server == SERVER && b.state == Evidence.Healthy && ValidBackupId(b.id)
    requires NoWal(r) && HistoryRefs(MatchedOf(r)) == []
    ensures Acceptable(InputOf(r), SERVER)
  {
    hide Plain, MatchedOf, Finished, SaneInput, Recovered, WalFor, OfServer, BackupsFor, HistoryRefs, Analyzed, PathsFit, IdentifiersFit,
         ValidBackupId, HistoryCount;
    PlainParts(r);
    NoRanges(r.s.wal, MatchedOf(r), r.s.backups, r.previous, r.generation, SERVER);
    BackupsOfOne([b], SERVER);
    OneBackupFits(b, WalFor(r.s.wal, SERVER));
    assert InputOf(r).objects == [] && !InputOf(r).truncated;
    assert ObjectsFor([], SERVER) == [];
    forall histories | HistoriesFor(histories, InputOf(r), SERVER) ensures AcceptableWith(InputOf(r), SERVER, histories) {
      var timelines :| Analyzed(InputsFor(InputOf(r), SERVER), timelines, histories);
      NoHistories(InputsFor(InputOf(r), SERVER), timelines, histories);
      NothingCounted(InputsFor(InputOf(r), SERVER));
    }
  }

  lemma NothingCounted(input: Inputs)
    requires input.objects == [] && input.wal.ranges == []
    ensures HistoryCount(input, []) == 0
  {
    assert TimelinesWithObjects(input.objects) == {} && TimelinesWithout(input, []) == {};
  }

  lemma NothingToPrint(r: ScanRun)
    requires NoWal(r)
    ensures Printable(MatchedOf(r))
  {
    hide MatchedOf, OfServer, Findings;
    forall s ensures PlainReports(OfServer(MatchedOf(r), s)) {
      assert OfServer(MatchedOf(r), s) == [];
    }
  }

  lemma BareScanIsValid(r: ScanRun, b: Backup)
    requires Plain(r) && r.configured == CONFIGURED && r.s.backups == [b] && TimesAscend(r.env.started, r.env.completed)
    requires b.server == SERVER && b.state == Evidence.Healthy && ValidBackupId(b.id)
    requires NoWal(r) && HistoryRefs(MatchedOf(r)) == []
    ensures ValidSnapshot(r.s)
  {
    CompletedValidIff(r.s, r.env, r.st, r.configured, r.walked, r.previous, r.generation);
    hide PlainScan, Matched, ValidSnapshot, NamesOf, Acceptable, NoWal, Printable, HistoryRefs, BarmanMatcher, ValidBackupId;
    OnlyServer(r);
    NothingToPrint(r);
    BareIsAcceptable(r, b);
  }

  // ---------------------------------------------------------------- the store

  lemma BareStoreIsListed()
    ensures AllStored([InfoObject("b")]) && HistoryRefs([InfoObject("b")]) == []
    ensures forall s :: OfServer([InfoObject("b")], s) == []
  {
    hide InfoObject, Stored, WalClassify.Classify;
    InfoIsListed("b");
    OneStored(InfoObject("b"));
    assert [InfoObject("b")][..0] == [];
    assert HistoryRefs([]) == [] && forall s :: OfServer([], s) == [];
  }

  lemma BareIsCatalogued(name: string, backup: DirectoryReader)
    requires forall server, id, listed :: backup(server, id, listed) == BareBackup(name)
    ensures Catalogued([BareBackup(name)], [InfoObject("b")], backup)
  {
    hide Catalogued, InfoObject;
    OneListed(BareBackup(name), backup);
  }

  lemma OptionsAreValid()
    ensures ValidOptions(OPTIONS) && ValidBackupId("b")
  {
    AsciiIsPublic(SERVER, 256);
    hide PublicText;
  }

  lemma StoreIsServable(r: ScanRun, read: HistoryObject -> HistoryText, objects: seq<Object>, backup: DirectoryReader)
    requires Plain(r) && ValidSnapshot(r.s)
    requires r.env == StoreOf(objects, backup, read) && r.st == OneServer() && r.configured == CONFIGURED
    ensures ServableScan(r.s, r.env, r.st, r.configured, r.walked, r.previous, r.generation, OPTIONS)
  {
    hide PlainScan, ValidSnapshot, ValidOptions;
    OptionsAreValid();
    forall id: CapabilityId ensures id in CAPABILITIES {
      assert CAPABILITIES[Rank(id)] == id;
    }
  }

  /** The scan of a store with the metadata of such a backup and no WAL: published, and served if the backup is presentable. */
  method BareStore(name: string) returns (r: ScanRun)
    ensures ServableScan(r.s, r.env, r.st, r.configured, r.walked, r.previous, r.generation, OPTIONS)
    ensures MatchedOf(r) == [InfoObject("b")] && r.s.backups == [BareBackup(name)]
    ensures Project(r.s, OPTIONS).Some? <==> Presentable(BareBackup(name))
  {
    hide Plain, MatchedOf, InfoObject, AllStored, Catalogued, ValidSnapshot, OfServer, HistoryRefs, Presentable, ServableScan, Project;
    var backup: DirectoryReader := (server, id, listed) => BareBackup(name);
    var read := (o: HistoryObject) => Unreadable;
    BareStoreIsListed();
    BareIsCatalogued(name, backup);
    OptionsAreValid();
    r := ScanStore([InfoObject("b")], [BareBackup(name)], backup, read);
    BareScanIsValid(r, BareBackup(name));
    StoreIsServable(r, read, [InfoObject("b")], backup);
    ServedIff(r.s, r.env, r.st, r.configured, r.walked, r.previous, r.generation, OPTIONS);
  }

  /** Under the lower-case spelling of a segment name the inventory publishes the scan and the engine refuses it. */
  method LowerNameStore() returns (r: ScanRun)
    ensures ServableScan(r.s, r.env, r.st, r.configured, r.walked, r.previous, r.generation, OPTIONS)
    ensures r.s.backups == [BareBackup(LowerName())] && Project(r.s, OPTIONS).None?
  {
    hide MatchedOf, ServableScan, Project, Presentable, LowerName, InfoObject;
    LowerNameIsRefused();
    r := BareStore(LowerName());
  }

  /** Under the spelling the pipeline itself uses, the engine takes it too. */
  method UpperNameStore() returns (r: ScanRun)
    ensures r.s.backups == [BareBackup(NameOr(1, 10, DEFAULT_SEGMENT_SIZE))] && Project(r.s, OPTIONS).Some?
    ensures ServableScan(r.s, r.env, r.st, r.configured, r.walked, r.previous, r.generation, OPTIONS)
  {
    hide MatchedOf, ServableScan, Project, Presentable, NameOr, InfoObject;
    UpperNameIsPresentable();
    r := BareStore(NameOr(1, 10, DEFAULT_SEGMENT_SIZE));
  }

  lemma TenthIsNameable()
    ensures Nameable(10, DEFAULT_SEGMENT_SIZE)
  {
    DefaultSizeIsValid();
    SegmentBounds(DEFAULT_SEGMENT_SIZE);
    hide ValidSegmentSize, SegmentsPerLog;
  }

  lemma UpperNameIsPresentable()
    ensures Presentable(BareBackup(NameOr(1, 10, DEFAULT_SEGMENT_SIZE)))
  {
    hide NameOr, Nameable, PublicName, PublicText, PublicLsn, Decimal, ValidSegmentSize;
    TenthIsNameable();
    NamedIsPublic(1, 10, DEFAULT_SEGMENT_SIZE);
    DefaultSizeIsValid();
    AsciiIsPublic("b", 256);
  }
}
