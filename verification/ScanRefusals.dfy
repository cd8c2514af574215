// Complete scans that Validate refuses, one for each way CompletedValidIff leaves open (scanner.go, wal.go and recovery.go).
module ScanRefusals {
  import opened Results
  import opened Store
  import opened Text
  import opened BarmanFormat
  import opened WalNames
  import opened WalClassify
  import opened WalCollector
  import opened WalRanges
  import opened WalCatalog
  import opened WalEvidence
  import opened WalValidation
  import opened Ancestries
  import opened Histories
  import opened PathCoverage
  import opened RecoveryPaths
  import opened ServerRecovery
  import opened RecoveryCatalogs
  import opened RecoveryValidation
  import opened RecoveryValidity
  import opened Inventory
  import opened InventoryBuilder
  import opened ScanRuns
  import opened Backups
  import Evidence

  const SERVER := "s"

  lemma ServerIsValid()
    ensures ValidName(SERVER)
  {
  }

  /** Evidence is reported for whatever is listed. */
  lemma ListedIsNamed(r: ScanRun, server: string)
    requires Plain(r) && Listed(MatchedOf(r), server)
    ensures server in NamesOf(InputOf(r))
  {
    hide Plain, SaneInput, Recovered, MatchedOf, FinishedServer, Listed;
    PlainParts(r);
    assert Reported(MatchedOf(r), r.s.backups, server);
    var k :| 0 <= k < |r.s.wal.servers| && r.s.wal.servers[k].server == server;
    assert InputOf(r).wal.servers[k].server == server;
  }

  // ---------------------------------------------------------------- a key with a control character

  function ControlKey(): string {
    "s" + "/" + ("wals" + "/" + [1 as char])
  }

  /** `s/wals/` followed by the byte 1 is accepted, as an object that is not recognised and cannot be quoted. */
  lemma ControlKeyIsListed(time: Time)
    ensures Classify(Object(ControlKey(), 1, time)).Some? && Bounded(Object(ControlKey(), 1, time))
    ensures Unprintable(Classify(Object(ControlKey(), 1, time)).value) && Classify(Object(ControlKey(), 1, time)).value.server == SERVER
  {
    hide Split, StripCompression, HasSuffix, IsHex, EqualFold, ParseHex32, ControlFree, ControlKey;
    ControlKeyIsUnprintable();
  }

  lemma ControlKeyIsUnprintable()
    ensures !ControlFree(ControlKey()) && 0 < |ControlKey()| <= MAX_KEY_BYTES && Split(ControlKey()) == [SERVER, "wals", [1 as char]]
  {
    hide Split;
    HistoryParts(ControlKey(), SERVER, [1 as char]);
    assert ControlAt(ControlKey(), 7);
  }

  // ---------------------------------------------------------------- a history of timeline 1

  function HistoryKey(timeline: U32): string {
    "s" + "/" + ("wals" + "/" + (Hex(timeline, 8) + ".history"))
  }

  ghost predicate EarlyObject(entry: Object) {
    Classify(entry).Some? && Classify(entry).value.kind == History && Classify(entry).value.timeline == 1
  }

  /** Such a key is accepted as history metadata of its timeline; that of timeline 1 is `s/wals/00000001.history`. */
  lemma HistoryIsListed(timeline: U32, time: Time)
    requires timeline != 0
    ensures var entry := Object(HistoryKey(timeline), 1, time);
            Classify(entry) == Some(Classified(entry.key, SERVER, Hex(timeline, 8) + ".history", "none", History, timeline, 0, 0, time,
                                               HistoryMetadata))
  {
    Widths();
    ValueOfHex(timeline, 8);
    HistoryKeyClassifies(Object(HistoryKey(timeline), 1, time), "s", Hex(timeline, 8), timeline);
    hide Classify, Hex;
  }

  lemma {:induction false} RefOfListed(listing: seq<Object>, k: nat)
    requires k < |listing| && Classify(listing[k]).Some? && Classify(listing[k]).value.kind == History
    ensures HistoryRef(Classify(listing[k]).value) in HistoryRefs(listing)
    decreases |listing|
  {
    hide Classify;
    if k < |listing| - 1 {
      RefOfListed(listing[..|listing| - 1], k);
    }
  }

  lemma {:induction false} ObjectsForMember(objects: seq<HistoryObject>, o: HistoryObject)
    requires o in objects
    ensures o in ObjectsFor(objects, o.server)
  {
    var n := |objects| - 1;
    assert objects == objects[..n] + [objects[n]];
    if o != objects[n] {
      ObjectsForMember(objects[..n], o);
    }
  }

  lemma EarlyIsNotLate(objects: seq<HistoryObject>, o: HistoryObject)
    requires o in objects && o.timeline < 2
    ensures !LateObjects(ObjectsFor(objects, o.server))
  {
    ObjectsForMember(objects, o);
    var k :| 0 <= k < |ObjectsFor(objects, o.server)| && ObjectsFor(objects, o.server)[k] == o;
    hide ObjectsFor;
  }

  /** One history object of timeline 1 refuses every complete scan that keeps it. */
  lemma EarlyHistoryIsRefused(r: ScanRun, k: nat)
    requires Plain(r) && k < |MatchedOf(r)| && EarlyObject(MatchedOf(r)[k])
    requires |HistoryRefs(MatchedOf(r))| <= MAX_HISTORY_FILES
    ensures !ValidSnapshot(r.s)
  {
    hide Plain, MatchedOf, Classify, HistoriesFor, PathsFit, IdentifiersFit, LateObjects, ObjectsFor, HistoryCount, ValidSnapshot,
         BackupsFor;
    var o, i := HistoryRef(Classify(MatchedOf(r)[k]).value), InputOf(r);
    RefOfListed(MatchedOf(r), k);
    assert i.objects == HistoryRefs(MatchedOf(r));
    var j :| 0 <= j < |i.objects| && i.objects[j] == o;
    EarlyIsNotLate(i.objects, o);
    UnacceptableIsRefused(r, o.server);
  }

  // ---------------------------------------------------------------- a backup with a long identifier

  /** A backup that reaches a path under an identifier Validate does not accept refuses the scan. */
  lemma BadIdentifierIsRefused(r: ScanRun, server: string, k: nat)
    requires Plain(r) && k < |BackupsFor(r.s.backups, server)| && !ValidBackupId(BackupsFor(r.s.backups, server)[k].id)
    requires forall histories :: HistoriesFor(histories, InputOf(r), server) ==>
               Represented(BackupsFor(r.s.backups, server), WalFor(r.s.wal, server), histories, k)
    ensures !ValidSnapshot(r.s)
  {
    hide Plain, MatchedOf, HistoriesFor, PathsFit, Represented, LateObjects, ObjectsFor, HistoryCount, ValidSnapshot, BackupsFor,
         ValidBackupId, HistoryRefs;
    var backups := BackupsFor(r.s.backups, server);
    BackupsForMembers(r.s.backups, server);
    assert backups[k] in backups;
    var j :| 0 <= j < |r.s.backups| && r.s.backups[j] == backups[k];
    assert InputOf(r).backups[j].server == server;
    UnacceptableIsRefused(r, server);
  }

  lemma FirstIsRepresented(backups: seq<Backup>, wal: ServerWal, histories: seq<TimelineHistory>)
    requires Usable(backups, 0)
    ensures Represented(backups, wal, histories, 0)
  {
    hide PathCount, Asked, Conflicting;
  }

  /** The first backup of a server always reaches one, if it is healthy. */
  lemma LongIdentifierIsRefused(r: ScanRun, server: string)
    requires Plain(r) && Usable(BackupsFor(r.s.backups, server), 0) && |BackupsFor(r.s.backups, server)[0].id| > 256
    ensures !ValidSnapshot(r.s)
  {
    hide Plain, MatchedOf, HistoriesFor, Represented, ValidSnapshot, BackupsFor, InputOf, WalFor;
    forall histories { FirstIsRepresented(BackupsFor(r.s.backups, server), WalFor(r.s.wal, server), histories); }
    BadIdentifierIsRefused(r, server, 0);
  }

  function LongId(): string {
    seq(257, _ => 'a')
  }

  function LongBackup(): Backup {
    Backup(SERVER, LongId(), "", Evidence.Healthy, "", "", "", 0, 0, 0, 0, NO_NOTES)
  }

  /** The metadata object of a backup. */
  function InfoKey(id: string): string {
    "s" + "/" + ("base" + "/" + (id + "/" + "backup.info"))
  }

  lemma InfoParts(id: string)
    requires '/' !in id
    ensures Split(InfoKey(id)) == ["s", "base", id, "backup.info"]
  {
    hide Split;
    SplitOfJoin("s", "base" + "/" + (id + "/" + "backup.info"));
    SplitOfJoin("base", id + "/" + "backup.info");
    SplitOfJoin(id, "backup.info");
    SplitOfJoin("backup.info", "");
  }

  /** The key of its metadata is within bounds and recognised as a backup's. */
  lemma LongBackupIsListed()
    ensures |InfoKey(LongId())| <= MAX_KEY_BYTES && BackupObject(InfoKey(LongId())) && Split(InfoKey(LongId()))[2] == LongId()
  {
    hide Split, LongId;
    LongIdIsPlain();
    InfoParts(LongId());
  }

  lemma LongIdIsPlain()
    ensures |LongId()| == 257 && '/' !in LongId()
  {
  }

  // ---------------------------------------------------------------- WAL on many timelines

  /** One segment on each of the timelines 1 to n, and nothing else. */
  ghost predicate OneEach(objects: seq<Classified>, n: U32) {
    |objects| == n && forall k :: 0 <= k < n ==>
                        objects[k].kind == Segment && IdOf(objects[k]) == SegmentId(k + 1, 0, 1)
  }

  lemma {:induction false} AllSegments(objects: seq<Classified>)
    requires forall k :: 0 <= k < |objects| ==> objects[k].kind == Segment
    ensures SegmentsIn(objects) == objects
  {
    if objects != [] {
      var n := |objects| - 1;
      AllSegments(objects[..n]);
      assert objects == objects[..n] + [objects[n]];
    }
  }

  lemma FirstSegmentPlaced(timeline: U32)
    requires timeline != 0
    ensures PositionOf(SegmentId(timeline, 0, 1), DEFAULT_SEGMENT_SIZE) == Ok(1)
  {
    DefaultSizeIsValid();
    SegmentBounds(DEFAULT_SEGMENT_SIZE);
    hide ValidSegmentSize;
  }

  lemma OneEachIsOrderly(objects: seq<Classified>, n: U32)
    requires OneEach(objects, n) && n <= MAX_WAL_RANGES
    ensures Orderly(objects, DEFAULT_SEGMENT_SIZE)
    ensures forall t: U32, p :: At(SegmentsIn(objects), DEFAULT_SEGMENT_SIZE, t, p) <==> 1 <= t <= n && p == 1
  {
    hide PositionOf, SegmentsIn;
    AllSegments(objects);
    forall k | 0 <= k < n ensures PositionOf(IdOf(objects[k]), DEFAULT_SEGMENT_SIZE) == Ok(1) {
      FirstSegmentPlaced(objects[k].timeline);
    }
    forall t: U32, p | 1 <= t <= n && p == 1 ensures At(SegmentsIn(objects), DEFAULT_SEGMENT_SIZE, t, p) {
      assert SitsAt(objects[t - 1], DEFAULT_SEGMENT_SIZE, t, p);
    }
  }

  /** Its WAL has a range on exactly those timelines. */
  ghost predicate Spans(wal: ServerWal, n: U32) {
    wal.server == SERVER && wal.segmentSize == DEFAULT_SEGMENT_SIZE && forall t: U32 :: HasRange(wal.ranges, t) <==> 1 <= t <= n
  }

  lemma ObservedHasRange(ranges: seq<WalRange>, t: U32)
    requires Canonical(ranges)
    ensures HasRange(ranges, t) <==> exists p :: Observed(ranges, t, p)
  {
    if HasRange(ranges, t) {
      var k :| 0 <= k < |ranges| && ranges[k].timeline == t;
      assert InRange(ranges[k], t, ranges[k].start);
      assert Observed(ranges, t, ranges[k].start);
    }
  }

  /** What a scan must see of the server for that: a supported context, those segments, and no history withheld. */
  ghost predicate SeesMany(r: ScanRun, n: U32) {
    var objects, context := OfServer(MatchedOf(r), SERVER), ContextOf(r.s.backups, SERVER);
    && Plain(r) && OneEach(objects, n) && 1 <= n <= MAX_WAL_RANGES && |HistoryRefs(MatchedOf(r))| <= MAX_HISTORY_FILES
    && context.Known? && context.size == DEFAULT_SEGMENT_SIZE
  }

  lemma ManySpan(r: ScanRun, n: U32)
    requires SeesMany(r, n)
    ensures Spans(WalFor(r.s.wal, SERVER), n) && SERVER in NamesOf(InputOf(r))
  {
    hide Plain, MatchedOf, Canonical, Observed, At, HasRange, OneEach, OfServer, ContextOf, NamesOf, SegmentsIn, FinishedServer,
         Orderly, InputOf, Finished, SaneInput, Recovered, FindServer;
    PlainParts(r);
    assert Listed(MatchedOf(r), SERVER) by {
      NotNothing(OfServer(MatchedOf(r), SERVER), n);
    }
    ListedIsNamed(r, SERVER);
    OneEachIsOrderly(OfServer(MatchedOf(r), SERVER), n);
    FinishedObserves(r.s.wal, MatchedOf(r), r.s.backups, r.previous, r.generation, SERVER);
    var ranges := WalFor(r.s.wal, SERVER).ranges;
    forall t: U32 ensures HasRange(ranges, t) <==> 1 <= t <= n {
      ObservedHasRange(ranges, t);
      assert Observed(ranges, t, 1) <==> 1 <= t <= n;
    }
  }

  lemma NotNothing(objects: seq<Classified>, n: U32)
    requires OneEach(objects, n) && n > 0
    ensures objects != []
  {
  }

  /** Its history references are those of its recognised histories. */
  lemma {:induction false} RefsOfServer(listing: seq<Object>, server: string)
    ensures forall o :: o in HistoryRefs(listing) && o.server == server ==>
              exists c :: c in OfServer(listing, server) && c.kind == History
  {
    hide Classify;
    if listing != [] {
      var n := |listing| - 1;
      RefsOfServer(listing[..n], server);
      forall o | o in HistoryRefs(listing) && o.server == server ensures exists c :: c in OfServer(listing, server) && c.kind == History {
        if o in HistoryRefs(listing[..n]) {
          var c :| c in OfServer(listing[..n], server) && c.kind == History;
          assert c in OfServer(listing, server);
        } else {
          assert Classify(listing[n]).value in OfServer(listing, server);
        }
      }
    }
  }

  lemma {:induction false} ObjectsForMembers(objects: seq<HistoryObject>, server: string)
    ensures forall o :: o in ObjectsFor(objects, server) ==> o in objects && o.server == server
  {
    if objects != [] {
      ObjectsForMembers(objects[..|objects| - 1], server);
    }
  }

  lemma EmptyOrMember<T(!new)>(s: seq<T>)
    ensures s == [] || exists x :: x in s
  {
    if s != [] {
      assert s[0] in s;
    }
  }

  lemma NoHistoryObjects(r: ScanRun, n: U32)
    requires SeesMany(r, n)
    ensures ObjectsFor(InputOf(r).objects, SERVER) == [] && !InputOf(r).truncated
  {
    hide Plain, MatchedOf, ContextOf, OfServer, HistoryRefs, ObjectsFor;
    var objects := InputOf(r).objects;
    assert objects == HistoryRefs(MatchedOf(r));
    RefsOfServer(MatchedOf(r), SERVER);
    ObjectsForMembers(objects, SERVER);
    assert forall c :: c in OfServer(MatchedOf(r), SERVER) ==> c.kind == Segment;
    EmptyOrMember(ObjectsFor(objects, SERVER));
  }

  // ---------------------------------------------------------------- a history missing on each

  /** Without history objects every history is a missing one. */
  lemma AllMissing(histories: seq<TimelineHistory>, i: RecoveryInput)
    requires HistoriesFor(histories, i, SERVER) && ObjectsFor(i.objects, SERVER) == [] && !i.truncated
    ensures forall h :: h in histories ==> h.state == Evidence.Unknown
  {
    hide RequiresHistory, InputsFor;
    var timelines :| Analyzed(InputsFor(i, SERVER), timelines, histories);
    NoObjects(i, timelines);
    assert timelines == [];
  }

  lemma NoObjects(i: RecoveryInput, timelines: seq<U32>)
    requires ObjectsFor(i.objects, SERVER) == [] && ObjectTimelines(InputsFor(i, SERVER).objects, timelines)
    ensures timelines == []
  {
    EmptyOrMember(timelines);
  }

  lemma NoHealthyChild(histories: seq<TimelineHistory>, t: U32)
    requires forall h :: h in histories ==> h.state == Evidence.Unknown
    ensures !HealthyChild(histories, t)
  {
  }

  function UpTo(n: U32): set<U32> {
    if n == 0 then {} else UpTo(n - 1) + {n}
  }

  lemma {:induction false} UpToMembers(n: U32)
    ensures |UpTo(n)| == n && forall t: U32 :: t in UpTo(n) <==> 1 <= t <= n
  {
    if n > 0 {
      UpToMembers(n - 1);
    }
  }

  /** Every timeline above 1 misses its history. */
  lemma ManyMissing(input: Inputs, histories: seq<TimelineHistory>, n: U32)
    requires n >= 1 && input.objects == [] && Spans(input.wal, n)
    requires forall h :: h in histories ==> h.state == Evidence.Unknown
    ensures HistoryCount(input, histories) == n - 1
  {
    hide HasRange;
    forall t: U32 ensures t in TimelinesWithout(input, histories) <==> 1 < t <= n {
      NoHealthyChild(histories, t);
      WithoutMembers(input, histories, t);
    }
    hide TimelinesWithout;
    UpToMembers(n);
    assert UpTo(n) == TimelinesWithout(input, histories) + {1};
    assert TimelinesWithObjects(input.objects) == {};
  }

  lemma WithoutMembers(input: Inputs, histories: seq<TimelineHistory>, t: U32)
    requires input.objects == [] && !HealthyChild(histories, t)
    ensures t in TimelinesWithout(input, histories) <==> t > 1 && HasRange(input.wal.ranges, t)
  {
    hide HealthyChild;
  }

  /** WAL on more than 1,001 timelines without any history refuses the scan. */
  lemma ManyHistoriesAreRefused(r: ScanRun, n: U32)
    requires SeesMany(r, n) && n > 1_001
    ensures !ValidSnapshot(r.s)
  {
    hide SeesMany, Plain, MatchedOf, HistoryCount, NamesOf, HistoriesFor, PathsFit, IdentifiersFit, LateObjects, ObjectsFor, BackupsFor,
         WalFor, Spans, ValidSnapshot, HistoryRefs, Keep;
    var i := InputOf(r);
    ManySpan(r, n);
    NoHistoryObjects(r, n);
    forall histories | HistoriesFor(histories, i, SERVER) ensures !AcceptableWith(i, SERVER, histories) {
      AllMissing(histories, i);
      ManyMissing(InputsFor(i, SERVER), histories, n);
    }
    assert Plain(r) by { SeesPlain(r, n); }
    UnacceptableIsRefused(r, SERVER);
  }

  lemma SeesPlain(r: ScanRun, n: U32)
    requires SeesMany(r, n)
    ensures Plain(r)
  {
    hide Plain, MatchedOf, OneEach, ContextOf, HistoryRefs;
  }

  // ---------------------------------------------------------------- one path too many

  /** Backups of timeline 1 whose identifiers differ in length. */
  function Twin(k: nat): Backup {
    var name := NameOr(1, 1, DEFAULT_SEGMENT_SIZE);
    Backup(SERVER, seq(k + 1, _ => 'a'), "", Evidence.Healthy, name, name, "", DEFAULT_SEGMENT_SIZE, 150_000, 1, 1, NO_NOTES)
  }

  function Twins(n: nat): seq<Backup> {
    seq(n, k requires 0 <= k < n => Twin(k))
  }

  lemma FirstSegmentIsNameable()
    ensures Nameable(1, DEFAULT_SEGMENT_SIZE)
  {
    DefaultSizeIsValid();
    SegmentBounds(DEFAULT_SEGMENT_SIZE);
    hide ValidSegmentSize, SegmentsPerLog;
  }

  lemma TwinAnchors(k: nat)
    ensures BackupRange(Twin(k)) == Some(Anchors(1, 1, 1))
    ensures Twin(k).state == Evidence.Healthy && Twin(k).segmentSize == DEFAULT_SEGMENT_SIZE && Twin(k).server == SERVER
    ensures Twin(k).systemId == "" && |Twin(k).id| == k + 1
  {
    FirstSegmentIsNameable();
    ParseOfName(1, 1, DEFAULT_SEGMENT_SIZE);
    hide WalName, ParseWalName, Nameable;
  }

  lemma NothingLeaves(histories: seq<TimelineHistory>, s: Source, k: int)
    requires forall h :: h in histories ==> h.state == Evidence.Unknown
    requires 0 <= k < |histories|
    ensures Leaving(histories[k], s) == []
  {
    assert histories[k] in histories;
    hide Descendants;
  }

  lemma NothingReached(histories: seq<TimelineHistory>, s: Source, t: U32)
    requires forall h :: h in histories ==> h.state == Evidence.Unknown
    ensures !Reached(histories, s, t) && !Skipped(histories, s, t)
  {
    forall k | 0 <= k < |histories| ensures Leaving(histories[k], s) == [] {
      NothingLeaves(histories, s, k);
    }
    hide Leaving;
  }

  /** Without histories every observed timeline is a target of its own. */
  lemma TwinTargets(wal: ServerWal, histories: seq<TimelineHistory>, k: nat, n: U32)
    requires n >= 1 && Spans(wal, n) && forall h :: h in histories ==> h.state == Evidence.Unknown
    ensures PathCount(Twin(k), wal, histories) == n
  {
    TwinAnchors(k);
    hide Twin, BackupRange, Targets, HasRange;
    assert AnchorsFor(Twin(k), wal) == Some(Anchors(1, 1, 1));
    TargetsUpTo(histories, Source(Twin(k), Anchors(1, 1, 1), wal), n);
  }

  lemma TargetsUpTo(histories: seq<TimelineHistory>, s: Source, n: U32)
    requires n >= 1 && forall h :: h in histories ==> h.state == Evidence.Unknown
    requires s.anchors.timeline == 1 && Spans(s.wal, n)
    ensures |Targets(histories, s)| == n
  {
    hide Reached, Skipped, HasRange;
    UpToMembers(n);
    forall t: U32 ensures t in Targets(histories, s) <==> t in UpTo(n) {
      NothingReached(histories, s, t);
    }
    assert Targets(histories, s) == UpTo(n);
  }

  lemma {:induction false} AskedEvenly(backups: seq<Backup>, wal: ServerWal, histories: seq<TimelineHistory>, n: nat, m: nat)
    requires m <= |backups| && forall k :: 0 <= k < |backups| ==> Usable(backups, k) && PathCount(backups[k], wal, histories) == n
    ensures Asked(backups[..m], wal, histories) == m * n
  {
    hide PathCount, Asked;
    if m == 0 {
      NothingCollected(backups, wal, histories);
    } else {
      AskedEvenly(backups, wal, histories, n, m - 1);
      AskedOneMore(backups, wal, histories, m - 1);
      assert Usable(backups, m - 1);
      assert m * n == (m - 1) * n + n;
    }
  }

  lemma TwinsAsk(wal: ServerWal, histories: seq<TimelineHistory>, all: nat, n: U32, m: nat)
    requires m <= all && n >= 1 && Spans(wal, n) && forall h :: h in histories ==> h.state == Evidence.Unknown
    ensures Asked(Twins(all)[..m], wal, histories) == m * n
  {
    hide PathCount, Spans, Twin, Asked;
    var backups := Twins(all);
    forall k | 0 <= k < |backups| ensures Usable(backups, k) && PathCount(backups[k], wal, histories) == n {
      TwinTargets(wal, histories, k, n);
      TwinAnchors(k);
    }
    hide Twins;
    AskedEvenly(backups, wal, histories, n, m);
  }

  lemma {:induction false} BackupsOfOne(backups: seq<Backup>, server: string)
    requires forall k :: 0 <= k < |backups| ==> backups[k].server == SERVER
    ensures BackupsFor(backups, server) == if server == SERVER then backups else []
  {
    if backups != [] {
      var n := |backups| - 1;
      BackupsOfOne(backups[..n], server);
      assert backups == backups[..n] + [backups[n]];
    }
  }

  lemma TwinsAgree(all: nat)
    ensures !Conflicting(Twins(all))
  {
    forall k | 0 <= k < all ensures Twins(all)[k].systemId == "" {
      TwinAnchors(k);
    }
    hide Twin;
  }

  lemma {:induction false} TwinsInform(backups: seq<Backup>)
    requires backups != [] && forall k :: 0 <= k < |backups| ==> backups[k] == Twin(k)
    ensures ContextOf(backups, SERVER) == Known(150_000, DEFAULT_SEGMENT_SIZE)
  {
    forall k | 0 <= k < |backups| ensures Informs(backups[k], SERVER) && WalCatalog.Supported(backups[k])
                                          && backups[k].postgresVersion == 150_000 && backups[k].segmentSize == DEFAULT_SEGMENT_SIZE
    {
      TwinAnchors(k);
      DefaultSizeIsValid();
      hide ValidSegmentSize;
    }
    ContextKnownIff(backups, SERVER);
    hide Twin, ContextAfter, WalCatalog.Supported, Informs;
    assert Informs(backups[0], SERVER);
  }

  /** 101 backups with 99 targets each leave one place; the next backup takes it and one more. */
  lemma ManyPathsAreRefused(r: ScanRun)
    requires SeesMany(r, 99) && r.s.backups == Twins(102)
    ensures !ValidSnapshot(r.s)
  {
    hide SeesMany, Plain, MatchedOf, HistoryCount, NamesOf, HistoriesFor, PathsFit, IdentifiersFit, LateObjects, ObjectsFor, BackupsFor,
         WalFor, Spans, ValidSnapshot, HistoryRefs, Keep, Twins;
    var i := InputOf(r);
    ManySpan(r, 99);
    NoHistoryObjects(r, 99);
    AllOfOne(102);
    forall histories | HistoriesFor(histories, i, SERVER) ensures !AcceptableWith(i, SERVER, histories) {
      AllMissing(histories, i);
      TwinsOverrun(WalFor(i.wal, SERVER), histories);
    }
    assert Plain(r) by { SeesPlain(r, 99); }
    UnacceptableIsRefused(r, SERVER);
  }

  lemma AllOfOne(all: nat)
    ensures BackupsFor(Twins(all), SERVER) == Twins(all)
  {
    forall k | 0 <= k < all ensures Twins(all)[k].server == SERVER {
      TwinAnchors(k);
    }
    hide Twin;
    BackupsOfOne(Twins(all), SERVER);
  }

  lemma TwinsOverrun(wal: ServerWal, histories: seq<TimelineHistory>)
    requires Spans(wal, 99) && forall h :: h in histories ==> h.state == Evidence.Unknown
    ensures !PathsFit(Twins(102), wal, histories)
  {
    TwinsAgree(102);
    TwinsAsk(wal, histories, 102, 99, 101);
    TwinsAsk(wal, histories, 102, 99, 102);
    hide Asked, Spans, Conflicting, Twin;
    assert Twins(102)[..102] == Twins(102);
    assert AskedBefore(Twins(102), wal, histories, 101);
  }
}
