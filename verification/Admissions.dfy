// Which complete scans the sidecar's engine serves (internal/evidenceapi/projection.go with api/evidence/v1alpha1/types.go).
module Admissions {
  import opened Results
  import opened Text
  import opened WalNames
  import opened WalRanges
  import opened WalGaps
  import opened WalCatalog
  import opened WalValidation
  import opened RangeWalk
  import opened Timelines
  import opened Ancestries
  import opened Histories
  import opened PathCoverage
  import opened SwitchCoverage
  import opened RecoveryPaths
  import opened ServerRecovery
  import opened RecoveryCatalogs
  import opened Inventory
  import opened EvidenceContract
  import opened Publications
  import opened Backups
  import Evidence
  import Sorting

  // ---------------------------------------------------------------- names

  lemma {:induction false} HexIsUpper(v: nat, width: nat)
    ensures UpperHex(Hex(v, width))
  {
    if width > 0 {
      HexIsUpper(v / 16, width - 1);
    }
  }

  /** Every name the pipeline forms itself is one the contract accepts. */
  lemma FormedName(timeline: U32, position: U64, size: int)
    requires WalName(timeline, position, size).Ok?
    ensures PublicName(WalName(timeline, position, size).value)
  {
    hide Hex;
    SegmentBounds(size);
    var log, segment := LogOf(position, SegmentsPerLog(size)), SegmentOf(position, SegmentsPerLog(size));
    HexIsUpper(timeline, 8);
    HexIsUpper(log, 8);
    HexIsUpper(segment, 8);
  }

  // ---------------------------------------------------------------- ranges and gaps

  lemma RangeIsPublic(r: WalRange, server: string, size: int)
    requires ValidRange(r, size) && ValidPublicServer(server)
    ensures ValidPublicRange(RangeItem(r, server))
  {
    FormedName(r.timeline, r.start, size);
    FormedName(r.timeline, r.end, size);
    hide WalName, ValidPublicServer, PublicName, Span;
  }

  lemma GapIsPublic(g: WalGap, server: string, size: int)
    requires ValidGap(g, size) && ValidPublicServer(server)
    ensures ValidPublicGap(GapItem(g, server))
  {
    FormedName(g.timeline, g.start, size);
    FormedName(g.timeline, g.end, size);
    hide WalName, ValidPublicServer, PublicName, Span;
  }

  ghost predicate GapBefore(a: WalGap, b: WalGap) {
    a.timeline < b.timeline || (a.timeline == b.timeline && a.start < b.start)
  }

  /** The gaps of canonical ranges come in their order. */
  lemma {:induction false} GapsInOrder(ranges: seq<WalRange>, previous: seq<WalGap>, size: int, generation: U64, i: int, j: int)
    requires Canonical(ranges) && 0 <= i < j < |GapsOf(ranges, previous, size, generation)|
    ensures GapBefore(GapsOf(ranges, previous, size, generation)[i], GapsOf(ranges, previous, size, generation)[j])
  {
    hide FindGap, Span, NameOr;
    var n := |ranges| - 1;
    var front, gaps := GapsOf(ranges[..n], previous, size, generation), GapsOf(ranges, previous, size, generation);
    CanonicalFront(ranges);
    if j < |front| {
      GapsInOrder(ranges[..n], previous, size, generation, i, j);
    } else {
      var m := GapHasNeighbours(ranges[..n], previous, size, generation, i);
      assert ranges[..n][m] == ranges[m] && ranges[..n][m - 1] == ranges[m - 1];
      assert m < n - 1 ==> RangeBefore(ranges[m], ranges[n - 1]);
    }
  }

  lemma CanonicalFront(ranges: seq<WalRange>)
    requires Canonical(ranges) && ranges != []
    ensures Canonical(ranges[..|ranges| - 1])
  {
  }

  /** The WAL part of a publication never stands in its way. */
  ghost predicate WalPublic(w: ServerWal, server: string) {
    && (forall k :: 0 <= k < |w.ranges| ==> ValidPublicRange(RangeItem(w.ranges[k], server)))
    && (forall k :: 0 <= k < |w.gaps| ==> ValidPublicGap(GapItem(w.gaps[k], server)))
    && Canonical(w.ranges)
    && (forall i, j :: 0 <= i < j < |w.gaps| ==> GapBefore(w.gaps[i], w.gaps[j]))
  }

  lemma ItemsOrdered(w: ServerWal, server: string)
    requires WalPublic(w, server)
    ensures forall k :: 0 <= k < |w.ranges| ==> ValidPublicRange(RangeItems(w.ranges, server)[k])
    ensures forall k :: 0 <= k < |w.gaps| ==> ValidPublicGap(GapItems(w.gaps, server)[k])
    ensures Publications.Ordered(RangeItemBefore, RangeItems(w.ranges, server)) && Publications.Ordered(GapItemBefore, GapItems(w.gaps, server))
  {
    hide ValidPublicRange, ValidPublicGap, RangeItems, GapItems;
    var ranges, gaps := RangeItems(w.ranges, server), GapItems(w.gaps, server);
    forall i, j | 0 <= i < j < |ranges| ensures RangeItemBefore(ranges[i], ranges[j]) {
      assert RangeBefore(w.ranges[i], w.ranges[j]);
    }
    forall i, j | 0 <= i < j < |gaps| ensures GapItemBefore(gaps[i], gaps[j]) {
      assert GapBefore(w.gaps[i], w.gaps[j]);
    }
  }

  /** What a finished server reports is fit to publish. */
  lemma FinishedIsPublic(w: ServerWal, previous: seq<WalGap>, generation: U64)
    requires ValidServer(w) && ValidPublicServer(w.server) && Canonical(w.ranges)
    requires (w.gaps == [] || w.gaps == GapsOf(w.ranges, previous, w.segmentSize, generation))
    ensures WalPublic(w, w.server)
  {
    hide ValidName, ValidSummary, ValidRange, ValidGap, ValidDiagnostic, ValidPublicServer, ValidPublicRange, ValidPublicGap, GapsOf,
         GapBefore, RangeItem, GapItem;
    forall k | 0 <= k < |w.ranges| ensures ValidPublicRange(RangeItem(w.ranges[k], w.server)) {
      RangeIsPublic(w.ranges[k], w.server, w.segmentSize);
    }
    forall k | 0 <= k < |w.gaps| ensures ValidPublicGap(GapItem(w.gaps[k], w.server)) {
      assert w.gaps[k] in w.gaps;
      GapIsPublic(w.gaps[k], w.server, w.segmentSize);
    }
    forall i, j | 0 <= i < j < |w.gaps| ensures GapBefore(w.gaps[i], w.gaps[j]) {
      GapsInOrder(w.ranges, previous, w.segmentSize, generation, i, j);
    }
  }

  // ---------------------------------------------------------------- paths

  /** Every range ends at a position that has a name. */
  ghost predicate EndsNamed(ranges: seq<WalRange>, size: int) {
    forall r :: r in ranges ==> Nameable(r.end, size)
  }

  /** A walk ends where it starts, where it was to lead, or at the end of a range. */
  lemma {:induction false} WalkEnds(ranges: seq<WalRange>, gaps: seq<WalGap>, start: U64, required: U64)
    ensures var p := Reach(ranges, gaps, start, required).position; p == start || p == required || exists r :: r in ranges && r.end == p
    ensures var p := Extend(ranges, gaps, start).position; p == start || exists r :: r in ranges && r.end == p
  {
    hide GapAfter;
    if ranges != [] {
      WalkEnds(ranges[1..], gaps, start, required);
      assert ranges[0] in ranges;
      assert forall r :: r in ranges[1..] ==> r in ranges;
    }
  }

  lemma WalkNamed(wal: ServerWal, timeline: U32, start: U64, required: U64)
    requires EndsNamed(wal.ranges, wal.segmentSize) && Nameable(start, wal.segmentSize) && Nameable(required, wal.segmentSize)
    ensures Nameable(ReachPosition(wal.ranges, wal.gaps, timeline, start, required).position, wal.segmentSize)
    ensures Nameable(ContiguousFrontier(wal.ranges, wal.gaps, timeline, start).position, wal.segmentSize)
  {
    hide Reach, Extend, Nameable;
    WalkEnds(RangesFor(wal.ranges, timeline), wal.gaps, start, required);
  }

  /** The frontier is absent, or on a real timeline and with the name of its position. */
  ghost predicate FrontierNamed(p: RecoveryPath, size: int) {
    if p.frontierTimeline == 0 then p.frontierWal == ""
    else Nameable(p.frontierPosition, size) && p.frontierWal == NameOr(p.frontierTimeline, p.frontierPosition, size)
  }

  ghost predicate SwitchesNamed(edges: seq<HistoryEdge>, size: int) {
    forall k :: 0 <= k < |edges| ==> edges[k].child != 0 && Nameable(edges[k].switchPosition, size)
  }

  lemma {:induction false} LegsNamed(path: RecoveryPath, wal: ServerWal, current: U32, position: U64, edges: seq<HistoryEdge>)
    requires EndsNamed(wal.ranges, wal.segmentSize) && SwitchesNamed(edges, wal.segmentSize)
    requires current != 0 && Nameable(position, wal.segmentSize) && FrontierNamed(path, wal.segmentSize)
    ensures FrontierNamed(Legs(path, wal, current, position, edges), wal.segmentSize)
    decreases |edges|
  {
    hide ReachPosition, ContiguousFrontier, Histories.Holds, NameOr, Nameable, EndsNamed;
    if edges == [] {
      WalkNamed(wal, current, position, position);
    } else {
      var edge := edges[0];
      WalkNamed(wal, current, position, edge.switchPosition);
      var walk := ReachPosition(wal.ranges, wal.gaps, current, position, edge.switchPosition);
      LegsNamed(AtFrontier(path, current, walk, wal.segmentSize), wal, edge.child, edge.switchPosition, edges[1..]);
    }
  }

  lemma EvaluateNamed(s: Source, target: U32, edges: seq<HistoryEdge>)
    requires EndsNamed(s.wal.ranges, s.wal.segmentSize) && SwitchesNamed(edges, s.wal.segmentSize) && s.anchors.timeline != 0
    requires Nameable(s.anchors.begin, s.wal.segmentSize) && Nameable(s.anchors.end, s.wal.segmentSize)
    ensures var p := RecoveryPaths.Evaluated(s, target, edges);
            && FrontierNamed(p, s.wal.segmentSize) && p.backupId == s.backup.id
            && p.startTimeline == s.anchors.timeline && p.startWal == s.backup.beginWal
  {
    hide ReachPosition, Legs, NameOr, Nameable, EndsNamed, SwitchesNamed;
    var walk := ReachPosition(s.wal.ranges, s.wal.gaps, s.anchors.timeline, s.anchors.begin, s.anchors.end);
    WalkNamed(s.wal, s.anchors.timeline, s.anchors.begin, s.anchors.end);
    var path := AtFrontier(StartedPath(s.backup, s.anchors.timeline, s.anchors.begin, target), s.anchors.timeline, walk, s.wal.segmentSize);
    LegsNamed(path, s.wal, s.anchors.timeline, s.anchors.end, edges);
    LegsKeepStart(path, s.wal, s.anchors.timeline, s.anchors.end, edges);
  }

  lemma {:induction false} LegsKeepStart(path: RecoveryPath, wal: ServerWal, current: U32, position: U64, edges: seq<HistoryEdge>)
    ensures var p := Legs(path, wal, current, position, edges);
            (p.backupId, p.startTimeline, p.startPosition, p.startWal) == (path.backupId, path.startTimeline, path.startPosition, path.startWal)
    decreases |edges|
  {
    hide ReachPosition, ContiguousFrontier, Histories.Holds, NameOr;
    if edges != [] {
      var walk := ReachPosition(wal.ranges, wal.gaps, current, position, edges[0].switchPosition);
      LegsKeepStart(AtFrontier(path, current, walk, wal.segmentSize), wal, edges[0].child, edges[0].switchPosition, edges[1..]);
    }
  }

  /** Anchors are positions that names were parsed from. */
  lemma AnchorsNamed(b: Backup)
    requires BackupRange(b).Some?
    ensures var a := BackupRange(b).value;
            && a.timeline != 0 && Nameable(a.begin, b.segmentSize) && Nameable(a.end, b.segmentSize) && |b.beginWal| == 24
  {
    hide Components, Nameable;
    ParsedNameable(b.beginWal, b.segmentSize);
    ParsedNameable(b.endWal, b.segmentSize);
  }

  lemma ParsedNameable(name: string, size: int)
    requires ParseWalName(name, size).Ok?
    ensures Nameable(ParseWalName(name, size).value.position, size)
  {
    var (timeline, log, segment) := Components(name);
    hide Components, Nameable;
    PositionIsNameable(timeline, log, segment, size);
  }

  /** The edges of an admitted history lead over named switch segments to real timelines. */
  lemma LeavingNamed(histories: seq<TimelineHistory>, known: ParentMap, s: Source, k: int, e: int)
    requires Coherent(histories, known, s.wal) && LateEdge(histories, s, k, e) && ValidSegmentSize(s.wal.segmentSize)
    ensures SwitchesNamed(Leaving(histories[k], s)[..e + 1], s.wal.segmentSize)
  {
    LeavingSwitches(histories, known, s, k, e);
    hide Coherent, LateEdge, Leaving, ValidSegmentSize, Nameable, SwitchesAscend, SegmentAt;
    var edges := Leaving(histories[k], s)[..e + 1];
    forall i | 0 <= i < |edges| ensures edges[i].child != 0 && Nameable(edges[i].switchPosition, s.wal.segmentSize) {
      SwitchIsNameable(edges[i].switchLsn, s.wal.segmentSize);
    }
  }

  /** The names a path carries are real ones. */
  ghost predicate PathNamed(p: RecoveryPath, b: Backup, size: int) {
    && p.backupId == b.id && FrontierNamed(p, size)
    && (if p.startTimeline == 0 then p.startWal == "" else p.startWal == b.beginWal != "")
  }

  lemma GenuineNamed(p: RecoveryPath, histories: seq<TimelineHistory>, known: ParentMap, s: Source)
    requires Genuine(p, histories, s) && Coherent(histories, known, s.wal) && EndsNamed(s.wal.ranges, s.wal.segmentSize)
    requires BackupRange(s.backup) == Some(s.anchors) && s.wal.segmentSize == s.backup.segmentSize
    ensures PathNamed(p, s.backup, s.wal.segmentSize)
  {
    AnchorsNamed(s.backup);
    AnchoredSize(s.backup);
    hide BackupRange, Leaving, Coherent, EndsNamed, Nameable, ValidSegmentSize, EvaluatePath, SwitchesNamed, BranchesEarly, FrontierNamed;
    if p == RecoveryPaths.Evaluated(s, s.anchors.timeline, []) {
      NoSwitches(s.wal.segmentSize);
      EvaluateNamed(s, s.anchors.timeline, []);
    } else {
      var k, e :| ReachedBy(histories, s, p.target, k, e) && p == RecoveryPaths.Evaluated(s, p.target, Leaving(histories[k], s)[..e + 1]);
      LeavingNamed(histories, known, s, k, e);
      EvaluateNamed(s, p.target, Leaving(histories[k], s)[..e + 1]);
    }
  }

  lemma NoSwitches(size: int)
    ensures SwitchesNamed([], size)
  {
  }

  lemma PathOfNamed(p: RecoveryPath, b: Backup, wal: ServerWal, histories: seq<TimelineHistory>, known: ParentMap)
    requires PathOf(p, b, wal, histories) && Coherent(histories, known, wal) && EndsNamed(wal.ranges, wal.segmentSize)
    ensures PathNamed(p, b, wal.segmentSize)
  {
    hide Genuine, Unconnected, BackupRange, Coherent, EndsNamed, Nameable, NameOr;
    var anchors := AnchorsFor(b, wal);
    if anchors.Some? && Genuine(p, histories, Source(b, anchors.value, wal)) {
      hide PathNamed;
      GenuineNamed(p, histories, known, Source(b, anchors.value, wal));
    }
  }

  /** Every path of a server names a healthy backup of it, and carries real names. */
  lemma AllNamed(paths: seq<RecoveryPath>, backups: seq<Backup>, wal: ServerWal, histories: seq<TimelineHistory>, known: ParentMap,
                 p: RecoveryPath)
    returns (i: int)
    requires AllPaths(paths, backups, wal, histories) && p in paths
    requires Coherent(histories, known, wal) && EndsNamed(wal.ranges, wal.segmentSize)
    ensures Usable(backups, i) && PathNamed(p, backups[i], wal.segmentSize)
  {
    hide Conflicting, PathOf, Expected, Capped, CutAt, Asked, CountHealthy, Coherent, EndsNamed, Nameable, NameOr;
    if Conflicting(backups) {
      i :| Usable(backups, i) && p == ConflictPath(backups[i]);
    } else {
      if NoCutBefore(backups, wal, histories, |backups|) {
        i :| Usable(backups, i) && PathOf(p, backups[i], wal, histories);
      } else {
        i := CappedPath(p, paths, backups, wal, histories);
      }
      if PathOf(p, backups[i], wal, histories) {
        PathOfNamed(p, backups[i], wal, histories, known);
      }
    }
  }

  lemma NamedIsPublic(timeline: U32, position: U64, size: int)
    requires timeline != 0 && Nameable(position, size)
    ensures NameOr(timeline, position, size) != "" && PublicName(NameOr(timeline, position, size))
  {
    NameableIffNamed(timeline, position, size);
    FormedName(timeline, position, size);
    hide WalName, Nameable;
  }

  /** So it is fit to publish once the first segment of its backup is spelled as the contract wants it. */
  lemma PathIsPublic(p: RecoveryPath, b: Backup, server: string, size: int)
    requires PathNamed(p, b, size) && PublicText(b.id, 256) && ValidPublicServer(server) && p.target != 0
    requires b.beginWal == "" || PublicName(b.beginWal)
    ensures ValidPublicPath(PathItem(p, server))
  {
    hide ValidPublicServer, PublicName, NameOr, Nameable, PublicText;
    if p.frontierTimeline != 0 {
      NamedIsPublic(p.frontierTimeline, p.frontierPosition, size);
    }
  }

  /** A strictly sorted list of paths stays sorted without those that have no target. */
  lemma {:induction false} PathItemsOrdered(paths: seq<RecoveryPath>, server: string)
    requires Sorting.StrictlySorted(PathBefore, paths)
    ensures Sorting.StrictlySorted(PathItemBefore, PathItems(paths, server))
    ensures forall item :: item in PathItems(paths, server) ==> exists p :: ItemOf(item, p, paths, server)
  {
    hide PathBefore, PathItemBefore, PathItem;
    if paths != [] {
      var n := |paths| - 1;
      var front, items := PathItems(paths[..n], server), PathItems(paths, server);
      PathItemsOrdered(paths[..n], server);
      forall item | item in items ensures exists p :: ItemOf(item, p, paths, server) {
        if item in front {
          var p :| ItemOf(item, p, paths[..n], server);
          assert ItemOf(item, p, paths, server);
        } else {
          assert ItemOf(item, paths[n], paths, server);
        }
      }
      forall k | 0 <= k < |front| && paths[n].target != 0 ensures PathItemBefore(front[k], PathItem(paths[n], server)) {
        assert front[k] in front;
        var p :| ItemOf(front[k], p, paths[..n], server);
        var m :| 0 <= m < n && paths[m] == p;
        ItemOrder(paths[m], paths[n], server);
      }
    }
  }

  ghost predicate ItemOf(item: PublicPath, p: RecoveryPath, paths: seq<RecoveryPath>, server: string) {
    p in paths && p.target != 0 && item == PathItem(p, server)
  }

  lemma ItemOrder(p: RecoveryPath, q: RecoveryPath, server: string)
    requires PathBefore(p, q)
    ensures PathItemBefore(PathItem(p, server), PathItem(q, server))
  {
  }

  // ---------------------------------------------------------------- backups

  /** A backup record as the contract wants it: bounded text, decimal identifier, upper-case names and LSNs, times in order. */
  predicate Presentable(b: Backup) {
    && PublicText(b.id, 256)
    && (b.systemId == "" || (PublicText(b.systemId, 64) && Decimal(b.systemId)))
    && (b.segmentSize > 0 ==> ValidSegmentSize(b.segmentSize))
    && (b.beginWal == "" || PublicName(b.beginWal)) && (b.endWal == "" || PublicName(b.endWal))
    && (b.endLsn == "" || PublicLsn(b.endLsn))
    && PresentableNotes(b.notes) && (b.notes.beginAt != 0 && b.endAt != 0 ==> b.notes.beginAt <= b.endAt)
  }

  predicate PresentableNotes(n: BackupNotes) {
    && BlankOrText(n.status) && BlankOrText(n.kind) && BlankOrText(n.compression) && BlankOrText(n.encryption)
    && (n.beginLsn == "" || PublicLsn(n.beginLsn))
  }

  predicate BlankOrText(s: string) {
    s == "" || PublicText(s, 64)
  }

  lemma NotesArePublicIff(n: BackupNotes)
    ensures ValidPublicNotes(NotesItem(n)) <==> PresentableNotes(n)
  {
    hide PublicLsn, PublicText;
    if PublicLsn(n.beginLsn) {
      LsnIsText(n.beginLsn);
    }
  }

  lemma NameIsText(name: string)
    requires PublicName(name)
    ensures PublicText(name, 64)
  {
    AsciiIsPublic(name, 64);
    hide PublicText;
  }

  lemma LsnIsText(s: string)
    requires PublicLsn(s)
    ensures PublicText(s, 32)
  {
    var k :| 0 <= k < |s| && s[k] == '/' && '/' !in s[..k] && 1 <= k <= 8 && 1 <= |s| - k - 1 <= 8 && UpperHex(s[..k]) && UpperHex(s[k + 1..]);
    forall i | 0 <= i < |s| ensures 0x20 <= s[i] as int < 0x7F {
      assert i < k ==> s[i] == s[..k][i];
      assert i > k ==> s[i] == s[k + 1..][i - k - 1];
    }
    AsciiIsPublic(s, 32);
    hide PublicText;
  }

  lemma NotesTime(n: BackupNotes)
    ensures NotesItem(n).beginAt == NonZero(n.beginAt)
  {
  }

  lemma BackupIsPublicIff(b: Backup, server: string)
    requires ValidPublicServer(server)
    ensures ValidPublicBackup(BackupItem(b, server)) <==> Presentable(b)
  {
    hide ValidPublicServer, PublicName, PublicLsn, Decimal, ValidSegmentSize, PublicText, ValidPublicNotes, PresentableNotes, NotesItem;
    NotesArePublicIff(b.notes);
    NotesTime(b.notes);
    if PublicName(b.beginWal) {
      NameIsText(b.beginWal);
    }
    if PublicName(b.endWal) {
      NameIsText(b.endWal);
    }
    if PublicLsn(b.endLsn) {
      LsnIsText(b.endLsn);
    }
  }

  lemma {:induction false} ItemsOfBackups(backups: seq<Backup>, server: string)
    ensures var share, items := BackupsFor(backups, server), BackupItems(backups, server);
            |items| == |share| && forall k :: 0 <= k < |items| ==> items[k] == BackupItem(share[k], server)
  {
    hide BackupItem;
    if backups != [] {
      ItemsOfBackups(backups[..|backups| - 1], server);
    }
  }

  lemma BackupOrder()
    ensures Sorting.StrictWeakOrder(BackupItemBefore)
  {
    forall a: PublicBackup, b: PublicBackup | BackupItemBefore(a, b) ensures !BackupItemBefore(b, a) {
      BackupOrderTwo(a, b);
    }
    forall a: PublicBackup, b: PublicBackup, c: PublicBackup | !BackupItemBefore(b, a) && !BackupItemBefore(c, b)
      ensures !BackupItemBefore(c, a)
    {
      BackupOrderThree(a, b, c);
    }
  }

  lemma BackupOrderTwo(a: PublicBackup, b: PublicBackup)
    requires BackupItemBefore(a, b)
    ensures !BackupItemBefore(b, a)
  {
    LessIrreflexive(a.backupId);
    if Less(a.backupId, b.backupId) {
      LessAsymmetric(a.backupId, b.backupId);
    } else {
      LessAsymmetric(a.server, b.server);
    }
  }

  lemma BackupOrderThree(a: PublicBackup, b: PublicBackup, c: PublicBackup)
    requires !BackupItemBefore(b, a) && !BackupItemBefore(c, b)
    ensures !BackupItemBefore(c, a)
  {
    hide Less;
    LessTotal(a.backupId, b.backupId);
    LessTotal(b.backupId, c.backupId);
    NotLessTransitive(a.backupId, b.backupId, c.backupId);
    if a.backupId == b.backupId == c.backupId {
      NotLessTransitive(a.server, b.server, c.server);
    } else if a.backupId == c.backupId {
      LessAsymmetric(a.backupId, b.backupId);
    }
  }

  lemma BackupsOrdered(backups: seq<Backup>, server: string)
    requires DistinctIds(BackupsFor(backups, server))
    ensures var items := Sorting.Sort(BackupItemBefore, BackupItems(backups, server));
            && Sorting.StrictlySorted(BackupItemBefore, items)
            && forall item :: item in items <==> item in BackupItems(backups, server)
  {
    BackupOrder();
    ItemsOfBackups(backups, server);
    hide BackupItems, BackupsFor;
    var share, items := BackupsFor(backups, server), BackupItems(backups, server);
    forall i, j | 0 <= i < j < |items| ensures BackupItemBefore(items[i], items[j]) || BackupItemBefore(items[j], items[i]) {
      LessTotal(share[i].id, share[j].id);
    }
    hide BackupItemBefore;
    Sorting.SortStrict(BackupItemBefore, items);
  }

  lemma StrictIsOrdered<T(!new)>(before: (T, T) -> bool, items: seq<T>)
    requires Sorting.StrictlySorted(before, items)
    ensures Publications.Ordered(before, items)
  {
  }

  /** The backups of a publication are in order, and valid exactly when each record is presentable. */
  lemma BackupsPublicIff(backups: seq<Backup>, server: string)
    requires DistinctIds(BackupsFor(backups, server)) && ValidPublicServer(server)
    requires forall b :: b in backups ==> b.server == server
    ensures var items := Sorting.Sort(BackupItemBefore, BackupItems(backups, server));
            && Publications.Ordered(BackupItemBefore, items)
            && ((forall k :: 0 <= k < |items| ==> ValidPublicBackup(items[k])) <==> forall b :: b in backups ==> Presentable(b))
  {
    hide Sorting.Sort, BackupItemBefore, ValidPublicBackup, Presentable, BackupItem, DistinctIds, BackupItems, BackupsFor, Sorting.StrictlySorted;
    var items, raw, share := Sorting.Sort(BackupItemBefore, BackupItems(backups, server)), BackupItems(backups, server), BackupsFor(backups, server);
    BackupsOrdered(backups, server);
    StrictIsOrdered(BackupItemBefore, items);
    ItemsOfBackups(backups, server);
    BackupsForMembers(backups, server);
    if forall b :: b in backups ==> Presentable(b) {
      forall k | 0 <= k < |items| ensures ValidPublicBackup(items[k]) {
        assert items[k] in raw;
        var j :| 0 <= j < |raw| && raw[j] == items[k];
        assert share[j] in share;
        BackupIsPublicIff(share[j], server);
      }
    }
    if forall k :: 0 <= k < |items| ==> ValidPublicBackup(items[k]) {
      forall b | b in backups ensures Presentable(b) {
        assert b in share;
        var j :| 0 <= j < |share| && share[j] == b;
        assert raw[j] in raw && raw[j] in items;
        var k :| 0 <= k < |items| && items[k] == raw[j];
        BackupIsPublicIff(b, server);
      }
    }
  }

  // ---------------------------------------------------------------- the summary

  lemma {:induction false} StatesAddUp(items: seq<PublicBackup>)
    ensures var c := CountsOf(items); c.healthy + c.warning + c.unhealthy + c.unknown == |items|
  {
    if items != [] {
      StatesAddUp(items[..|items| - 1]);
      match items[|items| - 1].state {
        case Healthy =>
        case Warning =>
        case Unhealthy =>
        case Unknown =>
      }
    }
  }

  /** Strictly ascending numbers among which are the first `n` start with these. */
  lemma {:induction false} AscendingFill(ranks: seq<int>, n: nat)
    requires forall i, j :: 0 <= i < j < |ranks| ==> ranks[i] < ranks[j]
    requires forall k :: 0 <= k < |ranks| ==> ranks[k] >= 0
    requires forall v :: 0 <= v < n ==> v in ranks
    ensures n <= |ranks| && forall k :: 0 <= k < n ==> ranks[k] == k
  {
    if n > 0 {
      AscendingFill(ranks, n - 1);
      assert n - 1 in ranks;
      var m :| 0 <= m < |ranks| && ranks[m] == n - 1;
      assert n >= 2 ==> ranks[n - 2] == n - 2;
    }
  }

  function IdOfRank(rank: nat): (id: CapabilityId)
    requires rank < 9
    ensures Rank(id) == rank
  {
    match rank
    case 0 => CatalogListing
    case 1 => DependencyValidation
    case 2 => EncryptedMetadata
    case 3 => ObjectInventory
    case 4 => RecoveryCoverage
    case 5 => RetentionExpectation
    case 6 => StructuralValidation
    case 7 => TimelineTraversal
    case _ => WalContinuity
  }

  ghost predicate Offers(list: seq<Capability>, id: CapabilityId) {
    exists c :: c in list && c.id == id
  }

  /** Distinct capabilities that leave out none, no state without support. */
  ghost predicate AllNine(list: seq<Capability>) {
    && (forall i, j :: 0 <= i < j < |list| ==> list[i].id != list[j].id)
    && (forall c :: c in list ==> (c.support != Supported ==> c.state == Evidence.Unknown))
    && (forall id: CapabilityId :: Offers(list, id))
  }

  lemma RankInjective(a: CapabilityId, b: CapabilityId)
    ensures Rank(a) == Rank(b) ==> a == b
    ensures 0 <= Rank(a) < 9
  {
  }

  lemma SortedNine(list: seq<Capability>)
    requires AllNine(list)
    ensures var sorted := Sorting.Sort(CapabilityBefore, list);
            && Sorting.StrictlySorted(CapabilityBefore, sorted)
            && (forall c :: c in sorted <==> c in list)
  {
    hide Rank, Sorting.Sort;
    CapabilityBeforeIsOrder();
    forall i, j | 0 <= i < j < |list| ensures CapabilityBefore(list[i], list[j]) || CapabilityBefore(list[j], list[i]) {
      RankInjective(list[i].id, list[j].id);
    }
    Sorting.SortStrict(CapabilityBefore, list);
  }

  lemma NineAreComplete(list: seq<Capability>)
    requires AllNine(list)
    ensures CompleteCapabilities(Sorting.Sort(CapabilityBefore, list))
  {
    hide Rank, Sorting.Sort, IdOfRank;
    SortedNine(list);
    var sorted := Sorting.Sort(CapabilityBefore, list);
    var ranks := seq(|sorted|, k requires 0 <= k < |sorted| => Rank(sorted[k].id));
    forall i, j | 0 <= i < j < |ranks| ensures ranks[i] < ranks[j] {
      assert CapabilityBefore(sorted[i], sorted[j]);
    }
    forall k | 0 <= k < |ranks| ensures 0 <= ranks[k] < 9 {
      RankInjective(sorted[k].id, sorted[k].id);
    }
    forall v | 0 <= v < 9 ensures v in ranks {
      assert Offers(list, IdOfRank(v));
      var c :| c in list && c.id == IdOfRank(v);
      assert c in sorted;
      var k :| 0 <= k < |sorted| && sorted[k] == c;
      assert ranks[k] == v;
    }
    AscendingFill(ranks, 9);
    NoMoreThanNine(ranks);
    forall k | 0 <= k < 9 ensures Rank(sorted[k].id) == k && (sorted[k].support != Supported ==> sorted[k].state == Evidence.Unknown) {
      assert ranks[k] == k && sorted[k] in sorted;
    }
  }

  lemma {:induction false} AscendingGrow(ranks: seq<int>, k: nat)
    requires k < |ranks| && forall i, j :: 0 <= i < j < |ranks| ==> ranks[i] < ranks[j]
    requires forall i :: 0 <= i < |ranks| ==> ranks[i] >= 0
    ensures ranks[k] >= k
  {
    if k > 0 {
      AscendingGrow(ranks, k - 1);
      assert ranks[k - 1] < ranks[k];
    }
  }

  lemma NoMoreThanNine(ranks: seq<int>)
    requires forall i, j :: 0 <= i < j < |ranks| ==> ranks[i] < ranks[j]
    requires forall k :: 0 <= k < |ranks| ==> 0 <= ranks[k] < 9
    ensures |ranks| <= 9
  {
    if |ranks| > 9 {
      AscendingGrow(ranks, 9);
    }
  }
}
