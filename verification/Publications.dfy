// Projecting one inventory snapshot into a publication (internal/evidenceapi/projection.go).
module Publications {
  import opened Results
  import opened WalCatalog
  import opened WalRanges
  import opened WalGaps
  import opened PathCoverage
  import opened RecoveryCatalogs
  import opened Inventory
  import opened EvidenceContract
  import opened Backups
  import Evidence
  import Sorting

  datatype Publication = Publication(
    snapshot: PublicSnapshot, backups: seq<PublicBackup>, ranges: seq<PublicRange>, gaps: seq<PublicGap>, paths: seq<PublicPath>)

  /** The identity the operator resolved: its one server, and whether the rest of it is a valid profile. */
  datatype ProjectOptions = ProjectOptions(server: string, format: string, valid: bool)

  /** `CanonicalS3FingerprintInput` on the name of the server; the rest of the identity is one flag. */
  predicate ValidOptions(o: ProjectOptions) {
    o.valid && ValidPublicServer(o.server)
  }

  // ---------------------------------------------------------------- values

  function NonZero(value: int): Option<int> {
    if value == 0 then None else Some(value)
  }

  function Positive(value: int): Option<int> {
    if value <= 0 then None else Some(value)
  }

  function NonEmpty(value: string): Option<string> {
    if value == "" then None else Some(value)
  }

  function PositionOn(timeline: U32, position: U64): Option<int> {
    if timeline == 0 then None else Some(position)
  }

  function NotesItem(n: BackupNotes): PublicNotes {
    PublicNotes(NonEmpty(n.status), NonEmpty(n.kind), NonEmpty(n.beginLsn), NonZero(n.beginAt), NonEmpty(n.compression),
                NonEmpty(n.encryption))
  }

  function BackupItem(b: Backup, server: string): PublicBackup {
    PublicBackup(server, b.id, b.state, NonEmpty(b.systemId), Positive(b.postgresVersion), NonZero(b.timeline),
                 Positive(b.segmentSize), NonEmpty(b.beginWal), NonEmpty(b.endWal), NonEmpty(b.endLsn), NonZero(b.endAt),
                 NotesItem(b.notes))
  }

  function RangeItem(r: WalRange, server: string): PublicRange {
    PublicRange(server, r.timeline, r.start, r.end, r.count, r.first, r.last, NonZero(r.latestReceipt), NonZero(r.endReceipt))
  }

  function GapItem(g: WalGap, server: string): PublicGap {
    PublicGap(server, g.timeline, g.start, g.end, g.count, g.first, g.last, g.status, g.firstObserved, g.lastObserved)
  }

  function PathItem(p: RecoveryPath, server: string): PublicPath {
    PublicPath(server, p.backupId, p.target, p.state, p.stop, NonZero(p.lowerBound),
               NonZero(p.startTimeline), PositionOn(p.startTimeline, p.startPosition), NonEmpty(p.startWal),
               NonZero(p.frontierTimeline), PositionOn(p.frontierTimeline, p.frontierPosition), NonEmpty(p.frontierWal),
               NonZero(p.frontierReceipt))
  }

  // ---------------------------------------------------------------- collections

  function BackupItems(backups: seq<Backup>, server: string): seq<PublicBackup> {
    if backups == [] then []
    else
      var front, last := BackupItems(backups[..|backups| - 1], server), backups[|backups| - 1];
      if last.server == server then front + [BackupItem(last, server)] else front
  }

  function RangeItems(ranges: seq<WalRange>, server: string): (r: seq<PublicRange>)
    ensures |r| == |ranges| && forall k :: 0 <= k < |r| ==> r[k] == RangeItem(ranges[k], server)
  {
    if ranges == [] then [] else RangeItems(ranges[..|ranges| - 1], server) + [RangeItem(ranges[|ranges| - 1], server)]
  }

  function GapItems(gaps: seq<WalGap>, server: string): (r: seq<PublicGap>)
    ensures |r| == |gaps| && forall k :: 0 <= k < |r| ==> r[k] == GapItem(gaps[k], server)
  {
    if gaps == [] then [] else GapItems(gaps[..|gaps| - 1], server) + [GapItem(gaps[|gaps| - 1], server)]
  }

  /** A path without a target, such as one for unusable anchors, has no place in the public collection. */
  function PathItems(paths: seq<RecoveryPath>, server: string): seq<PublicPath> {
    if paths == [] then []
    else
      var front, last := PathItems(paths[..|paths| - 1], server), paths[|paths| - 1];
      if last.target != 0 then front + [PathItem(last, server)] else front
  }

  method ProjectBackups(backups: seq<Backup>, server: string) returns (result: seq<PublicBackup>)
    ensures result == Sorting.Sort(BackupItemBefore, BackupItems(backups, server))
  {
    result := [];
    for k := 0 to |backups|
      invariant result == BackupItems(backups[..k], server)
    {
      assert backups[..k + 1][..k] == backups[..k];
      if backups[k].server != server {
        continue;
      }
      result := result + [BackupItem(backups[k], server)];
    }
    assert backups[..|backups|] == backups;
    result := Sorting.Sort(BackupItemBefore, result);
  }

  method ProjectWal(selected: ServerWal, server: string) returns (ranges: seq<PublicRange>, gaps: seq<PublicGap>)
    ensures ranges == RangeItems(selected.ranges, server) && gaps == GapItems(selected.gaps, server)
  {
    ranges, gaps := [], [];
    for k := 0 to |selected.ranges|
      invariant ranges == RangeItems(selected.ranges[..k], server)
    {
      assert selected.ranges[..k + 1][..k] == selected.ranges[..k];
      ranges := ranges + [RangeItem(selected.ranges[k], server)];
    }
    for k := 0 to |selected.gaps|
      invariant gaps == GapItems(selected.gaps[..k], server)
    {
      assert selected.gaps[..k + 1][..k] == selected.gaps[..k];
      gaps := gaps + [GapItem(selected.gaps[k], server)];
    }
    assert selected.ranges[..|selected.ranges|] == selected.ranges && selected.gaps[..|selected.gaps|] == selected.gaps;
  }

  method ProjectPaths(paths: seq<RecoveryPath>, server: string) returns (result: seq<PublicPath>)
    ensures result == PathItems(paths, server)
  {
    result := [];
    for k := 0 to |paths|
      invariant result == PathItems(paths[..k], server)
    {
      assert paths[..k + 1][..k] == paths[..k];
      if paths[k].target == 0 {
        continue;
      }
      result := result + [PathItem(paths[k], server)];
    }
    assert paths[..|paths|] == paths;
  }

  function CountState(items: seq<PublicBackup>, state: Evidence.State): nat {
    if items == [] then 0 else CountState(items[..|items| - 1], state) + if items[|items| - 1].state == state then 1 else 0
  }

  function CountsOf(items: seq<PublicBackup>): StateCounts {
    StateCounts(CountState(items, Evidence.Healthy), CountState(items, Evidence.Warning), CountState(items, Evidence.Unhealthy),
                CountState(items, Evidence.Unknown))
  }

  /** `backupCounts`; every backup is counted in exactly one state. */
  method BackupCounts(items: seq<PublicBackup>) returns (counts: StateCounts, usable: nat)
    ensures counts == CountsOf(items) && usable == counts.healthy
    ensures counts.healthy + counts.warning + counts.unhealthy + counts.unknown == |items|
  {
    counts, usable := StateCounts(0, 0, 0, 0), 0;
    for k := 0 to |items|
      invariant counts == CountsOf(items[..k]) && usable == counts.healthy
      invariant counts.healthy + counts.warning + counts.unhealthy + counts.unknown == k
    {
      assert items[..k + 1][..k] == items[..k];
      match items[k].state {
        case Healthy =>
          counts := counts.(healthy := counts.healthy + 1);
          usable := usable + 1;
        case Warning => counts := counts.(warning := counts.warning + 1);
        case Unhealthy => counts := counts.(unhealthy := counts.unhealthy + 1);
        case Unknown => counts := counts.(unknown := counts.unknown + 1);
      }
    }
    assert items[..|items|] == items;
  }

  // ---------------------------------------------------------------- the summary

  /** `recoveryServer`. */
  function RecoveryOf(recovery: RecoveryCatalog, server: string): Recovery
    decreases |recovery.servers|
  {
    if recovery.servers == [] then
      Recovery(server, Evidence.Unknown, Evidence.Unknown, [], [], Retention(0, 0, 0, 0, false, 0, false, Evidence.Unknown))
    else if recovery.servers[0].server == server then recovery.servers[0]
    else RecoveryOf(RecoveryCatalog(recovery.servers[1..]), server)
  }

  function RetentionDetails(r: Retention): PublicRetention {
    PublicRetention(r.state, NonZero(r.oldest), NonZero(r.newest), r.minimumConfigured, if r.minimumConfigured then Some(r.minimum) else None)
  }

  function GenerationOf(s: Snapshot, backups: seq<PublicBackup>, ranges: seq<PublicRange>, gaps: seq<PublicGap>,
                        paths: seq<PublicPath>): Option<GenerationCounts>
  {
    if s.totalsKnown
    then Some(GenerationCounts(|backups|, |ranges|, |gaps|, |paths|, CountState(backups, Evidence.Healthy), CountsOf(backups)))
    else None
  }

  function DetailsOf(s: Snapshot, server: string, counts: Option<GenerationCounts>): Summary {
    var wal, recovery := WalFor(s.wal, server), RecoveryOf(s.recovery, server);
    Summary(counts, wal.state, recovery.timelines, recovery.coverage, RetentionDetails(recovery.retention),
            NonZero(wal.latestArchiveReceipt), wal.rangesTruncated, wal.diagnosticsTruncated)
  }

  function SnapshotOf(s: Snapshot, server: string, counts: Option<GenerationCounts>): PublicSnapshot
    requires s.objectCount >= 0 && s.storedBytes >= 0 && s.unscoped >= 0
  {
    PublicSnapshot(
      s.refreshGeneration, if s.totalsKnown then s.evidence.generation else 0,
      if s.totalsKnown then NonZero(s.evidence.startedAt) else None,
      if s.totalsKnown then NonZero(s.evidence.completedAt) else None,
      NonZero(s.lastAttemptAt), s.evidence.completeness, s.evidence.stale || s.refreshFailure.Some?, s.evidence.state,
      Sorting.Sort(CapabilityBefore, s.evidence.capabilities), s.totalsKnown,
      if s.totalsKnown then Some(InventoryTotals(s.objectCount, s.storedBytes, s.unscoped)) else None,
      s.refreshFailure, DetailsOf(s, server, counts))
  }

  // ---------------------------------------------------------------- validation and projection

  ghost predicate Ordered<T(!new)>(before: (T, T) -> bool, items: seq<T>) {
    forall i, j :: 0 <= i < j < |items| && j == i + 1 ==> before(items[i], items[j])
  }

  /** `Publication.Validate`. */
  ghost predicate ValidPublication(p: Publication) {
    && ValidPublicSnapshot(p.snapshot)
    && (forall k :: 0 <= k < |p.backups| ==> ValidPublicBackup(p.backups[k])) && Ordered(BackupItemBefore, p.backups)
    && (forall k :: 0 <= k < |p.ranges| ==> ValidPublicRange(p.ranges[k])) && Ordered(RangeItemBefore, p.ranges)
    && (forall k :: 0 <= k < |p.gaps| ==> ValidPublicGap(p.gaps[k])) && Ordered(GapItemBefore, p.gaps)
    && (forall k :: 0 <= k < |p.paths| ==> ValidPublicPath(p.paths[k])) && Ordered(PathItemBefore, p.paths)
    && (p.snapshot.completeness == Complete ==>
          p.snapshot.details.counts.Some?
          && var c := p.snapshot.details.counts.value;
             (c.backups, c.ranges, c.gaps, c.paths) == (|p.backups|, |p.ranges|, |p.gaps|, |p.paths|))
  }

  /** The source carries evidence of the one configured server only, and none without totals. */
  predicate Confined(s: Snapshot, server: string) {
    && (s.totalsKnown ==> |s.scopes| == 1 && s.scopes[0].name == server)
    && (!s.totalsKnown ==> s.backups == [] && s.wal.servers == [] && s.recovery.servers == [])
    && (forall k :: 0 <= k < |s.backups| ==>
          s.backups[k].server == server && s.backups[k].postgresVersion >= 0 && s.backups[k].segmentSize >= 0)
    && (forall k :: 0 <= k < |s.wal.servers| ==> s.wal.servers[k].server == server)
    && (forall k :: 0 <= k < |s.recovery.servers| ==> s.recovery.servers[k].server == server)
  }

  ghost function Assembled(s: Snapshot, server: string): Publication
    requires s.objectCount >= 0 && s.storedBytes >= 0 && s.unscoped >= 0
  {
    var backups := Sorting.Sort(BackupItemBefore, BackupItems(s.backups, server));
    var ranges, gaps := RangeItems(WalFor(s.wal, server).ranges, server), GapItems(WalFor(s.wal, server).gaps, server);
    var paths := PathItems(RecoveryOf(s.recovery, server).paths, server);
    Publication(SnapshotOf(s, server, GenerationOf(s, backups, ranges, gaps, paths)), backups, ranges, gaps, paths)
  }

  lemma ValidCounters(s: Snapshot)
    requires ValidSnapshot(s)
    ensures s.objectCount >= 0 && s.storedBytes >= 0 && s.unscoped >= 0
  {
    hide ValidListing, ValidScopes, ValidEnvelope;
  }

  /** `Project`: a function of the snapshot and the fixed options alone. */
  ghost function Project(s: Snapshot, o: ProjectOptions): Option<Publication> {
    if !ValidSnapshot(s) || !ValidOptions(o) || o.format != s.evidence.format || s.evidence.scopeKind != "server" || !Confined(s, o.server)
    then None
    else
      ValidCounters(s);
      var p := Assembled(s, o.server);
      if ValidPublication(p) then Some(p) else None
  }

  method IsOrdered<T(!new)>(before: (T, T) -> bool, items: seq<T>) returns (ordered: bool)
    ensures ordered <==> Ordered(before, items)
  {
    var index := 1;
    while index < |items|
      invariant forall i, j :: 0 <= i < j < index && j < |items| && j == i + 1 ==> before(items[i], items[j])
    {
      if !before(items[index - 1], items[index]) {
        return false;
      }
      index := index + 1;
    }
    return true;
  }

  method ValidatePublication(p: Publication) returns (valid: bool)
    ensures valid <==> ValidPublication(p)
  {
    hide ValidPublicSnapshot, ValidPublicBackup, ValidPublicRange, ValidPublicGap, ValidPublicPath, Ordered;
    var backups := IsOrdered(BackupItemBefore, p.backups);
    var ranges := IsOrdered(RangeItemBefore, p.ranges);
    var gaps := IsOrdered(GapItemBefore, p.gaps);
    var paths := IsOrdered(PathItemBefore, p.paths);
    var counts := p.snapshot.details.counts;
    valid := ValidPublicSnapshot(p.snapshot) && backups && ranges && gaps && paths
             && (forall k :: 0 <= k < |p.backups| ==> ValidPublicBackup(p.backups[k]))
             && (forall k :: 0 <= k < |p.ranges| ==> ValidPublicRange(p.ranges[k]))
             && (forall k :: 0 <= k < |p.gaps| ==> ValidPublicGap(p.gaps[k]))
             && (forall k :: 0 <= k < |p.paths| ==> ValidPublicPath(p.paths[k]))
             && (p.snapshot.completeness == Complete ==>
                   counts.Some?
                   && (counts.value.backups, counts.value.ranges, counts.value.gaps, counts.value.paths)
                      == (|p.backups|, |p.ranges|, |p.gaps|, |p.paths|));
  }

  method ProjectSnapshot(s: Snapshot, o: ProjectOptions) returns (r: Option<Publication>)
    ensures r == Project(s, o)
  {
    hide ValidSnapshot, ValidPublication, Confined, DetailsOf, CountsOf, BackupItems, RangeItems, GapItems, PathItems, Sorting.Sort;
    var valid := Validate(s);
    if !valid || !ValidOptions(o) || o.format != s.evidence.format || s.evidence.scopeKind != "server" || !Confined(s, o.server) {
      return None;
    }
    ValidCounters(s);
    var backups := ProjectBackups(s.backups, o.server);
    var ranges, gaps := ProjectWal(WalFor(s.wal, o.server), o.server);
    var paths := ProjectPaths(RecoveryOf(s.recovery, o.server).paths, o.server);
    var counts := None;
    if s.totalsKnown {
      var states, usable := BackupCounts(backups);
      counts := Some(GenerationCounts(|backups|, |ranges|, |gaps|, |paths|, usable, states));
      UsableIsHealthy(backups);
    }
    var p := Publication(SnapshotOf(s, o.server, counts), backups, ranges, gaps, paths);
    var accepted := ValidatePublication(p);
    return if accepted then Some(p) else None;
  }

  lemma UsableIsHealthy(items: seq<PublicBackup>)
    ensures CountsOf(items).healthy == CountState(items, Evidence.Healthy)
  {
  }

  /** What is published is bound to the revision and state of its source, and is never healthier than it. */
  lemma ProjectionIsFaithful(s: Snapshot, o: ProjectOptions)
    requires Project(s, o).Some?
    ensures var p := Project(s, o).value;
            && ValidSnapshot(s) && ValidPublication(p)
            && p.snapshot.revision == s.refreshGeneration && p.snapshot.state == s.evidence.state
            && (p.snapshot.state == Evidence.Healthy ==>
                  s.totalsKnown && !s.evidence.stale && s.refreshFailure.None? && s.evidence.generation > 0)
            && (s.totalsKnown <==> p.snapshot.known)
  {
    hide ValidSnapshot, Confined, DetailsOf, CountsOf, BackupItems, RangeItems, GapItems, PathItems, Sorting.Sort;
    ValidCounters(s);
  }

  // ---------------------------------------------------------------- nothing is lost or mixed up

  function Given(value: Option<int>): int {
    if value.Some? then value.value else 0
  }

  function GivenText(value: Option<string>): string {
    if value.Some? then value.value else ""
  }

  /** Reads a public range, gap or path back into what the pipeline computed. */
  function ReadRange(r: PublicRange): Option<WalRange> {
    if r.timeline > MAX_UINT32 then None
    else Some(WalRange(r.timeline, r.start, r.end, r.count, r.first, r.last, Given(r.latestReceipt), Given(r.endReceipt)))
  }

  function ReadGap(g: PublicGap): Option<WalGap> {
    if g.timeline > MAX_UINT32 then None
    else Some(WalGap(g.timeline, g.start, g.end, g.count, g.first, g.last, g.status, g.firstObserved, g.lastObserved))
  }

  /** The public ranges and gaps determine those of the server, one for one and in order. */
  lemma WalSurvives(selected: ServerWal, server: string)
    ensures var ranges, gaps := RangeItems(selected.ranges, server), GapItems(selected.gaps, server);
            && |ranges| == |selected.ranges| && |gaps| == |selected.gaps|
            && (forall k :: 0 <= k < |ranges| ==> ranges[k].server == server && ReadRange(ranges[k]) == Some(selected.ranges[k]))
            && (forall k :: 0 <= k < |gaps| ==> gaps[k].server == server && ReadGap(gaps[k]) == Some(selected.gaps[k]))
  {
  }

  /** What a public path still says of the one it stands for: everything but the reason. */
  predicate StandsFor(item: PublicPath, p: RecoveryPath) {
    && (item.backupId, item.target, item.state, item.stop, Given(item.lowerBound))
       == (p.backupId, p.target, p.state, p.stop, p.lowerBound)
    && (Given(item.startTimeline), GivenText(item.startWal)) == (p.startTimeline, p.startWal)
    && (Given(item.frontierTimeline), GivenText(item.frontierWal), Given(item.frontierReceipt))
       == (p.frontierTimeline, p.frontierWal, p.frontierReceipt)
    && (p.startTimeline != 0 ==> item.startPosition == Some(p.startPosition))
    && (p.frontierTimeline != 0 ==> item.frontierPosition == Some(p.frontierPosition))
  }

  /** Some public path stands for this one. */
  ghost predicate Shown(items: seq<PublicPath>, p: RecoveryPath) {
    exists item :: item in items && StandsFor(item, p)
  }

  /** The public path stands for one of these. */
  ghost predicate Stands(item: PublicPath, paths: seq<RecoveryPath>, server: string) {
    item.server == server && item.target != 0 && exists p :: p in paths && StandsFor(item, p)
  }

  lemma ShownMore(items: seq<PublicPath>, more: seq<PublicPath>, p: RecoveryPath)
    requires Shown(items, p) && forall item :: item in items ==> item in more
    ensures Shown(more, p)
  {
    hide StandsFor;
  }

  lemma StandsMore(item: PublicPath, paths: seq<RecoveryPath>, more: seq<RecoveryPath>, server: string)
    requires Stands(item, paths, server) && forall p :: p in paths ==> p in more
    ensures Stands(item, more, server)
  {
    hide StandsFor;
  }

  lemma ItemStands(p: RecoveryPath, server: string)
    ensures StandsFor(PathItem(p, server), p) && PathItem(p, server).server == server && PathItem(p, server).target == p.target
  {
  }

  /** Exactly the paths with a target are published, each as itself. */
  lemma {:induction false} PathsSurvive(paths: seq<RecoveryPath>, server: string)
    ensures forall p :: p in paths && p.target != 0 ==> Shown(PathItems(paths, server), p)
    ensures forall item :: item in PathItems(paths, server) ==> Stands(item, paths, server)
  {
    hide StandsFor, PathItem;
    if paths != [] {
      var n := |paths| - 1;
      var last, items := paths[n], PathItems(paths, server);
      PathsSurvive(paths[..n], server);
      ItemStands(last, server);
      assert paths == paths[..n] + [last];
      assert last.target != 0 ==> PathItem(last, server) in items;
      forall p | p in paths && p.target != 0 ensures Shown(items, p) {
        if p in paths[..n] {
          ShownMore(PathItems(paths[..n], server), items, p);
        }
      }
      forall item | item in items ensures Stands(item, paths, server) {
        if item in PathItems(paths[..n], server) {
          StandsMore(item, paths[..n], paths, server);
        }
      }
    }
  }

  /**
   * What is published can be read back into what the pipeline computed for the server: its ranges and gaps one for one
   * and in order, every path with a target, and nothing else.
   */
  lemma ProjectionSurvives(s: Snapshot, o: ProjectOptions)
    requires Project(s, o).Some?
    ensures var p, w := Project(s, o).value, WalFor(s.wal, o.server);
            && |p.ranges| == |w.ranges| && |p.gaps| == |w.gaps|
            && (forall k :: 0 <= k < |p.ranges| ==> ReadRange(p.ranges[k]) == Some(w.ranges[k]))
            && (forall k :: 0 <= k < |p.gaps| ==> ReadGap(p.gaps[k]) == Some(w.gaps[k]))
    ensures var p, paths := Project(s, o).value, RecoveryOf(s.recovery, o.server).paths;
            && (forall q :: q in paths && q.target != 0 ==> Shown(p.paths, q))
            && (forall item :: item in p.paths ==> Stands(item, paths, o.server))
  {
    hide ValidSnapshot, ValidPublication, Confined, SnapshotOf, BackupItems, RangeItems, GapItems, PathItems, ReadRange, ReadGap, Shown, Stands,
         RecoveryOf, WalFor, Sorting.Sort;
    ValidCounters(s);
    WalSurvives(WalFor(s.wal, o.server), o.server);
    PathsSurvive(RecoveryOf(s.recovery, o.server).paths, o.server);
  }
}
