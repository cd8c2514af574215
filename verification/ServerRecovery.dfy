// The recovery paths of a whole server (recovery.go, recoveryPaths and coverageRollup).
module ServerRecovery {
  import opened Results
  import opened Text
  import opened WalCatalog
  import opened Timelines
  import opened Ancestries
  import opened Histories
  import opened PathCoverage
  import opened RecoveryPaths
  import opened Backups
  import Evidence
  import Sorting

  // ---------------------------------------------------------------- what sound histories add

  /** The histories agree with one parent map, as those of `AnalyzeHistories` do. */
  ghost predicate Coherent(histories: seq<TimelineHistory>, known: ParentMap, wal: ServerWal) {
    forall k :: 0 <= k < |histories| ==> Sound(histories[k], known, wal)
  }

  lemma RecordedPrefix(edges: seq<HistoryEdge>, known: ParentMap, start: U32, k: nat)
    requires Recorded(edges, known) && k < |Descendants(edges, start)|
    ensures Recorded(Descendants(edges, start)[..k + 1], known)
  {
    DescendantsSuffix(edges, start);
    hide Descendants;
  }

  /** An edge that leaves the backup's timeline ends a recorded path from there to its child. */
  lemma LeavingPath(histories: seq<TimelineHistory>, known: ParentMap, s: Source, k: int, e: int)
    requires Coherent(histories, known, s.wal)
    requires 0 <= k < |histories| && 0 <= e < |Leaving(histories[k], s)|
    ensures var edges := Leaving(histories[k], s);
            Path(edges[..e + 1], s.anchors.timeline, edges[e].child) && Recorded(edges[..e + 1], known)
            && edges[e].child > s.anchors.timeline
  {
    hide Chained, SwitchesPlaced, Recorded, ChildRangesAgree, Descendants;
    var h := histories[k];
    DescendantsPath(h.edges, h.timeline, s.anchors.timeline, e);
    RecordedPrefix(h.edges, known, s.anchors.timeline, e);
    PathClimbs(Leaving(h, s)[..e + 1], s.anchors.timeline, Leaving(h, s)[e].child);
  }

  lemma PathClimbs(edges: seq<HistoryEdge>, start: U32, target: U32)
    requires Path(edges, start, target)
    ensures start < target
  {
    assert |edges| > 1 ==> edges[0].child <= edges[|edges| - 1].parent;
  }

  /** Two healthy histories that connect the backup to the same timeline give the identical edges. */
  lemma SameEdges(histories: seq<TimelineHistory>, known: ParentMap, s: Source, j: int, d: int, k: int, e: int)
    requires Coherent(histories, known, s.wal)
    requires 0 <= j < |histories| && 0 <= d < |Leaving(histories[j], s)|
    requires 0 <= k < |histories| && 0 <= e < |Leaving(histories[k], s)|
    requires Leaving(histories[j], s)[d].child == Leaving(histories[k], s)[e].child
    ensures Leaving(histories[j], s)[..d + 1] == Leaving(histories[k], s)[..e + 1]
    ensures BranchesEarly(histories[j], s) <==> BranchesEarly(histories[k], s)
  {
    LeavingPath(histories, known, s, j, d);
    LeavingPath(histories, known, s, k, e);
    hide Leaving, Coherent, Path, Recorded, BranchBeforeBackup;
    var a, b := Leaving(histories[j], s), Leaving(histories[k], s);
    PathUnique(a[..d + 1], b[..e + 1], known, s.anchors.timeline, a[d].child);
    assert a[0] == a[..d + 1][0] == b[..e + 1][0] == b[0];
  }

  /** So no target is both evaluated and passed over, and every one lies above the backup's own timeline. */
  lemma ReachedExcludesSkipped(histories: seq<TimelineHistory>, known: ParentMap, s: Source, target: U32)
    requires Coherent(histories, known, s.wal)
    ensures !(Reached(histories, s, target) && Skipped(histories, s, target))
    ensures Reached(histories, s, target) || Skipped(histories, s, target) ==> target > s.anchors.timeline
  {
    hide Leaving, Coherent, BranchesEarly;
    if Reached(histories, s, target) {
      var k, e :| ReachedBy(histories, s, target, k, e);
      LeavingPath(histories, known, s, k, e);
    }
    if Skipped(histories, s, target) {
      var j, d :| SkippedBy(histories, s, target, j, d);
      LeavingPath(histories, known, s, j, d);
      if Reached(histories, s, target) {
        var k, e :| ReachedBy(histories, s, target, k, e);
        SameEdges(histories, known, s, j, d, k, e);
      }
    }
  }

  /** The shortcut through already seen targets loses nothing: a target has only one genuine path. */
  lemma GenuineUnique(histories: seq<TimelineHistory>, known: ParentMap, s: Source, p: RecoveryPath, q: RecoveryPath)
    requires Coherent(histories, known, s.wal)
    requires Genuine(p, histories, s) && Genuine(q, histories, s) && p.target == q.target
    ensures p == q
  {
    hide Leaving, Coherent, BranchesEarly, EvaluatePath;
    var own := Evaluated(s, s.anchors.timeline, []);
    EvaluateKeepsTarget(s.backup, s.wal, s.anchors.timeline, s.anchors.begin, s.anchors.end, s.anchors.timeline, []);
    ReachedExcludesSkipped(histories, known, s, p.target);
    if p != own && q != own {
      var j, d :| ReachedBy(histories, s, p.target, j, d) && p == Evaluated(s, p.target, Leaving(histories[j], s)[..d + 1]);
      var k, e :| ReachedBy(histories, s, q.target, k, e) && q == Evaluated(s, q.target, Leaving(histories[k], s)[..e + 1]);
      SameEdges(histories, known, s, j, d, k, e);
    }
  }

  ghost predicate TargetOnce(paths: seq<RecoveryPath>, target: U32) {
    exists k :: OnlyAt(paths, target, k)
  }

  ghost predicate OnlyAt(paths: seq<RecoveryPath>, target: U32, k: int) {
    0 <= k < |paths| && paths[k].target == target
    && forall j :: 0 <= j < |paths| && paths[j].target == target ==> j == k
  }

  /**
   * A complete list has exactly one path for the backup's own timeline, and every later observed timeline is either
   * the target of exactly one path or lies on a healthy chain that branches at or before the end of the backup.
   */
  lemma CompletePartitions(paths: seq<RecoveryPath>, histories: seq<TimelineHistory>, known: ParentMap, s: Source, target: U32)
    requires Coherent(histories, known, s.wal) && Complete(paths, histories, s)
    ensures TargetOnce(paths, s.anchors.timeline)
    ensures target > s.anchors.timeline && HasRange(s.wal.ranges, target) ==>
              (TargetOnce(paths, target) <==> !Skipped(histories, s, target))
    ensures TargetOnce(paths, target) <==> HasTarget(paths, target)
  {
    hide Leaving, Coherent, BranchesEarly, Rightful, Reached, Skipped, HasRange;
    ReachedExcludesSkipped(histories, known, s, target);
    OnceIfAtAll(paths, target);
    OnceIfAtAll(paths, s.anchors.timeline);
  }

  lemma OnceIfAtAll(paths: seq<RecoveryPath>, target: U32)
    requires Sorting.Comparable(TargetBefore, paths)
    ensures TargetOnce(paths, target) <==> HasTarget(paths, target)
  {
    if HasTarget(paths, target) {
      var k :| 0 <= k < |paths| && paths[k].target == target;
      forall j | 0 <= j < |paths| && paths[j].target == target ensures j == k {
        assert j < k ==> TargetBefore(paths[j], paths[k]) || TargetBefore(paths[k], paths[j]);
        assert k < j ==> TargetBefore(paths[k], paths[j]) || TargetBefore(paths[j], paths[k]);
      }
      assert OnlyAt(paths, target, k);
    }
    if TargetOnce(paths, target) {
      var k :| OnlyAt(paths, target, k);
    }
  }

  // ---------------------------------------------------------------- several backups

  predicate PathBefore(a: RecoveryPath, b: RecoveryPath) {
    Less(a.backupId, b.backupId) || (a.backupId == b.backupId && a.target < b.target)
  }

  lemma PathBeforeIsOrder()
    ensures Sorting.StrictWeakOrder(PathBefore)
  {
    forall a: RecoveryPath, b: RecoveryPath | PathBefore(a, b) ensures !PathBefore(b, a) {
      LessIrreflexive(a.backupId);
      if Less(a.backupId, b.backupId) {
        LessAsymmetric(a.backupId, b.backupId);
      }
    }
    forall a: RecoveryPath, b: RecoveryPath, c: RecoveryPath | !PathBefore(b, a) && !PathBefore(c, b) ensures !PathBefore(c, a) {
      NotLessTransitive(a.backupId, b.backupId, c.backupId);
      LessTotal(a.backupId, b.backupId);
      LessTotal(b.backupId, c.backupId);
    }
  }

  /** The anchors of a backup, where they are valid and in the arithmetic context of the WAL evidence. */
  function AnchorsFor(b: Backup, wal: ServerWal): Option<Anchors> {
    if wal.segmentSize != b.segmentSize then None else BackupRange(b)
  }

  /** What one path of one healthy backup may be. */
  ghost predicate PathOf(p: RecoveryPath, b: Backup, wal: ServerWal, histories: seq<TimelineHistory>) {
    var anchors := AnchorsFor(b, wal);
    if anchors.None? then p == UnknownPath(b, InvalidAnchors)
    else Rightful(p, histories, Source(b, anchors.value, wal))
  }

  /** The targets one healthy backup must have a path for. */
  ghost predicate Expected(target: U32, b: Backup, wal: ServerWal, histories: seq<TimelineHistory>) {
    var anchors := AnchorsFor(b, wal);
    if anchors.None? then target == 0
    else
      var s := Source(b, anchors.value, wal);
      target == s.anchors.timeline || Reached(histories, s, target) || Unconnected(histories, s, target)
  }

  ghost predicate Usable(backups: seq<Backup>, i: int) {
    0 <= i < |backups| && backups[i].state == Evidence.Healthy
  }

  ghost predicate HasPath(paths: seq<RecoveryPath>, target: U32, b: Backup, wal: ServerWal, histories: seq<TimelineHistory>) {
    exists p :: p in paths && p.target == target && PathOf(p, b, wal, histories)
  }

  ghost predicate Belongs(p: RecoveryPath, backups: seq<Backup>, wal: ServerWal, histories: seq<TimelineHistory>) {
    exists i :: Usable(backups, i) && PathOf(p, backups[i], wal, histories)
  }

  /** Nothing but rightful paths of healthy backups, and all of them. */
  ghost predicate Collected(paths: seq<RecoveryPath>, backups: seq<Backup>, wal: ServerWal, histories: seq<TimelineHistory>) {
    && (forall p :: p in paths ==> Belongs(p, backups, wal, histories))
    && (forall i, t :: Usable(backups, i) && Expected(t, backups[i], wal, histories) ==>
          HasPath(paths, t, backups[i], wal, histories))
  }

  predicate DistinctIds(backups: seq<Backup>) {
    forall i, j :: 0 <= i < |backups| && i < j < |backups| ==> backups[i].id != backups[j].id
  }

  /** The list of one healthy backup. */
  ghost predicate Block(block: seq<RecoveryPath>, b: Backup, wal: ServerWal, histories: seq<TimelineHistory>, capped: bool) {
    var anchors := AnchorsFor(b, wal);
    if anchors.None? then !capped && block == [UnknownPath(b, InvalidAnchors)]
    else if capped then CutShort(block, histories, Source(b, anchors.value, wal))
    else Complete(block, histories, Source(b, anchors.value, wal))
  }

  lemma RightfulKeeps(p: RecoveryPath, histories: seq<TimelineHistory>, s: Source)
    requires Rightful(p, histories, s)
    ensures p.backupId == s.backup.id
  {
    hide EvaluatePath, Leaving, Unconnected;
    if Genuine(p, histories, s) {
      if p == Evaluated(s, s.anchors.timeline, []) {
        EvaluateKeepsTarget(s.backup, s.wal, s.anchors.timeline, s.anchors.begin, s.anchors.end, s.anchors.timeline, []);
      } else {
        var k, e :| ReachedBy(histories, s, p.target, k, e) && p == Evaluated(s, p.target, Leaving(histories[k], s)[..e + 1]);
        EvaluateKeepsTarget(s.backup, s.wal, s.anchors.timeline, s.anchors.begin, s.anchors.end, p.target,
                            Leaving(histories[k], s)[..e + 1]);
      }
    }
  }

  lemma BlockMembers(block: seq<RecoveryPath>, b: Backup, wal: ServerWal, histories: seq<TimelineHistory>, capped: bool)
    requires Block(block, b, wal, histories, capped)
    ensures forall p :: p in block ==> p.backupId == b.id
    ensures forall p :: p in block ==> PathOf(p, b, wal, histories) || (capped && p == UnknownPath(b, PathLimit))
    ensures capped ==> UnknownPath(b, PathLimit) in block
  {
    hide Genuine, Unconnected, UnconnectedPath, HasTarget, Sorting.Comparable, BackupRange, Rightful;
    forall p | p in block ensures p.backupId == b.id && (PathOf(p, b, wal, histories) || (capped && p == UnknownPath(b, PathLimit))) {
      if AnchorsFor(b, wal).Some? && Rightful(p, histories, Source(b, AnchorsFor(b, wal).value, wal)) {
        RightfulKeeps(p, histories, Source(b, AnchorsFor(b, wal).value, wal));
      }
    }
    if capped {
      assert block[|block| - 1] in block;
    }
  }

  lemma BlockCovers(block: seq<RecoveryPath>, b: Backup, wal: ServerWal, histories: seq<TimelineHistory>, target: U32)
    requires Block(block, b, wal, histories, false) && Expected(target, b, wal, histories)
    ensures HasPath(block, target, b, wal, histories)
  {
    hide Genuine, Unconnected, UnconnectedPath, Reached, Sorting.Comparable, BackupRange, Rightful;
    if AnchorsFor(b, wal).None? {
      assert block[0] in block;
    } else {
      assert HasTarget(block, target);
      var k :| 0 <= k < |block| && block[k].target == target;
      assert block[k] in block;
    }
  }

  /** Within one backup paths sort by their targets. */
  lemma TargetsCompare(list: seq<RecoveryPath>, id: string)
    requires Sorting.Comparable(TargetBefore, list) && forall p :: p in list ==> p.backupId == id
    ensures Sorting.Comparable(PathBefore, list)
  {
    hide Less;
    forall i, j | 0 <= i < j < |list| ensures PathBefore(list[i], list[j]) || PathBefore(list[j], list[i]) {
      assert list[i] in list && list[j] in list;
    }
  }

  lemma BlockParts(block: seq<RecoveryPath>, b: Backup, wal: ServerWal, histories: seq<TimelineHistory>, capped: bool)
    requires Block(block, b, wal, histories, capped) && AnchorsFor(b, wal).Some?
    ensures !capped ==> Sorting.Comparable(TargetBefore, block)
    ensures capped ==> block != [] && Sorting.Comparable(TargetBefore, block[..|block| - 1])
                       && block[|block| - 1] == UnknownPath(b, PathLimit)
                       && forall p :: p in block[..|block| - 1] ==> Rightful(p, histories, Source(b, AnchorsFor(b, wal).value, wal))
  {
    hide Rightful, HasTarget, StopsBeforeOne, Sorting.Comparable, BackupRange;
  }

  /** Within one backup the targets differ; the unknown path of the ceiling has target 0, which no timeline has. */
  lemma BlockComparable(block: seq<RecoveryPath>, b: Backup, wal: ServerWal, histories: seq<TimelineHistory>, known: ParentMap,
                        capped: bool)
    requires Block(block, b, wal, histories, capped) && Coherent(histories, known, wal)
    ensures Sorting.Comparable(PathBefore, block)
  {
    BlockMembers(block, b, wal, histories, capped);
    if AnchorsFor(b, wal).None? {
      hide Complete, CutShort, BackupRange, Coherent;
    } else {
      BlockParts(block, b, wal, histories, capped);
      CutComparable(block, b, wal, histories, known, capped);
    }
  }

  lemma CutComparable(block: seq<RecoveryPath>, b: Backup, wal: ServerWal, histories: seq<TimelineHistory>, known: ParentMap,
                      capped: bool)
    requires Block(block, b, wal, histories, capped) && AnchorsFor(b, wal).Some? && Coherent(histories, known, wal)
    ensures Sorting.Comparable(PathBefore, block)
  {
    hide Block, Rightful, Less, BackupRange, Coherent, PathOf, Sorting.Comparable;
    BlockMembers(block, b, wal, histories, capped);
    BlockParts(block, b, wal, histories, capped);
    if capped {
      var n := |block| - 1;
      var s := Source(b, AnchorsFor(b, wal).value, wal);
      assert block == block[..n] + [block[n]];
      TargetsCompare(block[..n], b.id);
      forall p | p in block[..n] ensures PathBefore(block[n], p) {
        RightfulTarget(p, histories, known, s);
      }
      TargetsCompare([block[n]], b.id) by {
        OneComparable(block[n]);
      }
      Sorting.ComparableConcat(PathBefore, block[..n], [block[n]]);
    } else {
      TargetsCompare(block, b.id);
    }
  }

  lemma OneComparable(p: RecoveryPath)
    ensures Sorting.Comparable(TargetBefore, [p])
  {
  }

  lemma RightfulTarget(p: RecoveryPath, histories: seq<TimelineHistory>, known: ParentMap, s: Source)
    requires Rightful(p, histories, s) && Coherent(histories, known, s.wal) && s.anchors.timeline > 0
    ensures p.target > 0
  {
    hide EvaluatePath, Leaving, Coherent, BranchesEarly;
    EvaluateKeepsTarget(s.backup, s.wal, s.anchors.timeline, s.anchors.begin, s.anchors.end, s.anchors.timeline, []);
    ReachedExcludesSkipped(histories, known, s, p.target);
  }

  // ---------------------------------------------------------------- how many paths there are to be

  /** How many paths one healthy backup asks for: one per target, or the one that says its anchors are invalid. */
  ghost function PathCount(b: Backup, wal: ServerWal, histories: seq<TimelineHistory>): nat {
    var anchors := AnchorsFor(b, wal);
    if anchors.None? then 1 else |Targets(histories, Source(b, anchors.value, wal))|
  }

  /** How many paths the healthy backups ask for together. */
  ghost function Asked(backups: seq<Backup>, wal: ServerWal, histories: seq<TimelineHistory>): nat {
    if backups == [] then 0
    else
      var n := |backups| - 1;
      Asked(backups[..n], wal, histories) + if backups[n].state == Evidence.Healthy then PathCount(backups[n], wal, histories) else 0
  }

  /** The ceiling cuts a backup that asks for several paths, not all of which are left. */
  ghost predicate CutAt(backups: seq<Backup>, wal: ServerWal, histories: seq<TimelineHistory>, k: int) {
    Usable(backups, k) && Overfills(Asked(backups[..k], wal, histories), PathCount(backups[k], wal, histories))
  }

  ghost predicate NoCutBefore(backups: seq<Backup>, wal: ServerWal, histories: seq<TimelineHistory>, k: int) {
    forall j :: j < k ==> !CutAt(backups, wal, histories, j)
  }

  /** The ceiling was hit: everything of the backups before the first one cut, and what is left for that one. */
  ghost predicate CappedAt(paths: seq<RecoveryPath>, backups: seq<Backup>, wal: ServerWal, histories: seq<TimelineHistory>, k: int,
                           whole: seq<RecoveryPath>, block: seq<RecoveryPath>)
  {
    && CutAt(backups, wal, histories, k) && NoCutBefore(backups, wal, histories, k)
    && Collected(whole, backups[..k], wal, histories) && |whole| == Asked(backups[..k], wal, histories)
    && Block(block, backups[k], wal, histories, true) && |block| == CutLength(|whole|)
    && multiset(paths) == multiset(whole + block)
  }

  ghost predicate Capped(paths: seq<RecoveryPath>, backups: seq<Backup>, wal: ServerWal, histories: seq<TimelineHistory>) {
    exists k, whole, block :: CappedAt(paths, backups, wal, histories, k, whole, block)
  }

  /** A path of the i-th backup, or the unknown one in its place. */
  ghost predicate PathFor(p: RecoveryPath, backups: seq<Backup>, wal: ServerWal, histories: seq<TimelineHistory>, i: int) {
    Usable(backups, i) && (PathOf(p, backups[i], wal, histories) || p == UnknownPath(backups[i], PathLimit))
  }

  lemma CutIsUsable(backups: seq<Backup>, wal: ServerWal, histories: seq<TimelineHistory>, k: int)
    requires CutAt(backups, wal, histories, k)
    ensures Usable(backups, k)
  {
  }

  /** A capped list holds only paths of the backups up to the one cut. */
  lemma CappedPath(p: RecoveryPath, paths: seq<RecoveryPath>, backups: seq<Backup>, wal: ServerWal, histories: seq<TimelineHistory>)
    returns (i: int)
    requires Capped(paths, backups, wal, histories) && p in paths
    ensures PathFor(p, backups, wal, histories, i) && NoCutBefore(backups, wal, histories, i)
  {
    hide PathOf, Expected, Block, CutAt, Asked;
    var k, whole, block :| CappedAt(paths, backups, wal, histories, k, whole, block);
    CutIsUsable(backups, wal, histories, k);
    BlockMembers(block, backups[k], wal, histories, true);
    Sorting.SameMembers(paths, whole + block);
    if p in whole {
      i :| Usable(backups[..k], i) && PathOf(p, backups[..k][i], wal, histories);
    } else {
      i := k;
    }
  }

  lemma CollectedHasPath(paths: seq<RecoveryPath>, backups: seq<Backup>, wal: ServerWal, histories: seq<TimelineHistory>, i: int)
    returns (p: RecoveryPath)
    requires Collected(paths, backups, wal, histories) && Usable(backups, i)
    ensures p in paths && PathOf(p, backups[i], wal, histories)
  {
    hide PathOf, Belongs, Reached, Unconnected, BackupRange;
    var b := backups[i];
    var target: U32 := if AnchorsFor(b, wal).None? then 0 else AnchorsFor(b, wal).value.timeline;
    assert Expected(target, b, wal, histories);
    assert HasPath(paths, target, b, wal, histories);
    p :| p in paths && p.target == target && PathOf(p, b, wal, histories);
  }

  /** And a path of each of them. */
  lemma CappedHasPath(paths: seq<RecoveryPath>, backups: seq<Backup>, wal: ServerWal, histories: seq<TimelineHistory>, i: int)
    returns (p: RecoveryPath)
    requires Capped(paths, backups, wal, histories) && Usable(backups, i) && NoCutBefore(backups, wal, histories, i)
    ensures p in paths && PathFor(p, backups, wal, histories, i)
  {
    hide PathOf, Block, CutAt, Asked, Collected;
    var k, whole, block :| CappedAt(paths, backups, wal, histories, k, whole, block);
    CutIsUsable(backups, wal, histories, k);
    BlockMembers(block, backups[k], wal, histories, true);
    Sorting.SameMembers(paths, whole + block);
    if i < k {
      assert Usable(backups[..k], i);
      p := CollectedHasPath(whole, backups[..k], wal, histories, i);
    } else {
      p := UnknownPath(backups[k], PathLimit);
    }
  }

  lemma CappedIsUnknown(paths: seq<RecoveryPath>, backups: seq<Backup>, wal: ServerWal, histories: seq<TimelineHistory>)
    requires Capped(paths, backups, wal, histories)
    ensures exists p :: p in paths && p.state == Evidence.Unknown
  {
    hide PathOf, Block, CutAt, Asked, Collected;
    var k, whole, block :| CappedAt(paths, backups, wal, histories, k, whole, block);
    CutIsUsable(backups, wal, histories, k);
    BlockMembers(block, backups[k], wal, histories, true);
    Sorting.SameMembers(paths, whole + block);
    assert UnknownPath(backups[k], PathLimit) in paths;
  }

  /** The list as long as it is: where the ceiling cuts no backup, all they ask for. */
  ghost predicate Filled(paths: seq<RecoveryPath>, backups: seq<Backup>, wal: ServerWal, histories: seq<TimelineHistory>) {
    if NoCutBefore(backups, wal, histories, |backups|) then
      Collected(paths, backups, wal, histories) && |paths| == Asked(backups, wal, histories)
    else Capped(paths, backups, wal, histories)
  }

  /** The first `n` backups leave exactly one place. */
  ghost predicate AskedBefore(backups: seq<Backup>, wal: ServerWal, histories: seq<TimelineHistory>, n: int) {
    0 <= n <= |backups| && Asked(backups[..n], wal, histories) == MAX_RECOVERY_PATHS - 1
  }

  function CountHealthy(backups: seq<Backup>): (n: nat)
    ensures n <= |backups|
  {
    if backups == [] then 0
    else CountHealthy(backups[..|backups| - 1]) + if backups[|backups| - 1].state == Evidence.Healthy then 1 else 0
  }

  /**
   * When the list of a server stays within the ceiling, in terms of its backups alone. It does not exactly when the
   * first few backups ask for one path less than the ceiling and all of them for more than the ceiling: the next
   * backup's own path takes the last place unchecked, and whatever follows is appended before the length is looked at.
   */
  ghost predicate PathsFit(backups: seq<Backup>, wal: ServerWal, histories: seq<TimelineHistory>) {
    if Conflicting(backups) then CountHealthy(backups) <= MAX_RECOVERY_PATHS
    else Asked(backups, wal, histories) <= MAX_RECOVERY_PATHS || !exists n :: AskedBefore(backups, wal, histories, n)
  }

  lemma AskedOneMore(backups: seq<Backup>, wal: ServerWal, histories: seq<TimelineHistory>, k: int)
    requires 0 <= k < |backups|
    ensures Asked(backups[..k + 1], wal, histories) == Asked(backups[..k], wal, histories)
              + if backups[k].state == Evidence.Healthy then PathCount(backups[k], wal, histories) else 0
  {
    hide PathCount;
    assert backups[..k + 1][..k] == backups[..k];
  }

  lemma {:induction false} AskedGrows(backups: seq<Backup>, wal: ServerWal, histories: seq<TimelineHistory>, m: int, n: int)
    requires 0 <= m <= n <= |backups|
    ensures Asked(backups[..m], wal, histories) <= Asked(backups[..n], wal, histories)
    decreases n - m
  {
    hide PathCount, Asked;
    if m < n {
      AskedOneMore(backups, wal, histories, n - 1);
      AskedGrows(backups, wal, histories, m, n - 1);
    }
  }

  /** Without a cut the total passes the ceiling only through the last place below it. */
  lemma {:induction false} Crossing(backups: seq<Backup>, wal: ServerWal, histories: seq<TimelineHistory>, n: int)
    requires 0 <= n <= |backups| && NoCutBefore(backups, wal, histories, n)
    requires Asked(backups[..n], wal, histories) >= MAX_RECOVERY_PATHS
    ensures exists m :: AskedBefore(backups, wal, histories, m)
    decreases n
  {
    hide PathCount;
    if n > 0 {
      AskedOneMore(backups, wal, histories, n - 1);
      hide Asked;
      assert !CutAt(backups, wal, histories, n - 1);
      if Asked(backups[..n - 1], wal, histories) >= MAX_RECOVERY_PATHS {
        Crossing(backups, wal, histories, n - 1);
      } else {
        assert AskedBefore(backups, wal, histories, n - 1);
      }
    }
  }

  /** The exact condition for a list within the ceiling. */
  lemma PathsFitIff(paths: seq<RecoveryPath>, backups: seq<Backup>, wal: ServerWal, histories: seq<TimelineHistory>)
    requires AllPaths(paths, backups, wal, histories)
    ensures |paths| <= MAX_RECOVERY_PATHS <==> PathsFit(backups, wal, histories)
  {
    hide Conflicting, Collected, Block, Asked, PathCount, AllConflicting;
    assert backups[..|backups|] == backups;
    if !Conflicting(backups) {
      if NoCutBefore(backups, wal, histories, |backups|) {
        if Asked(backups, wal, histories) >= MAX_RECOVERY_PATHS {
          Crossing(backups, wal, histories, |backups|);
        }
      } else {
        CappedFitsIff(paths, backups, wal, histories);
      }
    }
  }

  lemma CappedFitsIff(paths: seq<RecoveryPath>, backups: seq<Backup>, wal: ServerWal, histories: seq<TimelineHistory>)
    requires Capped(paths, backups, wal, histories)
    ensures |paths| <= MAX_RECOVERY_PATHS <==> !exists n :: AskedBefore(backups, wal, histories, n)
    ensures Asked(backups, wal, histories) >= MAX_RECOVERY_PATHS
    ensures |paths| > MAX_RECOVERY_PATHS ==> Asked(backups, wal, histories) > MAX_RECOVERY_PATHS
  {
    hide Collected, Block, Asked, PathCount;
    var k, whole, block :| CappedAt(paths, backups, wal, histories, k, whole, block);
    Sorting.SameMembers(paths, whole + block);
    AskedOneMore(backups, wal, histories, k);
    AskedGrows(backups, wal, histories, k + 1, |backups|);
    assert backups[..|backups|] == backups;
    if Asked(backups[..k], wal, histories) >= MAX_RECOVERY_PATHS {
      Crossing(backups, wal, histories, k);
    } else if |paths| > MAX_RECOVERY_PATHS {
      assert AskedBefore(backups, wal, histories, k);
    }
    forall n | AskedBefore(backups, wal, histories, n) ensures |paths| > MAX_RECOVERY_PATHS {
      if n <= k {
        AskedGrows(backups, wal, histories, n, k);
      } else {
        AskedGrows(backups, wal, histories, k + 1, n);
      }
    }
  }

  // ---------------------------------------------------------------- the loop over the backups

  lemma AppendKeeps(paths: seq<RecoveryPath>, block: seq<RecoveryPath>, backups: seq<Backup>, wal: ServerWal,
                    histories: seq<TimelineHistory>, k: int)
    requires 0 <= k < |backups| && Collected(paths, backups[..k], wal, histories)
    requires if backups[k].state == Evidence.Healthy then Block(block, backups[k], wal, histories, false) else block == []
    ensures Collected(paths + block, backups[..k + 1], wal, histories)
  {
    hide PathOf, Expected, Block;
    if backups[k].state == Evidence.Healthy {
      BlockMembers(block, backups[k], wal, histories, false);
    }
    forall p | p in paths + block ensures Belongs(p, backups[..k + 1], wal, histories) {
      BelongsMore(p, backups, k, wal, histories);
      assert p in block ==> Usable(backups[..k + 1], k);
    }
    var upTo := backups[..k + 1];
    forall i, t: U32 | Usable(upTo, i) && Expected(t, upTo[i], wal, histories)
      ensures HasPath(paths + block, t, upTo[i], wal, histories)
    {
      if i == k {
        BlockCovers(block, backups[k], wal, histories, t);
        MorePaths(block, paths + block, t, backups[k], wal, histories);
      } else {
        assert Usable(backups[..k], i) && backups[..k][i] == upTo[i];
        MorePaths(paths, paths + block, t, backups[i], wal, histories);
      }
    }
  }

  lemma MorePaths(few: seq<RecoveryPath>, many: seq<RecoveryPath>, t: U32, b: Backup, wal: ServerWal, histories: seq<TimelineHistory>)
    requires HasPath(few, t, b, wal, histories) && forall p :: p in few ==> p in many
    ensures HasPath(many, t, b, wal, histories)
  {
    hide PathOf;
  }

  lemma BelongsMore(p: RecoveryPath, backups: seq<Backup>, k: int, wal: ServerWal, histories: seq<TimelineHistory>)
    requires 0 <= k < |backups|
    ensures Belongs(p, backups[..k], wal, histories) ==> Belongs(p, backups[..k + 1], wal, histories)
    ensures Belongs(p, backups[..k + 1], wal, histories) ==> Belongs(p, backups, wal, histories)
  {
    hide PathOf;
    if Belongs(p, backups[..k], wal, histories) {
      var i :| Usable(backups[..k], i) && PathOf(p, backups[..k][i], wal, histories);
      assert Usable(backups[..k + 1], i);
    }
    if Belongs(p, backups[..k + 1], wal, histories) {
      var i :| Usable(backups[..k + 1], i) && PathOf(p, backups[..k + 1][i], wal, histories);
      assert Usable(backups, i);
    }
  }

  /** Every path names one of the first `k` backups, and with distinct identifiers any two paths are ordered. */
  ghost predicate Arranged(paths: seq<RecoveryPath>, backups: seq<Backup>, k: int) {
    && (forall p :: p in paths ==> exists i :: 0 <= i < k && i < |backups| && backups[i].id == p.backupId)
    && Sorting.Comparable(PathBefore, paths)
  }

  lemma AppendArranged(paths: seq<RecoveryPath>, block: seq<RecoveryPath>, backups: seq<Backup>, k: int)
    requires 0 <= k < |backups| && DistinctIds(backups) && Arranged(paths, backups, k)
    requires (forall p :: p in block ==> p.backupId == backups[k].id) && Sorting.Comparable(PathBefore, block)
    ensures Arranged(paths + block, backups, k + 1)
  {
    forall p, q | p in paths && q in block ensures PathBefore(p, q) || PathBefore(q, p) {
      LessTotal(p.backupId, q.backupId);
    }
    hide Less, PathBefore;
    Sorting.ComparableConcat(PathBefore, paths, block);
  }

  lemma CapKeeps(paths: seq<RecoveryPath>, block: seq<RecoveryPath>, backups: seq<Backup>, wal: ServerWal,
                 histories: seq<TimelineHistory>, k: int)
    requires Usable(backups, k) && Collected(paths, backups[..k], wal, histories) && |paths| == Asked(backups[..k], wal, histories)
    requires Block(block, backups[k], wal, histories, true) && |block| == CutLength(|paths|)
    requires CutAt(backups, wal, histories, k) && NoCutBefore(backups, wal, histories, k)
    ensures Filled(paths + block, backups, wal, histories)
  {
    hide Collected, Block, PathCount, Asked;
    assert CappedAt(paths + block, backups, wal, histories, k, paths, block);
  }

  /** The list of one healthy backup after `taken` others. */
  method BlockOf(b: Backup, wal: ServerWal, histories: seq<TimelineHistory>, taken: nat) returns (block: seq<RecoveryPath>, cut: bool)
    ensures Block(block, b, wal, histories, cut)
    ensures cut <==> Overfills(taken, PathCount(b, wal, histories))
    ensures |block| == if cut then CutLength(taken) else PathCount(b, wal, histories)
  {
    hide CutShort, Complete, Targets, BackupRange;
    var anchors := AnchorsFor(b, wal);
    if anchors.None? {
      block, cut := [UnknownPath(b, InvalidAnchors)], false;
    } else {
      block, cut := BackupPaths(Source(b, anchors.value, wal), histories, taken);
    }
  }

  method CollectPaths(backups: seq<Backup>, wal: ServerWal, histories: seq<TimelineHistory>, ghost known: ParentMap)
    returns (paths: seq<RecoveryPath>)
    ensures Filled(paths, backups, wal, histories)
    ensures |paths| <= MAX_RECOVERY_PATHS + |backups|
    ensures Coherent(histories, known, wal) && DistinctIds(backups) ==> Sorting.Comparable(PathBefore, paths)
  {
    hide Collected, Capped, Coherent, DistinctIds, Arranged, Asked, PathCount, Block;
    paths := [];
    NothingCollected(backups, wal, histories);
    for k := 0 to |backups|
      invariant Collected(paths, backups[..k], wal, histories)
      invariant |paths| == Asked(backups[..k], wal, histories) && NoCutBefore(backups, wal, histories, k)
      invariant |paths| < MAX_RECOVERY_PATHS + k
      invariant Coherent(histories, known, wal) && DistinctIds(backups) ==> Arranged(paths, backups, k)
    {
      var b := backups[k];
      var block, cut := [], false;
      if b.state == Evidence.Healthy {
        block, cut := BlockOf(b, wal, histories, |paths|);
        BlockArranged(paths, block, backups, wal, histories, known, k, cut);
        if cut {
          CapKeeps(paths, block, backups, wal, histories, k);
          ArrangedComparable(paths + block, backups, k + 1);
          return paths + block;
        }
      } else {
        ArrangedMore(paths, backups, k);
      }
      AppendKeeps(paths, block, backups, wal, histories, k);
      AskedOneMore(backups, wal, histories, k);
      paths := paths + block;
    }
    assert backups[..|backups|] == backups;
    ArrangedComparable(paths, backups, |backups|);
  }

  lemma NothingCollected(backups: seq<Backup>, wal: ServerWal, histories: seq<TimelineHistory>)
    ensures Collected([], backups[..0], wal, histories) && Arranged([], backups, 0)
    ensures Asked(backups[..0], wal, histories) == 0 && NoCutBefore(backups, wal, histories, 0)
  {
    hide PathCount;
  }

  lemma ArrangedMore(paths: seq<RecoveryPath>, backups: seq<Backup>, k: int)
    ensures Arranged(paths, backups, k) ==> Arranged(paths, backups, k + 1) && paths + [] == paths
  {
  }

  lemma ArrangedComparable(paths: seq<RecoveryPath>, backups: seq<Backup>, k: int)
    ensures Arranged(paths, backups, k) ==> Sorting.Comparable(PathBefore, paths)
  {
  }

  lemma BlockArranged(paths: seq<RecoveryPath>, block: seq<RecoveryPath>, backups: seq<Backup>, wal: ServerWal,
                      histories: seq<TimelineHistory>, known: ParentMap, k: int, cut: bool)
    requires 0 <= k < |backups| && Block(block, backups[k], wal, histories, cut)
    ensures Coherent(histories, known, wal) && DistinctIds(backups) && Arranged(paths, backups, k) ==>
              Arranged(paths + block, backups, k + 1)
  {
    hide Block, Coherent, Arranged, DistinctIds, PathBefore, PathOf;
    if Coherent(histories, known, wal) && DistinctIds(backups) && Arranged(paths, backups, k) {
      BlockMembers(block, backups[k], wal, histories, cut);
      BlockComparable(block, backups[k], wal, histories, known, cut);
      AppendArranged(paths, block, backups, k);
    }
  }

  // ---------------------------------------------------------------- conflicting system identifiers

  predicate Identified(backups: seq<Backup>, i: int) {
    0 <= i < |backups| && backups[i].state == Evidence.Healthy && backups[i].systemId != ""
  }

  /** Two healthy backups carry different system identifiers. */
  ghost predicate Conflicting(backups: seq<Backup>) {
    exists i, j :: Identified(backups, i) && Identified(backups, j) && backups[i].systemId != backups[j].systemId
  }

  method ConflictingSystemIDs(backups: seq<Backup>) returns (conflict: bool)
    ensures conflict <==> Conflicting(backups)
  {
    var known := "";
    ghost var first := 0;
    for k := 0 to |backups|
      invariant known != "" ==> first < k && Identified(backups, first) && backups[first].systemId == known
      invariant forall i :: Identified(backups, i) && i < k ==> known != "" && backups[i].systemId == known
    {
      var backup := backups[k];
      if backup.state != Evidence.Healthy || backup.systemId == "" {
        continue;
      }
      assert Identified(backups, k);
      if known == "" {
        known, first := backup.systemId, k;
        continue;
      }
      if known != backup.systemId {
        return true;
      }
    }
    return false;
  }

  function ConflictPath(b: Backup): RecoveryPath {
    UnknownPath(b, ConflictingSystemIds).(target := b.timeline)
  }

  /** Under a conflict every healthy backup has one path, and it is unknown. */
  ghost predicate AllConflicting(paths: seq<RecoveryPath>, backups: seq<Backup>) {
    forall p :: p in paths <==> exists i :: Usable(backups, i) && p == ConflictPath(backups[i])
  }

  ghost predicate ConflictingUpTo(paths: seq<RecoveryPath>, backups: seq<Backup>, k: int) {
    forall p :: p in paths <==> exists i :: Usable(backups, i) && i < k && p == ConflictPath(backups[i])
  }

  lemma ConflictStep(paths: seq<RecoveryPath>, backups: seq<Backup>, k: int)
    requires 0 <= k < |backups| && ConflictingUpTo(paths, backups, k)
    ensures ConflictingUpTo(if backups[k].state == Evidence.Healthy then paths + [ConflictPath(backups[k])] else paths, backups, k + 1)
  {
    hide ConflictPath;
    if backups[k].state == Evidence.Healthy {
      assert Usable(backups, k);
    }
  }

  lemma AllConflict(paths: seq<RecoveryPath>, backups: seq<Backup>)
    ensures ConflictingUpTo(paths, backups, |backups|) ==> AllConflicting(paths, backups)
    ensures ConflictingUpTo([], backups, 0)
  {
    hide ConflictPath;
  }

  method ConflictPaths(backups: seq<Backup>) returns (paths: seq<RecoveryPath>)
    ensures |paths| == CountHealthy(backups)
    ensures AllConflicting(paths, backups)
    ensures DistinctIds(backups) ==> Sorting.Comparable(PathBefore, paths)
  {
    hide ConflictPath, ConflictingUpTo, AllConflicting, Arranged, DistinctIds, Sorting.Comparable;
    paths := [];
    AllConflict(paths, backups);
    NothingArranged(backups);
    for k := 0 to |backups|
      invariant |paths| == CountHealthy(backups[..k])
      invariant ConflictingUpTo(paths, backups, k)
      invariant DistinctIds(backups) ==> Arranged(paths, backups, k)
    {
      assert backups[..k + 1][..k] == backups[..k];
      ConflictStep(paths, backups, k);
      if backups[k].state == Evidence.Healthy {
        ConflictArranged(paths, backups, k);
        paths := paths + [ConflictPath(backups[k])];
      } else {
        ArrangedMore(paths, backups, k);
      }
    }
    assert backups[..|backups|] == backups;
    AllConflict(paths, backups);
    ArrangedComparable(paths, backups, |backups|);
  }

  lemma NothingArranged(backups: seq<Backup>)
    ensures Arranged([], backups, 0)
  {
  }

  lemma ConflictArranged(paths: seq<RecoveryPath>, backups: seq<Backup>, k: int)
    requires 0 <= k < |backups|
    ensures DistinctIds(backups) && Arranged(paths, backups, k) ==> Arranged(paths + [ConflictPath(backups[k])], backups, k + 1)
  {
    hide Arranged, DistinctIds;
    if DistinctIds(backups) && Arranged(paths, backups, k) {
      AppendArranged(paths, [ConflictPath(backups[k])], backups, k);
    }
  }

  // ---------------------------------------------------------------- recoveryPaths and its roll-up

  /** What `recoveryPaths` promises of its list, in sorted order. */
  ghost predicate AllPaths(paths: seq<RecoveryPath>, backups: seq<Backup>, wal: ServerWal, histories: seq<TimelineHistory>) {
    if Conflicting(backups) then AllConflicting(paths, backups) && |paths| == CountHealthy(backups)
    else Filled(paths, backups, wal, histories)
  }

  lemma SortedPaths(list: seq<RecoveryPath>, backups: seq<Backup>, wal: ServerWal, histories: seq<TimelineHistory>)
    requires AllPaths(list, backups, wal, histories)
    ensures AllPaths(Sorting.Sort(PathBefore, list), backups, wal, histories)
    ensures Sorting.Sorted(PathBefore, Sorting.Sort(PathBefore, list))
    ensures Sorting.Comparable(PathBefore, list) ==> Sorting.StrictlySorted(PathBefore, Sorting.Sort(PathBefore, list))
  {
    hide AllPaths, PathBefore, Sorting.Sort;
    PathBeforeIsOrder();
    Sorting.SortCorrect(PathBefore, list);
    PermutedPaths(list, Sorting.Sort(PathBefore, list), backups, wal, histories);
    if Sorting.Comparable(PathBefore, list) {
      Sorting.SortStrict(PathBefore, list);
    }
  }

  lemma PermutedPaths(list: seq<RecoveryPath>, paths: seq<RecoveryPath>, backups: seq<Backup>, wal: ServerWal, histories: seq<TimelineHistory>)
    requires AllPaths(list, backups, wal, histories) && multiset(list) == multiset(paths)
    ensures AllPaths(paths, backups, wal, histories)
  {
    hide Conflicting, PathOf, Expected, ConflictPath, Block, Asked, NoCutBefore, CutAt, Belongs, CountHealthy;
    Sorting.SameMembers(paths, list);
    if !Conflicting(backups) {
      if NoCutBefore(backups, wal, histories, |backups|) {
        forall i, t: U32 | Usable(backups, i) && Expected(t, backups[i], wal, histories)
          ensures HasPath(paths, t, backups[i], wal, histories)
        {
          MorePaths(list, paths, t, backups[i], wal, histories);
        }
      } else {
        var k, whole, block :| CappedAt(list, backups, wal, histories, k, whole, block);
        assert CappedAt(paths, backups, wal, histories, k, whole, block);
      }
    }
  }

  /** `recoveryPaths`: for distinct backup identifiers strictly increasing by backup and target. */
  method RecoveryPathsOf(backups: seq<Backup>, wal: ServerWal, histories: seq<TimelineHistory>, ghost known: ParentMap)
    returns (paths: seq<RecoveryPath>)
    ensures AllPaths(paths, backups, wal, histories)
    ensures |paths| <= MAX_RECOVERY_PATHS + |backups|
    ensures Sorting.Sorted(PathBefore, paths)
    ensures Coherent(histories, known, wal) && DistinctIds(backups) ==> Sorting.StrictlySorted(PathBefore, paths)
  {
    hide Conflicting, Filled, AllConflicting, Coherent, DistinctIds, Sorting.Sorted, Sorting.StrictlySorted,
         Sorting.Comparable, Sorting.Sort;
    var conflict := ConflictingSystemIDs(backups);
    var list;
    if conflict {
      list := ConflictPaths(backups);
    } else {
      list := CollectPaths(backups, wal, histories, known);
    }
    SortedPaths(list, backups, wal, histories);
    paths := Sorting.Sort(PathBefore, list);
  }

  /** One path of this backup and target, and no other. */
  ghost predicate OnlyPath(paths: seq<RecoveryPath>, id: string, target: U32) {
    exists p :: p in paths && p.backupId == id && p.target == target
                && forall k :: 0 <= k < |paths| && paths[k].backupId == id && paths[k].target == target ==> paths[k] == p
  }

  /**
   * The list of a server, short of a conflict and of the ceiling: every healthy backup with valid anchors has exactly
   * one path on its own timeline, and every later observed timeline is the target of exactly one path of it unless it
   * lies on a healthy chain that branches at or before the end of the backup.
   */
  lemma PathsPartition(paths: seq<RecoveryPath>, backups: seq<Backup>, wal: ServerWal, histories: seq<TimelineHistory>, known: ParentMap,
                       i: int, target: U32)
    requires Coherent(histories, known, wal) && DistinctIds(backups) && Collected(paths, backups, wal, histories)
    requires Sorting.StrictlySorted(PathBefore, paths)
    requires Usable(backups, i) && AnchorsFor(backups[i], wal).Some?
    ensures var s := Source(backups[i], AnchorsFor(backups[i], wal).value, wal);
            && OnlyPath(paths, backups[i].id, s.anchors.timeline)
            && (target > s.anchors.timeline && HasRange(wal.ranges, target) ==>
                  (OnlyPath(paths, backups[i].id, target) <==> !Skipped(histories, s, target)))
  {
    hide Coherent, PathOf, HasRange, Reached, Skipped, Sorting.StrictlySorted, PathBefore, BackupRange, Belongs, OnlyPath;
    var b := backups[i];
    var s := Source(b, AnchorsFor(b, wal).value, wal);
    ReachedExcludesSkipped(histories, known, s, target);
    ExpectedOnce(paths, backups, wal, histories, i, s.anchors.timeline);
    ExpectedOnce(paths, backups, wal, histories, i, target);
    if OnlyPath(paths, b.id, target) {
      PathIsExpected(paths, backups, wal, histories, i, target);
    }
  }

  lemma ExpectedOnce(paths: seq<RecoveryPath>, backups: seq<Backup>, wal: ServerWal, histories: seq<TimelineHistory>, i: int, target: U32)
    requires Collected(paths, backups, wal, histories) && Sorting.StrictlySorted(PathBefore, paths) && Usable(backups, i)
    ensures Expected(target, backups[i], wal, histories) ==> OnlyPath(paths, backups[i].id, target)
  {
    hide Expected, PathBefore, Belongs, PathOf;
    if Expected(target, backups[i], wal, histories) {
      var p :| p in paths && p.target == target && PathOf(p, backups[i], wal, histories);
      PathOfKeeps(p, backups[i], wal, histories);
      var j :| 0 <= j < |paths| && paths[j] == p;
      forall k | 0 <= k < |paths| && paths[k].backupId == p.backupId && paths[k].target == target ensures k == j {
        NotBeforeItself(paths[k], paths[j]);
        NotBeforeItself(paths[j], paths[k]);
      }
    }
  }

  lemma NotBeforeItself(a: RecoveryPath, b: RecoveryPath)
    requires a.backupId == b.backupId && a.target == b.target
    ensures !PathBefore(a, b)
  {
    LessIrreflexive(a.backupId);
  }

  lemma PathOfKeeps(p: RecoveryPath, b: Backup, wal: ServerWal, histories: seq<TimelineHistory>)
    requires PathOf(p, b, wal, histories)
    ensures p.backupId == b.id
  {
    hide Rightful, BackupRange;
    if AnchorsFor(b, wal).Some? {
      RightfulKeeps(p, histories, Source(b, AnchorsFor(b, wal).value, wal));
    }
  }

  lemma PathIsExpected(paths: seq<RecoveryPath>, backups: seq<Backup>, wal: ServerWal, histories: seq<TimelineHistory>, i: int, target: U32)
    requires Collected(paths, backups, wal, histories) && DistinctIds(backups) && Usable(backups, i)
    requires OnlyPath(paths, backups[i].id, target)
    ensures Expected(target, backups[i], wal, histories)
  {
    hide Expected, PathOf;
    var p :| p in paths && p.backupId == backups[i].id && p.target == target;
    var j :| Usable(backups, j) && PathOf(p, backups[j], wal, histories);
    PathOfKeeps(p, backups[j], wal, histories);
    assert i == j;
    PathOfTarget(p, backups[i], wal, histories);
  }

  lemma PathOfTarget(p: RecoveryPath, b: Backup, wal: ServerWal, histories: seq<TimelineHistory>)
    requires PathOf(p, b, wal, histories)
    ensures Expected(p.target, b, wal, histories)
  {
    hide Leaving, BranchesEarly, Unconnected, BackupRange, EvaluatePath;
    if AnchorsFor(b, wal).Some? {
      var s := Source(b, AnchorsFor(b, wal).value, wal);
      EvaluateKeepsTarget(s.backup, s.wal, s.anchors.timeline, s.anchors.begin, s.anchors.end, s.anchors.timeline, []);
    }
  }

  function PathState(p: RecoveryPath): Evidence.State {
    p.state
  }

  /** `coverageRollup`. */
  function Coverage(paths: seq<RecoveryPath>): Evidence.State {
    Evidence.JoinOf(paths, PathState)
  }

  /**
   * Coverage of a server is healthy exactly when it has paths and each of them is, which rules out conflicting system
   * identifiers, invalid anchors, unconnected targets and a list cut short.
   */
  lemma CoverageHealthyIff(paths: seq<RecoveryPath>, backups: seq<Backup>, wal: ServerWal, histories: seq<TimelineHistory>)
    requires AllPaths(paths, backups, wal, histories)
    ensures Coverage(paths) == Evidence.Healthy <==> paths != [] && forall p :: p in paths ==> p.state == Evidence.Healthy
    ensures Coverage(paths) == Evidence.Healthy ==>
              !Conflicting(backups) && Collected(paths, backups, wal, histories) && NoCutBefore(backups, wal, histories, |backups|)
  {
    hide Conflicting, Collected, Belongs, Capped, NoCutBefore, Asked, CountHealthy;
    Evidence.JoinHealthyIff(paths, PathState);
    assert paths != [] ==> paths[0] in paths;
    if Coverage(paths) == Evidence.Healthy && Capped(paths, backups, wal, histories) {
      CappedIsUnknown(paths, backups, wal, histories);
    }
  }
}
