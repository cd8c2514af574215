// Every recovery path of one server (recovery.go, recoveryPaths).
module RecoveryPaths {
  import opened Results
  import opened WalCatalog
  import opened Timelines
  import opened Ancestries
  import opened Histories
  import opened PathCoverage
  import opened Backups
  import Evidence
  import Sorting

  const MAX_RECOVERY_PATHS := 10_000

  datatype Source = Source(backup: Backup, anchors: Anchors, wal: ServerWal)

  function Evaluated(s: Source, target: U32, edges: seq<HistoryEdge>): RecoveryPath {
    EvaluatePath(s.backup, s.wal, s.anchors.timeline, s.anchors.begin, s.anchors.end, target, edges)
  }

  /** Every path of a backup but its own is appended with a look at the ceiling. */
  predicate Overfills(taken: nat, targets: nat) {
    targets >= 2 && taken + targets >= MAX_RECOVERY_PATHS
  }

  /** What one backup is left after a cut: its share up to the ceiling, but never less than its own path and the unknown one. */
  function CutLength(taken: nat): nat {
    if taken + 2 > MAX_RECOVERY_PATHS then 2 else MAX_RECOVERY_PATHS - taken
  }

  predicate WithinCeiling(taken: nat, length: nat, capped: bool) {
    if capped then length == CutLength(taken) else !Overfills(taken, length)
  }

  // ---------------------------------------------------------------- what each history contributes

  /** The edges of a healthy history that leave the backup's timeline; empty when it does not apply. */
  function Leaving(h: TimelineHistory, s: Source): seq<HistoryEdge> {
    if h.state != Evidence.Healthy || h.timeline == s.anchors.timeline then []
    else Descendants(h.edges, s.anchors.timeline)
  }

  predicate BranchesEarly(h: TimelineHistory, s: Source) {
    var edges := Leaving(h, s);
    edges != [] && BranchBeforeBackup(edges[0], s.backup, s.anchors.end)
  }

  /** A target some healthy history reaches from the backup by a branch after its end. */
  ghost predicate Reached(histories: seq<TimelineHistory>, s: Source, target: U32) {
    exists k, e :: ReachedBy(histories, s, target, k, e)
  }

  ghost predicate ReachedBy(histories: seq<TimelineHistory>, s: Source, target: U32, k: int, e: int) {
    LateEdge(histories, s, k, e) && Leaving(histories[k], s)[e].child == target
  }

  /** The e-th edge of the k-th history leaves the backup's timeline on a chain that branches after the backup. */
  ghost predicate LateEdge(histories: seq<TimelineHistory>, s: Source, k: int, e: int) {
    0 <= k < |histories| && !BranchesEarly(histories[k], s) && 0 <= e < |Leaving(histories[k], s)|
  }

  /** A target on a healthy chain that branches at or before the end of the backup. */
  ghost predicate Skipped(histories: seq<TimelineHistory>, s: Source, target: U32) {
    exists k, e :: SkippedBy(histories, s, target, k, e)
  }

  ghost predicate SkippedBy(histories: seq<TimelineHistory>, s: Source, target: U32, k: int, e: int) {
    0 <= k < |histories| && BranchesEarly(histories[k], s) && 0 <= e < |Leaving(histories[k], s)|
    && Leaving(histories[k], s)[e].child == target
  }

  // ---------------------------------------------------------------- the list of one backup

  predicate TargetBefore(a: RecoveryPath, b: RecoveryPath) {
    a.target < b.target
  }

  ghost predicate HasTarget(paths: seq<RecoveryPath>, target: U32) {
    exists k :: 0 <= k < |paths| && paths[k].target == target
  }

  /** The backup's own path, or the evaluation over some history's edges to the target. */
  ghost predicate Genuine(p: RecoveryPath, histories: seq<TimelineHistory>, s: Source) {
    p == Evaluated(s, s.anchors.timeline, [])
    || exists k, e :: ReachedBy(histories, s, p.target, k, e) && p == Evaluated(s, p.target, Leaving(histories[k], s)[..e + 1])
  }

  /** One evaluated path per reached target, and the backup's own. */
  ghost predicate Follows(paths: seq<RecoveryPath>, histories: seq<TimelineHistory>, s: Source) {
    && (forall k :: 0 <= k < |paths| ==> Genuine(paths[k], histories, s))
    && (forall t :: HasTarget(paths, t) <==> t == s.anchors.timeline || Reached(histories, s, t))
    && Sorting.Comparable(TargetBefore, paths)
  }

  /** An observed later timeline that no healthy history connects to the backup, one way or the other. */
  ghost predicate Unconnected(histories: seq<TimelineHistory>, s: Source, target: U32) {
    target > s.anchors.timeline && HasRange(s.wal.ranges, target)
    && !Reached(histories, s, target) && !Skipped(histories, s, target)
  }

  function UnconnectedPath(s: Source, target: U32): RecoveryPath {
    UnknownPath(s.backup, NotConnected).(target := target)
  }

  /** A genuine path, or the unknown path of an unconnected target. */
  ghost predicate Rightful(p: RecoveryPath, histories: seq<TimelineHistory>, s: Source) {
    Genuine(p, histories, s) || (Unconnected(histories, s, p.target) && p == UnconnectedPath(s, p.target))
  }

  /** The complete list of one usable backup. */
  ghost predicate Complete(paths: seq<RecoveryPath>, histories: seq<TimelineHistory>, s: Source) {
    && (forall k :: 0 <= k < |paths| ==> Rightful(paths[k], histories, s))
    && (forall t :: HasTarget(paths, t) <==>
          t == s.anchors.timeline || Reached(histories, s, t) || Unconnected(histories, s, t))
    && Sorting.Comparable(TargetBefore, paths)
  }

  /** The targets found before the e-th edge of the k-th history, which leads to one more. */
  ghost predicate StoppedAtEdge(paths: seq<RecoveryPath>, histories: seq<TimelineHistory>, s: Source, k: int, e: int) {
    && LateEdge(histories, s, k, e) && !HasTarget(paths, Leaving(histories[k], s)[e].child)
    && forall t :: HasTarget(paths, t) <==> t == s.anchors.timeline || ReachedUpTo(histories, s, t, k, e)
  }

  /** All connected targets, and the unconnected ones below one more of them. */
  ghost predicate StoppedAtTarget(paths: seq<RecoveryPath>, histories: seq<TimelineHistory>, s: Source, next: U32) {
    && Unconnected(histories, s, next)
    && forall t: U32 :: HasTarget(paths, t) <==>
         t == s.anchors.timeline || Reached(histories, s, t) || (Unconnected(histories, s, t) && t < next)
  }

  /** Targets are taken in the order of the histories and their edges, then the unconnected ones, ascending. */
  ghost predicate StopsBeforeOne(paths: seq<RecoveryPath>, histories: seq<TimelineHistory>, s: Source) {
    (exists k, e :: StoppedAtEdge(paths, histories, s, k, e)) || (exists t :: StoppedAtTarget(paths, histories, s, t))
  }

  /** A list cut short by the ceiling: rightful entries for the first targets, then one unknown path for the next. */
  ghost predicate CutShort(paths: seq<RecoveryPath>, histories: seq<TimelineHistory>, s: Source) {
    paths != []
    && var n := |paths| - 1;
       paths[n] == UnknownPath(s.backup, PathLimit)
       && Sorting.Comparable(TargetBefore, paths[..n])
       && (forall k :: 0 <= k < n ==> Rightful(paths[k], histories, s))
       && StopsBeforeOne(paths[..n], histories, s)
  }

  lemma TargetSnoc(paths: seq<RecoveryPath>, p: RecoveryPath)
    ensures forall t :: HasTarget(paths + [p], t) <==> HasTarget(paths, t) || t == p.target
    ensures Sorting.Comparable(TargetBefore, paths) && !HasTarget(paths, p.target)
            ==> Sorting.Comparable(TargetBefore, paths + [p])
  {
    var all := paths + [p];
    assert all[|paths|] == p;
    forall t: U32 | HasTarget(paths, t) ensures HasTarget(all, t) {
      var k :| 0 <= k < |paths| && paths[k].target == t;
      assert all[k] == paths[k];
    }
  }

  // ---------------------------------------------------------------- following the histories one edge at a time

  /** Reached by the first `k` histories, or by the first `e` edges of the next one. */
  ghost predicate ReachedUpTo(histories: seq<TimelineHistory>, s: Source, target: U32, k: int, e: int) {
    exists j, i :: ReachedBy(histories, s, target, j, i) && (j < k || (j == k && i < e))
  }

  ghost predicate SkippedUpTo(histories: seq<TimelineHistory>, s: Source, target: U32, k: int) {
    exists j, i :: SkippedBy(histories, s, target, j, i) && j < k
  }

  ghost predicate FollowsUpTo(paths: seq<RecoveryPath>, histories: seq<TimelineHistory>, s: Source, k: int, e: int) {
    && (forall i :: 0 <= i < |paths| ==> Genuine(paths[i], histories, s))
    && (forall t :: HasTarget(paths, t) <==> t == s.anchors.timeline || ReachedUpTo(histories, s, t, k, e))
    && Sorting.Comparable(TargetBefore, paths)
  }

  lemma FollowStart(histories: seq<TimelineHistory>, s: Source)
    ensures FollowsUpTo([Evaluated(s, s.anchors.timeline, [])], histories, s, 0, 0)
  {
    var own := Evaluated(s, s.anchors.timeline, []);
    EvaluateKeepsTarget(s.backup, s.wal, s.anchors.timeline, s.anchors.begin, s.anchors.end, s.anchors.timeline, []);
    assert [own][0].target == s.anchors.timeline;
    hide Evaluated, ReachedBy;
    assert forall t: U32 :: HasTarget([own], t) <==> t == s.anchors.timeline;
    forall t: U32 ensures !ReachedUpTo(histories, s, t, 0, 0) {
      NothingReachedYet(histories, s, t);
    }
  }

  lemma NothingReachedYet(histories: seq<TimelineHistory>, s: Source, t: U32)
    ensures !ReachedUpTo(histories, s, t, 0, 0)
  {
    hide Leaving, BranchesEarly;
  }

  /** One more edge: its child becomes a target, unless it already is one. */
  lemma FollowStep(paths: seq<RecoveryPath>, histories: seq<TimelineHistory>, s: Source, k: int, e: int) returns (next: RecoveryPath)
    requires FollowsUpTo(paths, histories, s, k, e) && LateEdge(histories, s, k, e)
    ensures next == Evaluated(s, Leaving(histories[k], s)[e].child, Leaving(histories[k], s)[..e + 1])
    ensures Genuine(next, histories, s) && next.target == Leaving(histories[k], s)[e].child
    ensures if HasTarget(paths, Leaving(histories[k], s)[e].child) then FollowsUpTo(paths, histories, s, k, e + 1)
            else FollowsUpTo(paths + [next], histories, s, k, e + 1)
  {
    var target := Leaving(histories[k], s)[e].child;
    next := Evaluated(s, target, Leaving(histories[k], s)[..e + 1]);
    EvaluateKeepsTarget(s.backup, s.wal, s.anchors.timeline, s.anchors.begin, s.anchors.end, target, Leaving(histories[k], s)[..e + 1]);
    TargetSnoc(paths, next);
    ReachedOneMore(histories, s, k, e);
    assert next.target == target && ReachedBy(histories, s, target, k, e);
    hide Evaluated, Leaving, BranchesEarly, HasTarget, ReachedUpTo;
  }

  lemma ReachedOneMore(histories: seq<TimelineHistory>, s: Source, k: int, e: int)
    requires LateEdge(histories, s, k, e)
    ensures forall t :: ReachedUpTo(histories, s, t, k, e + 1) <==>
              ReachedUpTo(histories, s, t, k, e) || t == Leaving(histories[k], s)[e].child
  {
    hide Leaving, BranchesEarly;
    var target := Leaving(histories[k], s)[e].child;
    assert ReachedBy(histories, s, target, k, e);
    forall t: U32 | ReachedUpTo(histories, s, t, k, e + 1)
      ensures ReachedUpTo(histories, s, t, k, e) || t == target
    {
      var j, i :| ReachedBy(histories, s, t, j, i) && (j < k || (j == k && i < e + 1));
      assert j == k && i == e ==> t == target;
    }
  }

  /** A finished or inapplicable history leaves the walk where the next one starts. */
  lemma ReachedNextHistory(histories: seq<TimelineHistory>, s: Source, k: int, e: int)
    requires 0 <= k < |histories| && (BranchesEarly(histories[k], s) || e >= |Leaving(histories[k], s)|)
    ensures forall t :: ReachedUpTo(histories, s, t, k + 1, 0) <==> ReachedUpTo(histories, s, t, k, e)
  {
    hide Leaving, BranchesEarly;
  }

  lemma SkippedNextHistory(histories: seq<TimelineHistory>, s: Source, k: int)
    requires 0 <= k < |histories|
    ensures forall t :: SkippedUpTo(histories, s, t, k + 1) <==>
              SkippedUpTo(histories, s, t, k)
              || SkippedIn(histories, s, t, k)
  {
    hide Leaving, BranchesEarly;
  }

  /** The evaluated paths a whole history adds. */
  method FollowHistory(s: Source, edges: seq<HistoryEdge>, before: seq<RecoveryPath>, seenBefore: set<U32>, taken: nat,
                       ghost histories: seq<TimelineHistory>, ghost k: int)
    returns (paths: seq<RecoveryPath>, seen: set<U32>, capped: bool)
    requires 0 <= k < |histories| && edges == Leaving(histories[k], s) && !BranchesEarly(histories[k], s)
    requires FollowsUpTo(before, histories, s, k, 0)
    requires forall t :: t in seenBefore <==> HasTarget(before, t)
    requires before != [] && WithinCeiling(taken, |before|, false)
    ensures paths != [] && WithinCeiling(taken, |paths|, capped)
    ensures !capped ==> FollowsUpTo(paths, histories, s, k + 1, 0) && forall t :: t in seen <==> HasTarget(paths, t)
    ensures capped ==> CutShort(paths, histories, s)
  {
    hide Leaving, BranchesEarly, ReachedUpTo, HasTarget, Genuine, EvaluatePath, UnconnectedPath, Unconnected;
    paths, seen, capped := before, seenBefore, false;
    for e := 0 to |edges|
      invariant paths != [] && WithinCeiling(taken, |paths|, false)
      invariant FollowsUpTo(paths, histories, s, k, e)
      invariant forall t :: t in seen <==> HasTarget(paths, t)
    {
      var target := edges[e].child;
      assert LateEdge(histories, s, k, e);
      ghost var next := FollowStep(paths, histories, s, k, e);
      if target in seen {
        continue;
      }
      seen := seen + {target};
      var path := EvaluateRecoveryPath(s.backup, s.wal, s.anchors.timeline, s.anchors.begin, s.anchors.end, target, edges[..e + 1]);
      assert path == next;
      TargetSnoc(paths, next);
      if taken + |paths| + 1 >= MAX_RECOVERY_PATHS {
        StopAtEdge(paths, histories, s, k, e);
        return paths + [UnknownPath(s.backup, PathLimit)], seen, true;
      }
      paths := paths + [path];
    }
    ReachedNextHistory(histories, s, k, |edges|);
  }

  lemma StopAtEdge(paths: seq<RecoveryPath>, histories: seq<TimelineHistory>, s: Source, k: int, e: int)
    requires FollowsUpTo(paths, histories, s, k, e) && LateEdge(histories, s, k, e)
    requires !HasTarget(paths, Leaving(histories[k], s)[e].child)
    ensures CutShort(paths + [UnknownPath(s.backup, PathLimit)], histories, s)
  {
    hide Leaving, BranchesEarly, ReachedUpTo, HasTarget, Genuine, Unconnected;
    assert StoppedAtEdge(paths, histories, s, k, e);
    assert (paths + [UnknownPath(s.backup, PathLimit)])[..|paths|] == paths;
  }

  /** Every healthy history, in order: which targets are reached, and which lie on early branches. */
  method FollowHistories(s: Source, histories: seq<TimelineHistory>, taken: nat)
    returns (paths: seq<RecoveryPath>, seen: set<U32>, skipped: set<U32>, capped: bool)
    ensures paths != [] && WithinCeiling(taken, |paths|, capped)
    ensures !capped ==> Follows(paths, histories, s) && forall t :: t in seen <==> HasTarget(paths, t)
    ensures !capped ==> forall t :: t in skipped <==> Skipped(histories, s, t)
    ensures capped ==> CutShort(paths, histories, s)
  {
    hide Leaving, BranchesEarly, EvaluatePath, HasTarget, CutShort, SkippedUpTo, Skipped, Follows, FollowsUpTo, Children;
    var own := EvaluateRecoveryPath(s.backup, s.wal, s.anchors.timeline, s.anchors.begin, s.anchors.end, s.anchors.timeline, []);
    paths, seen, skipped, capped := [own], {s.anchors.timeline}, {}, false;
    FollowStart(histories, s);
    OwnTarget(s, own);
    NothingSkippedYet(histories, s);
    for k := 0 to |histories|
      invariant paths != [] && WithinCeiling(taken, |paths|, false)
      invariant FollowsUpTo(paths, histories, s, k, 0)
      invariant forall t :: t in seen <==> HasTarget(paths, t)
      invariant forall t :: t in skipped <==> SkippedUpTo(histories, s, t, k)
    {
      var edges := Leaving(histories[k], s);
      SkipHistory(paths, histories, s, k);
      if BranchesEarly(histories[k], s) {
        skipped := skipped + Children(edges);
      } else {
        paths, seen, capped := FollowHistory(s, edges, paths, seen, taken, histories, k);
        if capped {
          return;
        }
      }
    }
    AllReached(paths, histories, s);
  }

  lemma NothingSkippedYet(histories: seq<TimelineHistory>, s: Source)
    ensures forall t :: !SkippedUpTo(histories, s, t, 0)
  {
    hide Leaving, BranchesEarly;
  }

  /** An early branch only adds to what is skipped; any other history adds nothing to it. */
  lemma SkipHistory(paths: seq<RecoveryPath>, histories: seq<TimelineHistory>, s: Source, k: int)
    requires 0 <= k < |histories| && FollowsUpTo(paths, histories, s, k, 0)
    ensures BranchesEarly(histories[k], s) ==> FollowsUpTo(paths, histories, s, k + 1, 0)
    ensures forall t :: SkippedUpTo(histories, s, t, k + 1) <==>
              SkippedUpTo(histories, s, t, k) || (BranchesEarly(histories[k], s) && t in Children(Leaving(histories[k], s)))
  {
    hide Leaving, BranchesEarly, SkippedUpTo, Children, FollowsUpTo;
    SkippedNextHistory(histories, s, k);
    forall t: U32 ensures SkippedIn(histories, s, t, k) <==> BranchesEarly(histories[k], s) && t in Children(Leaving(histories[k], s)) {
      SkippedChildren(histories, s, k, t);
    }
    hide SkippedIn;
    if BranchesEarly(histories[k], s) {
      ReachedNextHistory(histories, s, k, 0);
      SameReach(paths, histories, s, k);
    }
  }

  lemma OwnTarget(s: Source, own: RecoveryPath)
    requires own == Evaluated(s, s.anchors.timeline, [])
    ensures forall t :: HasTarget([own], t) <==> t == s.anchors.timeline
  {
    EvaluateKeepsTarget(s.backup, s.wal, s.anchors.timeline, s.anchors.begin, s.anchors.end, s.anchors.timeline, []);
    assert [own][0].target == s.anchors.timeline;
    hide EvaluatePath;
  }

  ghost predicate SkippedIn(histories: seq<TimelineHistory>, s: Source, target: U32, k: int) {
    exists e :: SkippedBy(histories, s, target, k, e)
  }

  lemma SkippedChildren(histories: seq<TimelineHistory>, s: Source, k: int, t: U32)
    requires 0 <= k < |histories|
    ensures SkippedIn(histories, s, t, k) <==> BranchesEarly(histories[k], s) && t in Children(Leaving(histories[k], s))
  {
    var edges := Leaving(histories[k], s);
    hide Leaving, BranchesEarly;
    if BranchesEarly(histories[k], s) && t in Children(edges) {
      var e :| 0 <= e < |edges| && edges[e].child == t;
      assert SkippedBy(histories, s, t, k, e);
    }
    if SkippedIn(histories, s, t, k) {
      var e :| SkippedBy(histories, s, t, k, e);
      assert edges[e].child in Children(edges);
    }
  }

  lemma SameReach(paths: seq<RecoveryPath>, histories: seq<TimelineHistory>, s: Source, k: int)
    requires FollowsUpTo(paths, histories, s, k, 0)
    requires forall t :: ReachedUpTo(histories, s, t, k + 1, 0) <==> ReachedUpTo(histories, s, t, k, 0)
    ensures FollowsUpTo(paths, histories, s, k + 1, 0)
  {
    hide Genuine, ReachedUpTo, HasTarget;
  }

  lemma AllReached(paths: seq<RecoveryPath>, histories: seq<TimelineHistory>, s: Source)
    requires FollowsUpTo(paths, histories, s, |histories|, 0)
    ensures Follows(paths, histories, s)
    ensures forall t :: SkippedUpTo(histories, s, t, |histories|) <==> Skipped(histories, s, t)
  {
    hide Genuine, HasTarget, Leaving, BranchesEarly;
    forall t: U32 ensures ReachedUpTo(histories, s, t, |histories|, 0) <==> Reached(histories, s, t) {
    }
  }

  // ---------------------------------------------------------------- observed targets nothing connects

  function ObservedTimelines(s: Source): set<U32> {
    set k | 0 <= k < |s.wal.ranges| :: s.wal.ranges[k].timeline
  }

  /** The later observed timelines nothing accounts for, ascending. */
  method UnconnectedTargets(s: Source, histories: seq<TimelineHistory>, ghost paths: seq<RecoveryPath>, seen: set<U32>, skipped: set<U32>)
    returns (targets: seq<U32>)
    requires Follows(paths, histories, s) && forall t :: t in seen <==> HasTarget(paths, t)
    requires forall t :: t in skipped <==> Skipped(histories, s, t)
    ensures forall i, j :: 0 <= i < j < |targets| ==> targets[i] < targets[j]
    ensures forall t :: t in targets <==> Unconnected(histories, s, t)
  {
    hide Genuine, HasTarget, Skipped, Reached, Sorting.Comparable;
    var observed := ObservedTimelines(s);
    assert forall t: U32 :: t in observed <==> HasRange(s.wal.ranges, t);
    targets := Histories.Ascending(set t | t in observed && t > s.anchors.timeline && t !in seen && t !in skipped);
  }

  /** A list so far, with the first `n` unconnected targets appended. */
  ghost predicate ConnectedUpTo(paths: seq<RecoveryPath>, histories: seq<TimelineHistory>, s: Source, targets: seq<U32>, n: int)
    requires 0 <= n <= |targets|
  {
    && (forall k :: 0 <= k < |paths| ==> Rightful(paths[k], histories, s))
    && (forall t :: HasTarget(paths, t) <==> t == s.anchors.timeline || Reached(histories, s, t) || t in targets[..n])
    && Sorting.Comparable(TargetBefore, paths)
  }

  lemma ConnectStep(paths: seq<RecoveryPath>, histories: seq<TimelineHistory>, s: Source, targets: seq<U32>, n: int)
    requires 0 <= n < |targets| && ConnectedUpTo(paths, histories, s, targets, n)
    requires forall i, j :: 0 <= i < j < |targets| ==> targets[i] < targets[j]
    requires Unconnected(histories, s, targets[n])
    ensures var next := UnconnectedPath(s, targets[n]);
            Rightful(next, histories, s) && ConnectedUpTo(paths + [next], histories, s, targets, n + 1)
  {
    var next := UnconnectedPath(s, targets[n]);
    hide Genuine, HasTarget, Reached;
    TargetSnoc(paths, next);
    assert targets[..n + 1] == targets[..n] + [targets[n]];
  }

  lemma StopAtTarget(paths: seq<RecoveryPath>, histories: seq<TimelineHistory>, s: Source, targets: seq<U32>, n: int)
    requires 0 <= n < |targets| && ConnectedUpTo(paths, histories, s, targets, n)
    requires forall i, j :: 0 <= i < j < |targets| ==> targets[i] < targets[j]
    requires forall t :: t in targets <==> Unconnected(histories, s, t)
    ensures CutShort(paths + [UnknownPath(s.backup, PathLimit)], histories, s)
  {
    hide HasTarget, Reached, Unconnected, Rightful, StoppedAtEdge;
    forall t: U32 ensures t in targets[..n] <==> t in targets && t < targets[n] {
      BelowMember(targets, n, t);
    }
    assert targets[n] in targets;
    assert StoppedAtTarget(paths, histories, s, targets[n]);
    assert (paths + [UnknownPath(s.backup, PathLimit)])[..|paths|] == paths;
  }

  lemma BelowMember(targets: seq<U32>, n: int, t: U32)
    requires 0 <= n < |targets| && forall i, j :: 0 <= i < j < |targets| ==> targets[i] < targets[j]
    ensures t in targets[..n] <==> t in targets && t < targets[n]
  {
    if t in targets && t < targets[n] {
      var i :| 0 <= i < |targets| && targets[i] == t;
      assert i < n && targets[..n][i] == t;
    }
  }

  // ---------------------------------------------------------------- how many targets a backup has

  /** The backup's own timeline, and every later one that is reached or unconnected. */
  ghost function Targets(histories: seq<TimelineHistory>, s: Source): set<U32> {
    set t: U32 | 0 <= t < 0x1_0000_0000 && (t == s.anchors.timeline || Reached(histories, s, t) || Unconnected(histories, s, t))
  }

  function TargetSet(paths: seq<RecoveryPath>): set<U32> {
    set k | 0 <= k < |paths| :: paths[k].target
  }

  lemma {:induction false} TargetSetSize(paths: seq<RecoveryPath>)
    requires Sorting.Comparable(TargetBefore, paths)
    ensures |TargetSet(paths)| == |paths|
  {
    if paths != [] {
      var n := |paths| - 1;
      TargetSetSize(paths[..n]);
      assert TargetSet(paths) == TargetSet(paths[..n]) + {paths[n].target};
      assert forall k :: 0 <= k < n ==> TargetBefore(paths[k], paths[n]) || TargetBefore(paths[n], paths[k]);
    }
  }

  lemma {:induction false} SubsetSize<T>(a: set<T>, b: set<T>)
    requires a <= b
    ensures |a| <= |b|
  {
    if a != {} {
      var x :| x in a;
      SubsetSize(a - {x}, b - {x});
    }
  }

  lemma CompleteLength(paths: seq<RecoveryPath>, histories: seq<TimelineHistory>, s: Source)
    requires Complete(paths, histories, s)
    ensures |paths| == |Targets(histories, s)|
  {
    hide Rightful, Reached, Unconnected, Sorting.Comparable;
    TargetSetSize(paths);
    forall t: U32 ensures t in TargetSet(paths) <==> HasTarget(paths, t) {
    }
    assert TargetSet(paths) == Targets(histories, s);
  }

  /** A list that stops short leaves out at least the target it stopped at. */
  lemma ShortLength(paths: seq<RecoveryPath>, histories: seq<TimelineHistory>, s: Source)
    requires StopsBeforeOne(paths, histories, s) && Sorting.Comparable(TargetBefore, paths)
    ensures |paths| < |Targets(histories, s)|
  {
    hide Unconnected, Leaving, BranchesEarly, Sorting.Comparable;
    TargetSetSize(paths);
    forall t: U32 ensures t in TargetSet(paths) <==> HasTarget(paths, t) {
    }
    var next: U32;
    if k, e :| StoppedAtEdge(paths, histories, s, k, e) {
      next := Leaving(histories[k], s)[e].child;
      assert ReachedBy(histories, s, next, k, e);
      forall t: U32 | ReachedUpTo(histories, s, t, k, e) ensures Reached(histories, s, t) {
      }
    } else {
      next :| StoppedAtTarget(paths, histories, s, next);
      NotBelowItself(paths, histories, s, next);
    }
    hide HasTarget, Reached, ReachedUpTo;
    assert next !in TargetSet(paths);
    SubsetSize(TargetSet(paths) + {next}, Targets(histories, s));
  }

  lemma NotBelowItself(paths: seq<RecoveryPath>, histories: seq<TimelineHistory>, s: Source, next: U32)
    requires StoppedAtTarget(paths, histories, s, next)
    ensures !HasTarget(paths, next)
  {
    hide HasTarget, Leaving, BranchesEarly;
  }

  /** `recoveryPaths`, the part for one backup with usable anchors. */
  method BackupPaths(s: Source, histories: seq<TimelineHistory>, taken: nat) returns (paths: seq<RecoveryPath>, capped: bool)
    ensures capped <==> Overfills(taken, |Targets(histories, s)|)
    ensures !capped ==> Complete(paths, histories, s) && |paths| == |Targets(histories, s)|
    ensures capped ==> |paths| == CutLength(taken)
    ensures capped ==> CutShort(paths, histories, s)
  {
    hide Rightful, HasTarget, Reached, Skipped, Unconnected, UnconnectedPath, StopsBeforeOne, Targets, Follows;
    var seen, skipped;
    paths, seen, skipped, capped := FollowHistories(s, histories, taken);
    if capped {
      ShortLength(paths[..|paths| - 1], histories, s);
      return;
    }
    var targets := UnconnectedTargets(s, histories, paths, seen, skipped);
    assert targets[..|targets|] == targets;
    NoneConnectedYet(paths, histories, s, targets);
    for n := 0 to |targets|
      invariant paths != [] && WithinCeiling(taken, |paths|, false)
      invariant ConnectedUpTo(paths, histories, s, targets, n)
    {
      ConnectStep(paths, histories, s, targets, n);
      if taken + |paths| + 1 >= MAX_RECOVERY_PATHS {
        StopAtTarget(paths, histories, s, targets, n);
        paths, capped := paths + [UnknownPath(s.backup, PathLimit)], true;
        ShortLength(paths[..|paths| - 1], histories, s);
        return;
      }
      paths := paths + [UnconnectedPath(s, targets[n])];
    }
    CompleteLength(paths, histories, s);
  }

  lemma NoneConnectedYet(paths: seq<RecoveryPath>, histories: seq<TimelineHistory>, s: Source, targets: seq<U32>)
    requires Follows(paths, histories, s)
    ensures ConnectedUpTo(paths, histories, s, targets, 0)
  {
    hide Genuine, HasTarget, Reached;
  }
}
