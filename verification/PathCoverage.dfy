// Observed coverage of one recovery path (recovery.go, evaluatePath).
module PathCoverage {
  import opened Results
  import opened WalNames
  import opened WalRanges
  import opened WalGaps
  import opened WalCatalog
  import opened RangeWalk
  import opened Timelines
  import opened Histories
  import opened Backups
  import Evidence

  datatype PathReason =
    | WalUnknown | Walked(reason: WalkReason) | SwitchNotObserved | InvalidAnchors | ConflictingSystemIds
    | NotConnected | PathLimit

  datatype RecoveryPath = RecoveryPath(
    server: string, backupId: string, target: U32, state: Evidence.State, reason: PathReason, stop: Stop, lowerBound: Time,
    startTimeline: U32, startPosition: U64, startWal: string,
    frontierTimeline: U32, frontierPosition: U64, frontierWal: string, frontierReceipt: Time)

  function UnknownPath(backup: Backup, reason: PathReason): RecoveryPath {
    RecoveryPath(backup.server, backup.id, 0, Evidence.Unknown, reason, UnknownLimited, backup.endAt, 0, 0, "", 0, 0, "", 0)
  }

  function StartedPath(backup: Backup, timeline: U32, start: U64, target: U32): RecoveryPath {
    RecoveryPath(backup.server, backup.id, target, Evidence.Unknown, WalUnknown, UnknownLimited, backup.endAt,
                 timeline, start, backup.beginWal, 0, 0, "", 0)
  }

  function AtFrontier(path: RecoveryPath, timeline: U32, walk: Walk, size: int): RecoveryPath {
    path.(frontierTimeline := timeline, frontierPosition := walk.position, frontierReceipt := walk.receipt,
          frontierWal := NameOr(timeline, walk.position, size))
  }

  function EndedBy(path: RecoveryPath, walk: Walk): RecoveryPath {
    path.(state := walk.state, stop := walk.stop, reason := Walked(walk.reason))
  }

  /** The legs over the switchpoints, and the final walk to the frontier of the target. */
  function Legs(path: RecoveryPath, wal: ServerWal, current: U32, position: U64, edges: seq<HistoryEdge>): RecoveryPath
    decreases |edges|
  {
    if edges == [] then
      var walk := ContiguousFrontier(wal.ranges, wal.gaps, current, position);
      EndedBy(AtFrontier(path, current, walk, wal.segmentSize), walk)
    else
      var edge := edges[0];
      var walk := ReachPosition(wal.ranges, wal.gaps, current, position, edge.switchPosition);
      var reached := AtFrontier(path, current, walk, wal.segmentSize);
      if walk.state != Evidence.Healthy then EndedBy(reached, walk)
      else if walk.position < edge.switchPosition || !Holds(wal.ranges, edge.child, edge.switchPosition) then
        reached.(state := Evidence.Unknown, stop := UnknownLimited, reason := SwitchNotObserved)
      else Legs(reached, wal, edge.child, edge.switchPosition, edges[1..])
  }

  function EvaluatePath(backup: Backup, wal: ServerWal, timeline: U32, start: U64, requiredEnd: U64, target: U32,
                        edges: seq<HistoryEdge>): RecoveryPath
  {
    var path := StartedPath(backup, timeline, start, target);
    if wal.state == Evidence.Unknown then path
    else
      var walk := ReachPosition(wal.ranges, wal.gaps, timeline, start, requiredEnd);
      var reached := AtFrontier(path, timeline, walk, wal.segmentSize);
      if walk.state != Evidence.Healthy then EndedBy(reached, walk)
      else Legs(reached, wal, timeline, requiredEnd, edges)
  }

  /** Whatever happens on the way, a path keeps the backup and target it was started for. */
  lemma {:induction false} LegsKeepTarget(path: RecoveryPath, wal: ServerWal, current: U32, position: U64, edges: seq<HistoryEdge>)
    ensures var p := Legs(path, wal, current, position, edges);
            p.target == path.target && p.backupId == path.backupId && p.server == path.server
    decreases |edges|
  {
    hide ReachPosition, ContiguousFrontier, Holds, NameOr;
    if edges != [] {
      var walk := ReachPosition(wal.ranges, wal.gaps, current, position, edges[0].switchPosition);
      LegsKeepTarget(AtFrontier(path, current, walk, wal.segmentSize), wal, edges[0].child, edges[0].switchPosition, edges[1..]);
    }
  }

  lemma EvaluateKeepsTarget(backup: Backup, wal: ServerWal, timeline: U32, start: U64, requiredEnd: U64, target: U32,
                            edges: seq<HistoryEdge>)
    ensures var p := EvaluatePath(backup, wal, timeline, start, requiredEnd, target, edges);
            p.target == target && p.backupId == backup.id && p.server == backup.server
  {
    hide ReachPosition, Legs, NameOr;
    var walk := ReachPosition(wal.ranges, wal.gaps, timeline, start, requiredEnd);
    var reached := AtFrontier(StartedPath(backup, timeline, start, target), timeline, walk, wal.segmentSize);
    LegsKeepTarget(reached, wal, timeline, requiredEnd, edges);
  }

  method EvaluateRecoveryPath(backup: Backup, wal: ServerWal, timeline: U32, start: U64, requiredEnd: U64, target: U32,
                              edges: seq<HistoryEdge>)
    returns (path: RecoveryPath)
    ensures path == EvaluatePath(backup, wal, timeline, start, requiredEnd, target, edges)
  {
    hide ReachPosition, ContiguousFrontier, Holds, NameOr;
    path := StartedPath(backup, timeline, start, target);
    if wal.state == Evidence.Unknown {
      return;
    }
    var current, position := timeline, start;
    var walk := WalkTo(wal.ranges, wal.gaps, current, position, requiredEnd);
    path := AtFrontier(path, current, walk, wal.segmentSize);
    if walk.state != Evidence.Healthy {
      path := EndedBy(path, walk);
      return;
    }
    position := requiredEnd;
    ghost var begun := path;
    for k := 0 to |edges|
      invariant Legs(begun, wal, timeline, requiredEnd, edges) == Legs(path, wal, current, position, edges[k..])
    {
      var edge := edges[k];
      assert edges[k..][1..] == edges[k + 1..];
      walk := WalkTo(wal.ranges, wal.gaps, current, position, edge.switchPosition);
      path := AtFrontier(path, current, walk, wal.segmentSize);
      if walk.state != Evidence.Healthy {
        path := EndedBy(path, walk);
        return;
      }
      if walk.position < edge.switchPosition || !Holds(wal.ranges, edge.child, edge.switchPosition) {
        path := path.(state := Evidence.Unknown, stop := UnknownLimited, reason := SwitchNotObserved);
        return;
      }
      current, position := edge.child, edge.switchPosition;
    }
    walk := WalkOn(wal.ranges, wal.gaps, current, position);
    path := AtFrontier(path, current, walk, wal.segmentSize);
    path := EndedBy(path, walk);
  }

  // ---------------------------------------------------------------- what a path says about itself

  /** The stop that goes with each state. */
  function StopOf(state: Evidence.State): Stop {
    match state
    case Healthy => Frontier
    case Warning => CandidateLimited
    case Unhealthy => GapLimited
    case Unknown => UnknownLimited
  }

  /** A receipt, where given, is that of the segment at this position: the last one of an observed range. */
  ghost predicate ReceiptAt(ranges: seq<WalRange>, timeline: U32, position: U64, receipt: Time) {
    receipt == 0 || exists r :: r in ranges && r.timeline == timeline && r.end == position && r.endReceipt == receipt
  }

  lemma {:induction false} WalkReceipts(ranges: seq<WalRange>, gaps: seq<WalGap>, start: U64, required: U64)
    ensures var walk := Reach(ranges, gaps, start, required);
            walk.stop == StopOf(walk.state)
            && (walk.receipt == 0 || exists r :: r in ranges && r.end == walk.position && r.endReceipt == walk.receipt)
    ensures var walk := Extend(ranges, gaps, start);
            walk.stop == StopOf(walk.state)
            && (walk.receipt == 0 || exists r :: r in ranges && r.end == walk.position && r.endReceipt == walk.receipt)
  {
    hide GapAfter;
    if ranges != [] && start > ranges[0].end {
      WalkReceipts(ranges[1..], gaps, start, required);
    } else if ranges != [] {
      assert ranges[0] in ranges;
    }
  }

  /** The frontier is named, its receipt is its own, and the stop tells the state. */
  ghost predicate Labelled(p: RecoveryPath, wal: ServerWal) {
    && p.frontierWal == NameOr(p.frontierTimeline, p.frontierPosition, wal.segmentSize)
    && ReceiptAt(wal.ranges, p.frontierTimeline, p.frontierPosition, p.frontierReceipt)
    && p.stop == StopOf(p.state)
  }

  lemma {:induction false} LegsLabelled(path: RecoveryPath, wal: ServerWal, current: U32, position: U64, edges: seq<HistoryEdge>)
    ensures Labelled(Legs(path, wal, current, position, edges), wal)
    decreases |edges|
  {
    hide Reach, Extend, Holds, NameOr;
    if edges == [] {
      WalkReceipts(RangesFor(wal.ranges, current), wal.gaps, position, position);
    } else {
      var edge := edges[0];
      WalkReceipts(RangesFor(wal.ranges, current), wal.gaps, position, edge.switchPosition);
      var walk := ReachPosition(wal.ranges, wal.gaps, current, position, edge.switchPosition);
      LegsLabelled(AtFrontier(path, current, walk, wal.segmentSize), wal, edge.child, edge.switchPosition, edges[1..]);
    }
  }

  /** Every path walked over known WAL is labelled by where its walk ended. */
  lemma EvaluateLabelled(backup: Backup, wal: ServerWal, timeline: U32, start: U64, requiredEnd: U64, target: U32,
                         edges: seq<HistoryEdge>)
    requires wal.state != Evidence.Unknown
    ensures Labelled(EvaluatePath(backup, wal, timeline, start, requiredEnd, target, edges), wal)
  {
    hide Reach, Legs, NameOr;
    WalkReceipts(RangesFor(wal.ranges, timeline), wal.gaps, start, requiredEnd);
    var walk := ReachPosition(wal.ranges, wal.gaps, timeline, start, requiredEnd);
    LegsLabelled(AtFrontier(StartedPath(backup, timeline, start, target), timeline, walk, wal.segmentSize), wal, timeline,
                 requiredEnd, edges);
  }

  // ---------------------------------------------------------------- coverage, position by position

  ghost predicate ObservedAll(ranges: seq<WalRange>, timeline: U32, start: int, end: int) {
    forall p :: start <= p <= end ==> Observed(ranges, timeline, p)
  }

  /** Everything from the start up to the greatest observed position of the timeline is observed, and something is. */
  ghost predicate ToFrontier(ranges: seq<WalRange>, timeline: U32, start: int) {
    Observed(ranges, timeline, start)
    && forall p, b :: start <= p <= b && Observed(ranges, timeline, b) ==> Observed(ranges, timeline, p)
  }

  /** Every leg is observed, and every switch segment is observed on the child it leads to. */
  ghost predicate LegsCovered(ranges: seq<WalRange>, current: U32, position: int, edges: seq<HistoryEdge>)
    decreases |edges|
  {
    if edges == [] then ToFrontier(ranges, current, position)
    else
      ObservedAll(ranges, current, position, Max(position, edges[0].switchPosition))
      && Observed(ranges, edges[0].child, edges[0].switchPosition)
      && LegsCovered(ranges, edges[0].child, edges[0].switchPosition, edges[1..])
  }

  function LastTimeline(current: U32, edges: seq<HistoryEdge>): U32 {
    if edges == [] then current else edges[|edges| - 1].child
  }

  lemma ReachCovers(ranges: seq<WalRange>, gaps: seq<WalGap>, timeline: U32, start: U64, required: U64)
    requires Canonical(ranges)
    ensures var walk := ReachPosition(ranges, gaps, timeline, start, required);
            (walk.state == Evidence.Healthy <==> ObservedAll(ranges, timeline, start, Max(start, required)))
            && (walk.state == Evidence.Healthy ==> walk.position == required)
  {
    SelectedRanges(ranges, timeline);
    ReachRefines(RangesFor(ranges, timeline), gaps, timeline, start, required);
    hide In, Observed, Reach;
  }

  lemma ExtendCovers(ranges: seq<WalRange>, gaps: seq<WalGap>, timeline: U32, start: U64)
    requires Canonical(ranges)
    ensures var walk := ContiguousFrontier(ranges, gaps, timeline, start);
            (walk.state == Evidence.Healthy <==> ToFrontier(ranges, timeline, start))
            && (walk.state == Evidence.Healthy ==>
                  Observed(ranges, timeline, walk.position) && forall p :: Observed(ranges, timeline, p) ==> p <= walk.position)
  {
    SelectedRanges(ranges, timeline);
    ExtendRefines(RangesFor(ranges, timeline), gaps, timeline, start);
    hide In, Observed, Extend;
  }

  lemma HoldsIsObserved(ranges: seq<WalRange>, timeline: U32, position: int)
    ensures Holds(ranges, timeline, position) <==> Observed(ranges, timeline, position)
  {
  }

  lemma {:induction false} LegsHealthyIff(path: RecoveryPath, wal: ServerWal, current: U32, position: U64, edges: seq<HistoryEdge>)
    requires Canonical(wal.ranges)
    ensures var p := Legs(path, wal, current, position, edges);
            && (p.state == Evidence.Healthy <==> LegsCovered(wal.ranges, current, position, edges))
            && (p.state == Evidence.Healthy ==>
                  p.frontierTimeline == LastTimeline(current, edges)
                  && Observed(wal.ranges, p.frontierTimeline, p.frontierPosition)
                  && forall q :: Observed(wal.ranges, p.frontierTimeline, q) ==> q <= p.frontierPosition)
    decreases |edges|
  {
    hide ReachPosition, ContiguousFrontier, Holds, NameOr, Canonical, ObservedAll, ToFrontier, Observed;
    if edges == [] {
      ExtendCovers(wal.ranges, wal.gaps, current, position);
    } else {
      var edge := edges[0];
      ReachCovers(wal.ranges, wal.gaps, current, position, edge.switchPosition);
      HoldsIsObserved(wal.ranges, edge.child, edge.switchPosition);
      var walk := ReachPosition(wal.ranges, wal.gaps, current, position, edge.switchPosition);
      var reached := AtFrontier(path, current, walk, wal.segmentSize);
      LegsHealthyIff(reached, wal, edge.child, edge.switchPosition, edges[1..]);
    }
  }

  /**
   * A path is healthy exactly when WAL evidence is not unknown and every position of every leg is observed, each
   * switch segment also on its child; its frontier is then the greatest observed position of the last timeline.
   */
  lemma PathHealthyIff(backup: Backup, wal: ServerWal, timeline: U32, start: U64, requiredEnd: U64, target: U32,
                       edges: seq<HistoryEdge>)
    requires Canonical(wal.ranges)
    ensures var p := EvaluatePath(backup, wal, timeline, start, requiredEnd, target, edges);
            && (p.state == Evidence.Healthy <==>
                  wal.state != Evidence.Unknown
                  && ObservedAll(wal.ranges, timeline, start, Max(start, requiredEnd))
                  && LegsCovered(wal.ranges, timeline, requiredEnd, edges))
            && (p.state == Evidence.Healthy ==>
                  p.frontierTimeline == LastTimeline(timeline, edges)
                  && Observed(wal.ranges, p.frontierTimeline, p.frontierPosition)
                  && forall q :: Observed(wal.ranges, p.frontierTimeline, q) ==> q <= p.frontierPosition)
  {
    hide ReachPosition, Legs, NameOr, Canonical, ObservedAll, LegsCovered, Observed;
    ReachCovers(wal.ranges, wal.gaps, timeline, start, requiredEnd);
    var walk := ReachPosition(wal.ranges, wal.gaps, timeline, start, requiredEnd);
    var reached := AtFrontier(StartedPath(backup, timeline, start, target), timeline, walk, wal.segmentSize);
    LegsHealthyIff(reached, wal, timeline, requiredEnd, edges);
  }

  // ---------------------------------------------------------------- where an unhealthy path stops

  ghost predicate GapAt(gaps: seq<WalGap>, timeline: U32, position: int, status: GapStatus) {
    exists g :: g in gaps && g.timeline == timeline && g.start == position && g.status == status
  }

  predicate StopState(state: Evidence.State) {
    state == Evidence.Warning || state == Evidence.Unhealthy
  }

  function StatusBehind(state: Evidence.State): GapStatus {
    if state == Evidence.Warning then Candidate else Confirmed
  }

  /** Observed from here up to the frontier, where a gap of the right status starts. */
  ghost predicate StopsHere(ranges: seq<WalRange>, gaps: seq<WalGap>, current: U32, position: int, timeline: U32, frontier: int,
                            status: GapStatus)
  {
    timeline == current && position <= frontier && ObservedAll(ranges, current, position, frontier)
    && GapAt(gaps, current, frontier + 1, status)
  }

  /** Some number of complete legs, then a stop at a gap. */
  ghost predicate StopsOnLeg(ranges: seq<WalRange>, gaps: seq<WalGap>, current: U32, position: int, edges: seq<HistoryEdge>,
                             timeline: U32, frontier: int, status: GapStatus)
    decreases |edges|
  {
    StopsHere(ranges, gaps, current, position, timeline, frontier, status)
    || (edges != []
        && ObservedAll(ranges, current, position, Max(position, edges[0].switchPosition))
        && Observed(ranges, edges[0].child, edges[0].switchPosition)
        && StopsOnLeg(ranges, gaps, edges[0].child, edges[0].switchPosition, edges[1..], timeline, frontier, status))
  }

  ghost predicate BelowTop(ranges: seq<WalRange>) {
    forall k :: 0 <= k < |ranges| ==> ranges[k].end < MAX_UINT64
  }

  /** A short walk in state Warning or Unhealthy ends right before a candidate or confirmed gap. */
  lemma ShortWalkStops(ranges: seq<WalRange>, gaps: seq<WalGap>, timeline: U32, start: U64, walk: Walk, last: WalkReason)
    requires Canonical(ranges) && BelowTop(ranges) && StopState(walk.state)
    requires RunEnd(RangesFor(ranges, timeline), start, walk.position)
    requires StopsShort(walk, RangesFor(ranges, timeline), gaps, timeline, last)
    ensures StopsHere(ranges, gaps, timeline, start, timeline, walk.position, StatusBehind(walk.state))
  {
    hide In, Observed, Canonical, BelowTop, RangesFor, GapAfter, Separated;
    SelectedRanges(ranges, timeline);
    assert Observed(ranges, timeline, walk.position);
    ObservedBelowTop(ranges, timeline, walk.position);
    var gap := GapAfter(gaps, timeline, walk.position);
    assert gap.Some? && gap.value in gaps && gap.value.start == walk.position + 1;
  }

  lemma ObservedBelowTop(ranges: seq<WalRange>, timeline: U32, position: int)
    requires BelowTop(ranges) && Observed(ranges, timeline, position)
    ensures position < MAX_UINT64
  {
  }

  lemma ReachStops(ranges: seq<WalRange>, gaps: seq<WalGap>, timeline: U32, start: U64, required: U64)
    requires Canonical(ranges) && BelowTop(ranges)
    ensures var walk := ReachPosition(ranges, gaps, timeline, start, required);
            StopState(walk.state) ==>
              StopsHere(ranges, gaps, timeline, start, timeline, walk.position, StatusBehind(walk.state))
  {
    SelectedRanges(ranges, timeline);
    ReachRefines(RangesFor(ranges, timeline), gaps, timeline, start, required);
    hide In, Observed, Reach, StopsHere, StopsShort, RunEnd, AllIn;
    var walk := ReachPosition(ranges, gaps, timeline, start, required);
    if StopState(walk.state) {
      ShortWalkStops(ranges, gaps, timeline, start, walk, ConsistencyNotObserved);
    }
  }

  lemma ExtendStops(ranges: seq<WalRange>, gaps: seq<WalGap>, timeline: U32, start: U64)
    requires Canonical(ranges) && BelowTop(ranges)
    ensures var walk := ContiguousFrontier(ranges, gaps, timeline, start);
            StopState(walk.state) ==>
              StopsHere(ranges, gaps, timeline, start, timeline, walk.position, StatusBehind(walk.state))
  {
    SelectedRanges(ranges, timeline);
    ExtendRefines(RangesFor(ranges, timeline), gaps, timeline, start);
    hide In, Observed, Extend, StopsHere, StopsShort, RunEnd;
    var walk := ContiguousFrontier(ranges, gaps, timeline, start);
    if StopState(walk.state) {
      ShortWalkStops(ranges, gaps, timeline, start, walk, ReachesFrontier);
    }
  }

  lemma {:induction false} LegsStop(path: RecoveryPath, wal: ServerWal, current: U32, position: U64, edges: seq<HistoryEdge>)
    requires Canonical(wal.ranges) && BelowTop(wal.ranges)
    ensures var p := Legs(path, wal, current, position, edges);
            StopState(p.state) ==>
              StopsOnLeg(wal.ranges, wal.gaps, current, position, edges, p.frontierTimeline, p.frontierPosition, StatusBehind(p.state))
    decreases |edges|
  {
    hide ReachPosition, ContiguousFrontier, Holds, NameOr, Canonical, ObservedAll, StopsHere, Observed, BelowTop;
    if edges == [] {
      ExtendStops(wal.ranges, wal.gaps, current, position);
    } else {
      var edge := edges[0];
      ReachStops(wal.ranges, wal.gaps, current, position, edge.switchPosition);
      ReachCovers(wal.ranges, wal.gaps, current, position, edge.switchPosition);
      HoldsIsObserved(wal.ranges, edge.child, edge.switchPosition);
      var walk := ReachPosition(wal.ranges, wal.gaps, current, position, edge.switchPosition);
      var reached := AtFrontier(path, current, walk, wal.segmentSize);
      LegsStop(reached, wal, edge.child, edge.switchPosition, edges[1..]);
    }
  }

  /** A path in state Warning or Unhealthy is observed up to its frontier, and the gap that stops it starts right after. */
  lemma PathStopsAtGap(backup: Backup, wal: ServerWal, timeline: U32, start: U64, requiredEnd: U64, target: U32,
                       edges: seq<HistoryEdge>)
    requires Canonical(wal.ranges) && BelowTop(wal.ranges)
    ensures var p := EvaluatePath(backup, wal, timeline, start, requiredEnd, target, edges);
            StopState(p.state) ==>
              var status := StatusBehind(p.state);
              StopsHere(wal.ranges, wal.gaps, timeline, start, p.frontierTimeline, p.frontierPosition, status)
              || (ObservedAll(wal.ranges, timeline, start, Max(start, requiredEnd))
                  && StopsOnLeg(wal.ranges, wal.gaps, timeline, requiredEnd, edges, p.frontierTimeline, p.frontierPosition, status))
  {
    hide ReachPosition, Legs, NameOr, Canonical, ObservedAll, StopsHere, StopsOnLeg, BelowTop;
    ReachStops(wal.ranges, wal.gaps, timeline, start, requiredEnd);
    ReachCovers(wal.ranges, wal.gaps, timeline, start, requiredEnd);
    var walk := ReachPosition(wal.ranges, wal.gaps, timeline, start, requiredEnd);
    var reached := AtFrontier(StartedPath(backup, timeline, start, target), timeline, walk, wal.segmentSize);
    LegsStop(reached, wal, timeline, requiredEnd, edges);
  }

  // ---------------------------------------------------------------- backup anchors and branch points

  datatype Anchors = Anchors(timeline: U32, begin: U64, end: U64)

  /** `backupRange`. */
  function BackupRange(backup: Backup): (r: Option<Anchors>)
    ensures r.Some? ==> r.value.timeline != 0 && r.value.begin <= r.value.end
  {
    var begin, end := ParseWalName(backup.beginWal, backup.segmentSize), ParseWalName(backup.endWal, backup.segmentSize);
    if begin.Err? || end.Err? || begin.value.timeline != end.value.timeline || end.value.position < begin.value.position
       || (backup.timeline != 0 && backup.timeline != begin.value.timeline)
    then None
    else Some(Anchors(begin.value.timeline, begin.value.position, end.value.position))
  }

  /** `branchBeforeBackup`: the branch is not known to lie after the end of the backup. */
  predicate BranchBeforeBackup(edge: HistoryEdge, backup: Backup, end: U64) {
    if backup.endLsn != "" then
      var endLsn := ParseLsn(backup.endLsn);
      endLsn.None? || edge.switchLsn <= endLsn.value
    else edge.switchPosition <= end
  }
}
