// Are switch segments observed on both timelines of every healthy path (recovery.go, evaluatePath and branchBeforeBackup)?
module SwitchCoverage {
  import opened Results
  import opened WalNames
  import opened WalRanges
  import opened WalCatalog
  import opened WalCollector
  import opened RangeWalk
  import opened Timelines
  import opened Ancestries
  import opened Histories
  import opened PathCoverage
  import opened RecoveryPaths
  import opened ServerRecovery
  import opened Backups
  import RecoveryCatalogs
  import Evidence
  import Sorting

  // ---------------------------------------------------------------- one path

  /** Switchpoints ascend along the edges, as they do in every parsed history. */
  ghost predicate SwitchesAscend(edges: seq<HistoryEdge>) {
    forall i, j :: 0 <= i < j < |edges| ==> edges[i].switchPosition <= edges[j].switchPosition
  }

  predicate FirstSwitchFrom(position: int, edges: seq<HistoryEdge>) {
    edges != [] ==> position <= edges[0].switchPosition
  }

  /** Every switch segment is observed on the timeline it leaves. */
  ghost predicate SwitchesOnParents(ranges: seq<WalRange>, current: U32, edges: seq<HistoryEdge>)
    decreases |edges|
  {
    edges != [] ==>
      Observed(ranges, current, edges[0].switchPosition) && SwitchesOnParents(ranges, edges[0].child, edges[1..])
  }

  lemma {:induction false} CoveredSwitches(ranges: seq<WalRange>, current: U32, position: int, edges: seq<HistoryEdge>)
    requires LegsCovered(ranges, current, position, edges) && SwitchesAscend(edges) && FirstSwitchFrom(position, edges)
    ensures SwitchesOnParents(ranges, current, edges)
    decreases |edges|
  {
    hide Observed;
    if edges != [] {
      CoveredSwitches(ranges, edges[0].child, edges[0].switchPosition, edges[1..]);
    }
  }

  /**
   * On a healthy path every switch segment is observed on both timelines, provided the first switch is not before
   * the segment the backup begins in.
   */
  lemma HealthySwitches(backup: Backup, wal: ServerWal, timeline: U32, start: U64, requiredEnd: U64, target: U32,
                        edges: seq<HistoryEdge>)
    requires Canonical(wal.ranges) && start <= requiredEnd && SwitchesAscend(edges) && FirstSwitchFrom(start, edges)
    requires EvaluatePath(backup, wal, timeline, start, requiredEnd, target, edges).state == Evidence.Healthy
    ensures SwitchesOnParents(wal.ranges, timeline, edges)
  {
    PathHealthyIff(backup, wal, timeline, start, requiredEnd, target, edges);
    hide EvaluatePath, Observed, Canonical;
    if edges != [] {
      CoveredSwitches(wal.ranges, edges[0].child, edges[0].switchPosition, edges[1..]);
    }
  }

  // ---------------------------------------------------------------- the evidence on which an early switch goes unnoticed

  function Stretch(timeline: U32, start: U64, end: U64, size: int): WalRange
    requires start <= end
  {
    WalRange(timeline, start, end, Span(start, end), NameOr(timeline, start, size), NameOr(timeline, end, size), 0, 0)
  }

  predicate Stretches(r: WalRange, timeline: U32, start: U64, end: U64) {
    r.timeline == timeline && r.start == start <= end == r.end
  }

  function NextSwitch(edges: seq<HistoryEdge>, k: nat): U64
    requires k < |edges|
  {
    if k + 1 < |edges| then edges[k + 1].switchPosition else edges[k].switchPosition
  }

  /** Nothing observed before the backup begins, and each child from its switchpoint to the next one. */
  ghost predicate EarlyRanges(ranges: seq<WalRange>, timeline: U32, start: U64, requiredEnd: U64, edges: seq<HistoryEdge>) {
    && |ranges| == |edges| + 1 && Stretches(ranges[0], timeline, start, requiredEnd)
    && forall k :: 0 < k < |ranges| ==> Stretches(ranges[k], edges[k - 1].child, edges[k - 1].switchPosition, NextSwitch(edges, k - 1))
  }

  /** Such WAL exists for every path. */
  lemma EarlyRangesExist(timeline: U32, start: U64, requiredEnd: U64, edges: seq<HistoryEdge>, size: int) returns (ranges: seq<WalRange>)
    requires start <= requiredEnd && SwitchesAscend(edges)
    ensures EarlyRanges(ranges, timeline, start, requiredEnd, edges)
  {
    hide NameOr, Span;
    ranges := [Stretch(timeline, start, requiredEnd, size)]
              + seq(|edges|, k requires 0 <= k < |edges| => Stretch(edges[k].child, edges[k].switchPosition, NextSwitch(edges, k), size));
  }

  /** Real timelines, each only once. */
  ghost predicate OnePerTimeline(ranges: seq<WalRange>) {
    && (forall k :: 0 <= k < |ranges| ==> ranges[k].start <= ranges[k].end && ranges[k].timeline != 0)
    && (forall i, j :: 0 <= i < j < |ranges| ==> ranges[i].timeline < ranges[j].timeline)
  }

  lemma OneIsCanonical(ranges: seq<WalRange>)
    requires OnePerTimeline(ranges)
    ensures Canonical(ranges)
  {
  }

  lemma PathAscends(edges: seq<HistoryEdge>, start: U32, target: U32, i: int, j: int)
    requires Path(edges, start, target) && 0 <= i <= j < |edges|
    ensures start < edges[i].child && (i < j ==> edges[i].child < edges[j].child)
  {
    if i < j {
      assert edges[i].child <= edges[j].parent;
    }
    if 0 < i {
      assert edges[0].child <= edges[i].parent;
    }
  }

  lemma EarlyRangesOnce(ranges: seq<WalRange>, timeline: U32, start: U64, requiredEnd: U64, edges: seq<HistoryEdge>, target: U32)
    requires timeline != 0 && EarlyRanges(ranges, timeline, start, requiredEnd, edges) && Path(edges, timeline, target)
    ensures OnePerTimeline(ranges)
  {
    hide Path, NextSwitch;
    forall i, j | 0 <= i < j < |ranges| ensures ranges[i].timeline < ranges[j].timeline {
      PathAscends(edges, timeline, target, if i > 0 then i - 1 else j - 1, j - 1);
    }
    forall k | 0 <= k < |ranges| ensures ranges[k].start <= ranges[k].end && ranges[k].timeline != 0 {
      if k > 0 {
        PathAscends(edges, timeline, target, k - 1, k - 1);
      }
    }
  }

  /** The observed positions of a timeline that has a single range. */
  lemma OnlyRange(ranges: seq<WalRange>, k: int, p: int)
    requires OnePerTimeline(ranges) && 0 <= k < |ranges|
    ensures Observed(ranges, ranges[k].timeline, p) <==> ranges[k].start <= p <= ranges[k].end
  {
    if ranges[k].start <= p <= ranges[k].end {
      assert InRange(ranges[k], ranges[k].timeline, p);
    }
  }

  /** From the k-th child on, every leg is covered. */
  lemma {:induction false} StretchesCover(ranges: seq<WalRange>, timeline: U32, start: U64, requiredEnd: U64, edges: seq<HistoryEdge>, k: int)
    requires 0 <= k < |edges| && OnePerTimeline(ranges) && EarlyRanges(ranges, timeline, start, requiredEnd, edges)
    ensures Observed(ranges, edges[k].child, edges[k].switchPosition)
    ensures LegsCovered(ranges, edges[k].child, edges[k].switchPosition, edges[k + 1..])
    decreases |edges| - k
  {
    hide Observed, OnePerTimeline;
    assert Stretches(ranges[k + 1], edges[k].child, edges[k].switchPosition, NextSwitch(edges, k));
    forall p: int ensures Observed(ranges, edges[k].child, p) <==> ranges[k + 1].start <= p <= ranges[k + 1].end {
      OnlyRange(ranges, k + 1, p);
    }
    if k + 1 < |edges| {
      StretchesCover(ranges, timeline, start, requiredEnd, edges, k + 1);
      assert edges[k + 1..][0] == edges[k + 1] && edges[k + 1..][1..] == edges[k + 2..];
    }
  }

  /**
   * The proviso is exact: over any path whose first switch lies before the segment the backup begins in, there is
   * evidence on which the path is healthy although that switch segment was never observed on the parent.
   */
  lemma EarlySwitchUnchecked(backup: Backup, wal: ServerWal, timeline: U32, start: U64, requiredEnd: U64, target: U32,
                             edges: seq<HistoryEdge>)
    requires timeline != 0 && Path(edges, timeline, target)
    requires edges != [] && edges[0].switchPosition < start && wal.state != Evidence.Unknown
    requires EarlyRanges(wal.ranges, timeline, start, requiredEnd, edges)
    ensures Canonical(wal.ranges)
    ensures EvaluatePath(backup, wal, timeline, start, requiredEnd, target, edges).state == Evidence.Healthy
    ensures !SwitchesOnParents(wal.ranges, timeline, edges)
  {
    hide EvaluatePath, Observed, OnePerTimeline, Canonical, Path, LegsCovered;
    EarlyRangesOnce(wal.ranges, timeline, start, requiredEnd, edges, target);
    OneIsCanonical(wal.ranges);
    EarlyLegs(wal, timeline, start, requiredEnd, target, edges);
    PathHealthyIff(backup, wal, timeline, start, requiredEnd, target, edges);
    OnlyRange(wal.ranges, 0, edges[0].switchPosition);
  }

  lemma EarlyLegs(wal: ServerWal, timeline: U32, start: U64, requiredEnd: U64, target: U32, edges: seq<HistoryEdge>)
    requires edges != [] && edges[0].switchPosition < start && Path(edges, timeline, target) && OnePerTimeline(wal.ranges)
    requires EarlyRanges(wal.ranges, timeline, start, requiredEnd, edges)
    ensures ObservedAll(wal.ranges, timeline, start, requiredEnd) && LegsCovered(wal.ranges, timeline, requiredEnd, edges)
  {
    hide Observed, OnePerTimeline;
    StretchesCover(wal.ranges, timeline, start, requiredEnd, edges, 0);
    forall p: int ensures Observed(wal.ranges, timeline, p) <==> start <= p <= requiredEnd {
      OnlyRange(wal.ranges, 0, p);
    }
  }

  /** Whatever WAL there is, every switch segment of the path is on the parent once the path is healthy. */
  ghost predicate AlwaysObserved(backup: Backup, timeline: U32, start: U64, requiredEnd: U64, target: U32, edges: seq<HistoryEdge>) {
    forall wal :: HealthyOn(backup, wal, timeline, start, requiredEnd, target, edges) ==> SwitchesOnParents(wal.ranges, timeline, edges)
  }

  ghost predicate HealthyOn(backup: Backup, wal: ServerWal, timeline: U32, start: U64, requiredEnd: U64, target: U32,
                            edges: seq<HistoryEdge>)
  {
    Canonical(wal.ranges) && EvaluatePath(backup, wal, timeline, start, requiredEnd, target, edges).state == Evidence.Healthy
  }

  function HealthyWal(server: string, size: int, ranges: seq<WalRange>): ServerWal {
    ServerWal(server, Evidence.Healthy, NoGaps, MIN_POSTGRES_VERSION, size, Counts(0, 0, 0, 0, 0, 0), ranges, [], [], false, false, 0)
  }

  /** Which is so exactly when the first switch is not before the segment the backup begins in. */
  lemma AlwaysObservedIff(backup: Backup, timeline: U32, start: U64, requiredEnd: U64, target: U32, edges: seq<HistoryEdge>)
    requires timeline != 0 && start <= requiredEnd && SwitchesAscend(edges) && Path(edges, timeline, target)
    ensures AlwaysObserved(backup, timeline, start, requiredEnd, target, edges) <==> FirstSwitchFrom(start, edges)
  {
    hide SwitchesAscend, EvaluatePath, Canonical, EarlyRanges, SwitchesOnParents;
    if FirstSwitchFrom(start, edges) {
      forall wal | HealthyOn(backup, wal, timeline, start, requiredEnd, target, edges) ensures SwitchesOnParents(wal.ranges, timeline, edges) {
        HealthySwitches(backup, wal, timeline, start, requiredEnd, target, edges);
      }
    } else {
      var ranges := EarlyRangesExist(timeline, start, requiredEnd, edges, backup.segmentSize);
      var wal := HealthyWal(backup.server, backup.segmentSize, ranges);
      EarlySwitchUnchecked(backup, wal, timeline, start, requiredEnd, target, edges);
      assert HealthyOn(backup, wal, timeline, start, requiredEnd, target, edges);
    }
  }

  // ---------------------------------------------------------------- what the guard lets through

  /** No LSN after EndLSN, where that is present and readable, lies in a segment before the given position. */
  predicate EndLsnNotBefore(backup: Backup, position: U64) {
    backup.endLsn == ""
    || (backup.segmentSize > 0
        && var endLsn := ParseLsn(backup.endLsn);
           endLsn.None? || endLsn.value == MAX_UINT64 || SegmentAt(endLsn.value + 1, backup.segmentSize) >= position)
  }

  /** A branch after the backup switches no earlier than the segment EndLSN is anchored to. */
  lemma BranchAfterBackup(edge: HistoryEdge, backup: Backup, end: U64, position: U64)
    requires !BranchBeforeBackup(edge, backup, end) && EndLsnNotBefore(backup, position) && position <= end
    requires backup.segmentSize > 0 && edge.switchPosition == SegmentAt(edge.switchLsn, backup.segmentSize)
    ensures position <= edge.switchPosition
  {
    if backup.endLsn != "" {
      hide ParseLsn;
      QuotientMonotone(ParseLsn(backup.endLsn).value + 1, edge.switchLsn, backup.segmentSize);
    }
  }

  lemma SliceSwitches(edges: seq<HistoryEdge>, target: U32, size: int, i: nat, j: nat)
    requires Chained(edges, target) && SwitchesPlaced(edges, size) && i <= j <= |edges|
    ensures SwitchesPlaced(edges[i..j], size) && SwitchesAscend(edges[i..j])
  {
    hide SegmentAt;
  }

  lemma SoundChain(h: TimelineHistory, known: ParentMap, wal: ServerWal)
    requires Histories.Sound(h, known, wal) && h.state == Evidence.Healthy
    ensures Chained(h.edges, h.timeline) && SwitchesPlaced(h.edges, wal.segmentSize)
  {
    hide Chained, SwitchesPlaced, Recorded, ChildRangesAgree;
  }

  /** The edges that leave a backup's timeline carry the placement and order of their history. */
  lemma LeavingSwitches(histories: seq<TimelineHistory>, known: ParentMap, s: Source, k: int, e: int)
    requires Coherent(histories, known, s.wal) && LateEdge(histories, s, k, e)
    ensures var edges := Leaving(histories[k], s)[..e + 1];
            && SwitchesPlaced(edges, s.wal.segmentSize) && SwitchesAscend(edges) && Path(edges, s.anchors.timeline, edges[e].child)
  {
    hide Path, Descendants, BranchesEarly, Histories.Sound, SwitchesPlaced, SwitchesAscend, Chained;
    LeavingPath(histories, known, s, k, e);
    var h := histories[k];
    var all, whole := Leaving(h, s), h.edges;
    SoundChain(h, known, s.wal);
    DescendantsSuffix(whole, s.anchors.timeline);
    var off := |whole| - |all|;
    SliceSwitches(whole, h.timeline, s.wal.segmentSize, off, off + e + 1);
    assert all[..e + 1] == whole[off..off + e + 1];
  }

  ghost predicate SwitchesObserved(s: Source, histories: seq<TimelineHistory>, k: int, e: int)
    requires LateEdge(histories, s, k, e)
  {
    SwitchesOnParents(s.wal.ranges, s.anchors.timeline, Leaving(histories[k], s)[..e + 1])
  }

  ghost predicate HealthyOver(s: Source, histories: seq<TimelineHistory>, k: int, e: int)
    requires LateEdge(histories, s, k, e)
  {
    var edges := Leaving(histories[k], s);
    RecoveryPaths.Evaluated(s, edges[e].child, edges[..e + 1]).state == Evidence.Healthy
  }

  /** On every healthy path of a backup whose EndLSN is not before its first segment all switch segments are observed. */
  lemma LateSwitchesObserved(histories: seq<TimelineHistory>, known: ParentMap, s: Source, k: int, e: int)
    requires Coherent(histories, known, s.wal) && Canonical(s.wal.ranges) && LateEdge(histories, s, k, e)
    requires s.wal.segmentSize == s.backup.segmentSize && s.anchors.begin <= s.anchors.end
    requires EndLsnNotBefore(s.backup, s.anchors.begin) && HealthyOver(s, histories, k, e)
    ensures SwitchesObserved(s, histories, k, e)
  {
    var all := Leaving(histories[k], s);
    var edges := all[..e + 1];
    LeavingSwitches(histories, known, s, k, e);
    assert edges[0] == all[0];
    hide Coherent, Leaving, Canonical, Path, EvaluatePath, SwitchesOnParents, EndLsnNotBefore, BranchBeforeBackup, SegmentAt, SwitchesAscend;
    BranchAfterBackup(edges[0], s.backup, s.anchors.end, s.anchors.begin);
    HealthySwitches(s.backup, s.wal, s.anchors.timeline, s.anchors.begin, s.anchors.end, all[e].child, edges);
  }

  // ---------------------------------------------------------------- the exact condition on a backup

  /** An analysed server, and a healthy path of the backup over the e-th edge of its k-th history. */
  ghost predicate Admitted(b: Backup, a: Anchors, input: Inputs, timelines: seq<U32>, histories: seq<TimelineHistory>, k: int, e: int) {
    var s := Source(b, a, input.wal);
    && input.wal.segmentSize == b.segmentSize && Canonical(input.wal.ranges) && Analyzed(input, timelines, histories)
    && LateEdge(histories, s, k, e) && HealthyOver(s, histories, k, e)
  }

  ghost predicate SwitchesSeen(b: Backup, a: Anchors, input: Inputs, histories: seq<TimelineHistory>, k: int, e: int) {
    LateEdge(histories, Source(b, a, input.wal), k, e) && SwitchesObserved(Source(b, a, input.wal), histories, k, e)
  }

  /** Whatever is analysed, healthy paths of the backup have their switch segments on both timelines. */
  ghost predicate SwitchesKept(b: Backup, a: Anchors) {
    forall input, timelines, histories, k, e ::
      Admitted(b, a, input, timelines, histories, k, e) ==> SwitchesSeen(b, a, input, histories, k, e)
  }

  lemma KeptWhenAnchored(b: Backup, a: Anchors, input: Inputs, timelines: seq<U32>, histories: seq<TimelineHistory>, k: int, e: int)
    requires Admitted(b, a, input, timelines, histories, k, e) && a.begin <= a.end
    requires EndLsnNotBefore(b, a.begin)
    ensures SwitchesSeen(b, a, input, histories, k, e)
  {
    hide Analyzed, Coherent, Canonical, LateEdge, SwitchesObserved, HealthyOver, EndLsnNotBefore, Forest;
    var known := RecoveryCatalogs.AnalyzedCoherent(input, timelines, histories);
    LateSwitchesObserved(histories, known, Source(b, a, input.wal), k, e);
  }

  /** No timeline comes after the last one. */
  lemma NoneAfterLast(b: Backup, a: Anchors, input: Inputs, timelines: seq<U32>, histories: seq<TimelineHistory>, k: int, e: int)
    requires a.timeline == MAX_UINT32
    ensures !Admitted(b, a, input, timelines, histories, k, e)
  {
    hide Analyzed, Coherent, Canonical, HealthyOver, Forest, Leaving, BranchesEarly, Path, Recorded;
    if Admitted(b, a, input, timelines, histories, k, e) {
      var known := RecoveryCatalogs.AnalyzedCoherent(input, timelines, histories);
      LeavingPath(histories, known, Source(b, a, input.wal), k, e);
    }
  }

  // ---------------------------------------------------------------- the input on which it fails

  /** The first LSN that counts as after the backup. */
  function NextLsn(b: Backup): U64
    requires ParseLsn(b.endLsn).Some? && ParseLsn(b.endLsn).value < MAX_UINT64
  {
    ParseLsn(b.endLsn).value + 1
  }

  /** EndLSN is readable, and lies in a segment before the one the backup begins in. */
  ghost predicate EndsEarly(b: Backup, a: Anchors) {
    && b.endLsn != "" && ParseLsn(b.endLsn).Some? && ParseLsn(b.endLsn).value < MAX_UINT64 && ValidSegmentSize(b.segmentSize)
    && SegmentAt(NextLsn(b), b.segmentSize) < a.begin <= a.end && 0 < a.timeline < MAX_UINT32
  }

  /** The only line of the next timeline's history. */
  function EarlyEntries(b: Backup, a: Anchors): seq<Entry>
    requires EndsEarly(b, a)
  {
    [Entry(a.timeline, NextLsn(b))]
  }

  ghost function EarlyEdge(b: Backup, a: Anchors): HistoryEdge
    requires EndsEarly(b, a)
  {
    EdgeAt(EarlyEntries(b, a), a.timeline + 1, b.segmentSize, 0)
  }

  lemma EarlyHistoryParses(b: Backup, a: Anchors)
    requires EndsEarly(b, a)
    ensures ParseResult(EarlyEntries(b, a), a.timeline + 1, b.segmentSize) == Some([EarlyEdge(b, a)])
    ensures var edge := EarlyEdge(b, a);
            && edge.parent == a.timeline && edge.child == a.timeline + 1 && edge.switchLsn == NextLsn(b)
            && edge.switchPosition == SegmentAt(NextLsn(b), b.segmentSize) < a.begin
            && Path([edge], a.timeline, edge.child) && SwitchesAscend([edge])
            && !BranchBeforeBackup(edge, b, a.end)
  {
    hide ParseLsn, SegmentAt, NameOr, ValidSegmentSize;
    var edges := ParseResult(EarlyEntries(b, a), a.timeline + 1, b.segmentSize).value;
    assert edges == [EarlyEdge(b, a)];
  }

  /** That history alone, nothing observed before the backup begins, and the switch segment on the child only. */
  ghost predicate EarlyInput(input: Inputs, b: Backup, a: Anchors)
    requires EndsEarly(b, a)
  {
    && input.wal.server == b.server && input.wal.segmentSize == b.segmentSize && input.wal.state != Evidence.Unknown
    && EarlyRanges(input.wal.ranges, a.timeline, a.begin, a.end, [EarlyEdge(b, a)])
    && |input.objects| == 1 && input.objects[0].timeline == a.timeline + 1
    && input.read(input.objects[0]) == Parsed(EarlyEntries(b, a))
  }

  lemma EarlyInputExists(b: Backup, a: Anchors) returns (input: Inputs)
    requires EndsEarly(b, a)
    ensures EarlyInput(input, b, a)
  {
    hide EarlyEdge, EarlyRanges, SwitchesAscend, Path, BranchBeforeBackup, ParseResult;
    EarlyHistoryParses(b, a);
    var ranges := EarlyRangesExist(a.timeline, a.begin, a.end, [EarlyEdge(b, a)], b.segmentSize);
    input := Inputs(HealthyWal(b.server, b.segmentSize, ranges),
                    [HistoryObject("history", b.server, "history", "none", a.timeline + 1)], _ => Parsed(EarlyEntries(b, a)));
  }

  ghost function EarlyJudged(input: Inputs, b: Backup, a: Anchors): TimelineHistory
    requires EndsEarly(b, a) && EarlyInput(input, b, a)
  {
    TimelineHistory(b.server, input.objects[0].key, a.timeline + 1, Evidence.Healthy, AncestryParsed, [EarlyEdge(b, a)])
  }

  /** A backup that is not on timeline 1 misses the history of its own timeline. */
  ghost function EarlyHistories(input: Inputs, b: Backup, a: Anchors): seq<TimelineHistory>
    requires EndsEarly(b, a) && EarlyInput(input, b, a)
  {
    if a.timeline > 1 then [MissingEntry(b.server, a.timeline), EarlyJudged(input, b, a)] else [EarlyJudged(input, b, a)]
  }

  lemma EarlyWal(input: Inputs, b: Backup, a: Anchors)
    requires EndsEarly(b, a) && EarlyInput(input, b, a)
    ensures ChildRangesAgree([EarlyEdge(b, a)], input.wal.ranges)
    ensures forall t: U32 :: HasRange(input.wal.ranges, t) <==> t == a.timeline || t == a.timeline + 1
  {
    var edge, ranges := EarlyEdge(b, a), input.wal.ranges;
    EarlyHistoryParses(b, a);
    hide EarlyEdge, EndsEarly;
    assert |ranges| == 2 && Stretches(ranges[0], a.timeline, a.begin, a.end)
           && Stretches(ranges[1], edge.child, edge.switchPosition, edge.switchPosition);
    assert RangesFor(ranges, edge.child) == [ranges[1]] by {
      assert ranges[1..][1..] == [];
      assert RangesFor([], edge.child) == [];
    }
    assert Histories.Holds(ranges, edge.child, edge.switchPosition);
  }

  lemma EarlyIsHealthy(input: Inputs, b: Backup, a: Anchors)
    requires EndsEarly(b, a) && EarlyInput(input, b, a)
    ensures Judge(input, a.timeline + 1, map[]).history == EarlyJudged(input, b, a)
  {
    var child := (a.timeline + 1) as U32;
    EarlyHistoryParses(b, a);
    EarlyWal(input, b, a);
    assert Forest(map[]);
    JudgeIsSound(input, child, map[]);
    hide EndsEarly, Learn, ChildRangesAgree, Ends, Forest, ParseResult, EarlyEdge, Histories.Sound, EarlyRanges;
    assert input.objects == [input.objects[0]];
    assert input.objects[..0] == [];
    assert ObjectsOf([], child) == [];
    assert ObjectsOf(input.objects, child) == input.objects;
    assert Agrees([EarlyEdge(b, a)], map[]);
  }

  lemma JudgeOnly(input: Inputs, timeline: U32)
    ensures JudgeAll(input, [timeline]).histories == [Judge(input, timeline, map[]).history]
  {
    hide Judge;
    assert [timeline][..0] == [];
    assert JudgeAll(input, []) == Judgements([], map[]);
  }

  /** Only the backup's own timeline can miss its history. */
  lemma EarlyRequires(input: Inputs, b: Backup, a: Anchors, t: U32)
    requires EndsEarly(b, a) && EarlyInput(input, b, a)
    ensures RequiresHistory(input, [EarlyJudged(input, b, a)], t) <==> t == a.timeline > 1
  {
    EarlyWal(input, b, a);
    EarlyHistoryParses(b, a);
    EarlyObjects(input, b, a, t);
    EarlyChild(input, b, a, t);
    hide EndsEarly, EarlyInput, EarlyJudged, EarlyEdge, HasRange, HasObject, HealthyChild, EarlyRanges, ChildRangesAgree;
  }

  lemma EarlyObjects(input: Inputs, b: Backup, a: Anchors, t: U32)
    requires EndsEarly(b, a) && EarlyInput(input, b, a)
    ensures HasObject(input.objects, t) <==> t == a.timeline + 1
  {
    hide EndsEarly, EarlyEdge, EarlyEntries, EarlyRanges;
    assert input.objects[0].timeline == a.timeline + 1;
  }

  lemma EarlyChild(input: Inputs, b: Backup, a: Anchors, t: U32)
    requires EndsEarly(b, a) && EarlyInput(input, b, a)
    ensures HealthyChild([EarlyJudged(input, b, a)], t) <==> t == a.timeline + 1
  {
    EarlyHistoryParses(b, a);
    hide EndsEarly, EarlyEdge, EarlyInput;
    var h := EarlyJudged(input, b, a);
    assert [h][0].state == Evidence.Healthy && h.edges[0].child == a.timeline + 1;
  }

  /** Both entries, in timeline order, and nothing else. */
  lemma EarlyMembers(input: Inputs, b: Backup, a: Anchors)
    requires EndsEarly(b, a) && EarlyInput(input, b, a)
    ensures Sorting.StrictlySorted(HistoryBefore, EarlyHistories(input, b, a))
    ensures forall h :: h in EarlyHistories(input, b, a) <==>
              h == EarlyJudged(input, b, a) || (h == MissingEntry(b.server, h.timeline) && h.timeline == a.timeline > 1)
  {
    hide EarlyEdge, EndsEarly, EarlyInput;
    assert EarlyJudged(input, b, a).timeline == a.timeline + 1;
  }

  lemma EarlyServer(input: Inputs, b: Backup, a: Anchors)
    requires EndsEarly(b, a) && EarlyInput(input, b, a)
    ensures input.wal.server == b.server
  {
    hide EarlyEdge, EndsEarly, EarlyEntries, EarlyRanges;
  }

  lemma EarlyIsAnalyzed(input: Inputs, b: Backup, a: Anchors)
    requires EndsEarly(b, a) && EarlyInput(input, b, a)
    ensures Analyzed(input, [a.timeline + 1], EarlyHistories(input, b, a))
  {
    hide JudgeAll, Judge, EarlyEdge, EarlyInput, EarlyJudged, EarlyHistories, HasObject, RequiresHistory, Sorting.StrictlySorted;
    var child: U32 := a.timeline + 1;
    EarlyIsHealthy(input, b, a);
    JudgeOnly(input, child);
    EarlyServer(input, b, a);
    EarlyMembers(input, b, a);
    forall t: U32 ensures HasObject(input.objects, t) <==> t in [child] {
      EarlyObjects(input, b, a, t);
    }
    forall t: U32 ensures RequiresHistory(input, [EarlyJudged(input, b, a)], t) <==> t == a.timeline > 1 {
      EarlyRequires(input, b, a, t);
    }
  }

  lemma EarlyLeaves(input: Inputs, b: Backup, a: Anchors)
    requires EndsEarly(b, a) && EarlyInput(input, b, a)
    ensures var histories, s := EarlyHistories(input, b, a), Source(b, a, input.wal);
            var last := |histories| - 1;
            LateEdge(histories, s, last, 0) && Leaving(histories[last], s) == [EarlyEdge(b, a)]
  {
    EarlyHistoryParses(b, a);
    hide EarlyEdge, EarlyInput, EndsEarly, BranchBeforeBackup, Path, SwitchesAscend, ParseResult;
  }

  /** The failing input: analysed, let through by the guard, healthy, and its switch segment never seen on the parent. */
  lemma EarlyBranchIsAdmitted(input: Inputs, b: Backup, a: Anchors)
    requires EndsEarly(b, a) && EarlyInput(input, b, a)
    ensures var histories := EarlyHistories(input, b, a);
            var last := |histories| - 1;
            && Admitted(b, a, input, [a.timeline + 1], histories, last, 0)
            && !SwitchesSeen(b, a, input, histories, last, 0)
  {
    hide EarlyEdge, EarlyRanges, EarlyHistories, Analyzed, EvaluatePath, Canonical, SwitchesOnParents, BranchBeforeBackup, Path,
         HasRange, ChildRangesAgree, Leaving, LateEdge, SwitchesAscend, ParseResult;
    var edge := EarlyEdge(b, a);
    EarlyHistoryParses(b, a);
    EarlyIsAnalyzed(input, b, a);
    EarlyWal(input, b, a);
    EarlyLeaves(input, b, a);
    EarlySwitchUnchecked(b, input.wal, a.timeline, a.begin, a.end, edge.child, [edge]);
    assert [edge][..0 + 1] == [edge];
  }

  lemma AnchoredSize(b: Backup)
    requires BackupRange(b).Some?
    ensures ValidSegmentSize(b.segmentSize)
  {
    hide Components, ValidSegmentSize;
  }

  /**
   * The promise holds for a backup exactly when EndLSN, where it has a readable one, does not leave room for a branch
   * in a segment before the one the backup begins in, or there is no timeline to branch to.
   */
  lemma SwitchesKeptIff(b: Backup, a: Anchors)
    requires BackupRange(b) == Some(a)
    ensures SwitchesKept(b, a) <==> a.timeline == MAX_UINT32 || EndLsnNotBefore(b, a.begin)
  {
    AnchoredSize(b);
    hide BackupRange, Admitted, SwitchesSeen, ValidSegmentSize, ParseLsn, SegmentAt;
    if a.timeline == MAX_UINT32 || EndLsnNotBefore(b, a.begin) {
      forall input, timelines, histories, k, e | Admitted(b, a, input, timelines, histories, k, e)
        ensures SwitchesSeen(b, a, input, histories, k, e)
      {
        if EndLsnNotBefore(b, a.begin) {
          KeptWhenAnchored(b, a, input, timelines, histories, k, e);
        } else {
          NoneAfterLast(b, a, input, timelines, histories, k, e);
        }
      }
    } else {
      PositiveSize(b.segmentSize);
      var input := EarlyInputExists(b, a);
      EarlyBranchIsAdmitted(input, b, a);
    }
  }

  lemma PositiveSize(size: int)
    requires ValidSegmentSize(size)
    ensures size > 0
  {
    hide BitAnd;
  }

  /** In segments of 16 MiB, at position 5 of timeline 1, with an EndLSN in the first bytes of the log. */
  function EarlyBackup(): Backup {
    var name := NameOr(1, 5, DEFAULT_SEGMENT_SIZE);
    Backup("s", "b", "", Evidence.Healthy, name, name, "0/1", DEFAULT_SEGMENT_SIZE, MIN_POSTGRES_VERSION, 1, 1, NO_NOTES)
  }

  /** Such backups exist. */
  lemma EarlyEndExists()
    ensures BackupRange(EarlyBackup()) == Some(Anchors(1, 5, 5)) && !EndLsnNotBefore(EarlyBackup(), 5)
    ensures EndsEarly(EarlyBackup(), Anchors(1, 5, 5)) && NextLsn(EarlyBackup()) == 2
  {
    FirstLsn();
    FirstSegment();
    DefaultSizeIsValid();
    SegmentBounds(DEFAULT_SEGMENT_SIZE);
    ParseOfName(1, 5, DEFAULT_SEGMENT_SIZE);
    hide ParseLsn, WalName, ParseWalName, SegmentAt, ValidSegmentSize;
  }

  lemma FirstSegment()
    ensures SegmentAt(2, DEFAULT_SEGMENT_SIZE) == 0
  {
  }

  lemma FirstLsn()
    ensures ParseLsn("0/1") == Some(1)
  {
    assert "0/1"[1..] == "/1" && "/1"[1..] == "1";
    assert CutSlash("/1") == Some(("", "1"));
    assert ['0'] + "" == "0";
    assert CutSlash("0/1") == Some(("0", "1"));
    assert HexValue("0") == 0 && HexValue("1") == 1 by {
      assert "0"[..0] == "" && "1"[..0] == "";
    }
  }
}
