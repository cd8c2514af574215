// When the recovery catalog of a complete scan passes Validate (recovery.go).
module RecoveryValidity {
  import opened Results
  import opened Store
  import opened WalNames
  import opened WalValidation
  import opened WalCollector
  import opened WalRanges
  import opened WalCatalog
  import opened RangeWalk
  import opened Timelines
  import opened Ancestries
  import opened Histories
  import opened PathCoverage
  import opened RecoveryPaths
  import opened ServerRecovery
  import opened RecoveryCatalogs
  import opened RecoveryValidation
  import opened Backups
  import Evidence
  import Sorting

  // ---------------------------------------------------------------- names

  lemma NameOrIsOptional(timeline: U32, position: U64, size: int)
    ensures OptionalName(NameOr(timeline, position, size))
    ensures timeline != 0 && Nameable(position, size) ==> NameOr(timeline, position, size) != ""
  {
    NameableIffNamed(timeline, position, size);
    if timeline != 0 && Nameable(position, size) {
      ParseOfName(timeline, position, size);
    }
    hide WalName, Nameable, Components, WalPosition;
  }

  /** Whatever a walk does, it starts at the backup's own name and ends at a well-formed one. */
  lemma {:induction false} LegsKeepNames(path: RecoveryPath, wal: ServerWal, current: U32, position: U64, edges: seq<HistoryEdge>)
    requires OptionalName(path.frontierWal)
    ensures var p := Legs(path, wal, current, position, edges); p.startWal == path.startWal && OptionalName(p.frontierWal)
    decreases |edges|
  {
    hide ReachPosition, ContiguousFrontier, Histories.Holds, NameOr, OptionalName;
    if edges == [] {
      NameOrIsOptional(current, ContiguousFrontier(wal.ranges, wal.gaps, current, position).position, wal.segmentSize);
    } else {
      var walk := ReachPosition(wal.ranges, wal.gaps, current, position, edges[0].switchPosition);
      NameOrIsOptional(current, walk.position, wal.segmentSize);
      LegsKeepNames(AtFrontier(path, current, walk, wal.segmentSize), wal, edges[0].child, edges[0].switchPosition, edges[1..]);
    }
  }

  lemma EvaluateKeepsNames(backup: Backup, wal: ServerWal, timeline: U32, start: U64, requiredEnd: U64, target: U32,
                           edges: seq<HistoryEdge>)
    ensures var p := EvaluatePath(backup, wal, timeline, start, requiredEnd, target, edges);
            p.startWal == backup.beginWal && OptionalName(p.frontierWal)
  {
    hide ReachPosition, Legs, NameOr;
    var walk := ReachPosition(wal.ranges, wal.gaps, timeline, start, requiredEnd);
    NameOrIsOptional(timeline, walk.position, wal.segmentSize);
    LegsKeepNames(AtFrontier(StartedPath(backup, timeline, start, target), timeline, walk, wal.segmentSize), wal, timeline, requiredEnd, edges);
  }

  // ---------------------------------------------------------------- paths

  lemma GenuineIsValid(p: RecoveryPath, histories: seq<TimelineHistory>, s: Source)
    requires Genuine(p, histories, s) && OptionalName(s.backup.beginWal)
    ensures ValidPath(p, s.backup.server) <==> ValidBackupId(s.backup.id)
  {
    hide EvaluatePath, Leaving, OptionalName, ValidBackupId, BranchesEarly;
    if p == RecoveryPaths.Evaluated(s, s.anchors.timeline, []) {
      EvaluateKeepsTarget(s.backup, s.wal, s.anchors.timeline, s.anchors.begin, s.anchors.end, s.anchors.timeline, []);
      EvaluateKeepsNames(s.backup, s.wal, s.anchors.timeline, s.anchors.begin, s.anchors.end, s.anchors.timeline, []);
    } else {
      var k, e :| ReachedBy(histories, s, p.target, k, e) && p == RecoveryPaths.Evaluated(s, p.target, Leaving(histories[k], s)[..e + 1]);
      var edges := Leaving(histories[k], s)[..e + 1];
      EvaluateKeepsTarget(s.backup, s.wal, s.anchors.timeline, s.anchors.begin, s.anchors.end, p.target, edges);
      EvaluateKeepsNames(s.backup, s.wal, s.anchors.timeline, s.anchors.begin, s.anchors.end, p.target, edges);
    }
  }

  lemma AnchoredName(b: Backup)
    requires BackupRange(b).Some?
    ensures OptionalName(b.beginWal)
  {
    hide Components, WalPosition;
  }

  /** Apart from the length of the identifier every path is in order. */
  lemma PathOfIsValid(p: RecoveryPath, b: Backup, wal: ServerWal, histories: seq<TimelineHistory>)
    requires PathOf(p, b, wal, histories)
    ensures p.backupId == b.id
    ensures ValidPath(p, b.server) <==> ValidBackupId(b.id)
  {
    hide Genuine, Unconnected, BackupRange, ValidBackupId;
    PathOfKeeps(p, b, wal, histories);
    var anchors := AnchorsFor(b, wal);
    if anchors.Some? && Genuine(p, histories, Source(b, anchors.value, wal)) {
      AnchoredName(b);
      GenuineIsValid(p, histories, Source(b, anchors.value, wal));
    }
  }

  lemma PathForIsValid(p: RecoveryPath, backups: seq<Backup>, wal: ServerWal, histories: seq<TimelineHistory>, i: int)
    requires PathFor(p, backups, wal, histories, i)
    ensures ValidPath(p, backups[i].server) <==> ValidBackupId(backups[i].id)
  {
    hide PathOf, ValidBackupId;
    if PathOf(p, backups[i], wal, histories) {
      PathOfIsValid(p, backups[i], wal, histories);
    }
  }

  /** A healthy backup that has at least one path: under a conflict each, otherwise each up to the first one cut. */
  ghost predicate Represented(backups: seq<Backup>, wal: ServerWal, histories: seq<TimelineHistory>, i: int) {
    Usable(backups, i) && (Conflicting(backups) || NoCutBefore(backups, wal, histories, i))
  }

  /** Each path passes exactly when the identifier of its backup does. */
  lemma PathRepresents(p: RecoveryPath, paths: seq<RecoveryPath>, backups: seq<Backup>, wal: ServerWal, histories: seq<TimelineHistory>)
    returns (i: int)
    requires AllPaths(paths, backups, wal, histories) && p in paths
    ensures Represented(backups, wal, histories, i) && (ValidPath(p, backups[i].server) <==> ValidBackupId(backups[i].id))
  {
    hide Conflicting, PathOf, ValidBackupId, Expected, Capped, CutAt, Asked, CountHealthy;
    if Conflicting(backups) {
      i :| Usable(backups, i) && p == ConflictPath(backups[i]);
    } else {
      if NoCutBefore(backups, wal, histories, |backups|) {
        i :| Usable(backups, i) && PathOf(p, backups[i], wal, histories);
      } else {
        i := CappedPath(p, paths, backups, wal, histories);
      }
      PathForIsValid(p, backups, wal, histories, i);
    }
  }

  lemma RepresentedHasPath(paths: seq<RecoveryPath>, backups: seq<Backup>, wal: ServerWal, histories: seq<TimelineHistory>, i: int)
    returns (p: RecoveryPath)
    requires AllPaths(paths, backups, wal, histories) && Represented(backups, wal, histories, i)
    ensures p in paths && (ValidPath(p, backups[i].server) <==> ValidBackupId(backups[i].id))
  {
    hide Conflicting, PathOf, ValidBackupId, Expected, Capped, CutAt, Asked, CountHealthy, Belongs;
    if Conflicting(backups) {
      p := ConflictPath(backups[i]);
    } else {
      if NoCutBefore(backups, wal, histories, |backups|) {
        p := CollectedHasPath(paths, backups, wal, histories, i);
      } else {
        p := CappedHasPath(paths, backups, wal, histories, i);
      }
      PathForIsValid(p, backups, wal, histories, i);
    }
  }

  /** The identifiers that reach some path are ones Validate accepts. */
  ghost predicate IdentifiersFit(backups: seq<Backup>, wal: ServerWal, histories: seq<TimelineHistory>) {
    forall i :: Represented(backups, wal, histories, i) ==> ValidBackupId(backups[i].id)
  }

  lemma PathsValidIff(paths: seq<RecoveryPath>, backups: seq<Backup>, wal: ServerWal, histories: seq<TimelineHistory>, server: string)
    requires AllPaths(paths, backups, wal, histories)
    requires forall b :: b in backups ==> b.server == server
    ensures (forall k :: 0 <= k < |paths| ==> ValidPath(paths[k], server)) <==> IdentifiersFit(backups, wal, histories)
  {
    hide AllPaths, ValidBackupId, ValidPath, Represented;
    if IdentifiersFit(backups, wal, histories) {
      forall k | 0 <= k < |paths| ensures ValidPath(paths[k], server) {
        var i := PathRepresents(paths[k], paths, backups, wal, histories);
        RepresentedIndex(backups, wal, histories, i);
      }
    }
    if forall k :: 0 <= k < |paths| ==> ValidPath(paths[k], server) {
      forall i | 0 <= i < |backups| && Represented(backups, wal, histories, i) ensures ValidBackupId(backups[i].id) {
        var p := RepresentedHasPath(paths, backups, wal, histories, i);
        RepresentedIndex(backups, wal, histories, i);
      }
      forall i | Represented(backups, wal, histories, i) ensures 0 <= i < |backups| {
        RepresentedIndex(backups, wal, histories, i);
      }
    }
  }

  lemma RepresentedIndex(backups: seq<Backup>, wal: ServerWal, histories: seq<TimelineHistory>, i: int)
    requires Represented(backups, wal, histories, i)
    ensures 0 <= i < |backups| && backups[i] in backups
  {
  }

  // ---------------------------------------------------------------- histories

  predicate PlainObjects(objects: seq<HistoryObject>) {
    forall k :: 0 <= k < |objects| ==> |objects[k].key| <= MAX_KEY_BYTES && ControlFree(objects[k].key)
  }

  /** The checks on a history other than the one on its timeline. */
  predicate WellShaped(h: TimelineHistory, server: string) {
    && h.server == server && |h.edges| <= MAX_HISTORY_ENTRIES
    && (h.key == "" || (|h.key| <= MAX_KEY_BYTES && ControlFree(h.key)))
    && forall k :: 0 <= k < |h.edges| ==> ValidEdge(h.edges[k])
  }

  lemma ParsedEdgesAreValid(entries: seq<Timelines.Entry>, target: U32, size: int)
    requires ParseResult(entries, target, size).Some?
    ensures var edges := ParseResult(entries, target, size).value;
            |edges| <= MAX_HISTORY_ENTRIES && forall k :: 0 <= k < |edges| ==> ValidEdge(edges[k])
  {
    ParsedIsChained(entries, target, size);
    var edges := ParseResult(entries, target, size).value;
    assert size > 0;
    hide ValidSegmentSize, NameOr, Nameable, SegmentAt, OptionalName, IsHex;
    forall k | 0 <= k < |edges| ensures ValidEdge(edges[k]) {
      SwitchIsNameable(entries[k].lsn, size);
      NamedEdge(ChildAt(entries, target, k), SegmentAt(entries[k].lsn, size), size);
    }
  }

  lemma NamedEdge(timeline: U32, position: U64, size: int)
    requires timeline != 0 && Nameable(position, size)
    ensures |NameOr(timeline, position, size)| == 24 && IsHex(NameOr(timeline, position, size))
  {
    NameOrIsOptional(timeline, position, size);
    hide NameOr, Nameable;
  }

  lemma {:induction false} ObjectsOfMembers(objects: seq<HistoryObject>, timeline: U32)
    ensures forall o :: o in ObjectsOf(objects, timeline) ==> o in objects && o.timeline == timeline
  {
    if objects != [] {
      ObjectsOfMembers(objects[..|objects| - 1], timeline);
    }
  }

  lemma JudgedIsWellShaped(input: Inputs, timeline: U32, known: ParentMap)
    requires PlainObjects(input.objects)
    ensures WellShaped(Judge(input, timeline, known).history, input.wal.server)
  {
    var listed := ObjectsOf(input.objects, timeline);
    if |listed| == 1 {
      ObjectsOfMembers(input.objects, timeline);
      assert listed[0] in listed;
      var text := input.read(listed[0]);
      if EntriesOf(text, timeline, input.wal.segmentSize).Some? {
        ParsedEdgesAreValid(text.entries, timeline, input.wal.segmentSize);
      }
    }
    hide Learn, Agrees, ChildRangesAgree, Ends, ParseResult, ObjectsOf, ValidEdge, ControlFree;
  }

  lemma {:induction false} JudgedAreWellShaped(input: Inputs, timelines: seq<U32>)
    requires PlainObjects(input.objects)
    ensures forall h :: h in JudgeAll(input, timelines).histories ==> WellShaped(h, input.wal.server)
  {
    hide Judge, WellShaped;
    if timelines != [] {
      var n := |timelines| - 1;
      JudgedAreWellShaped(input, timelines[..n]);
      JudgedIsWellShaped(input, timelines[n], JudgeAll(input, timelines[..n]).known);
    }
  }

  predicate LateHistories(histories: seq<TimelineHistory>) {
    forall k :: 0 <= k < |histories| ==> histories[k].timeline >= 2
  }

  predicate LateObjects(objects: seq<HistoryObject>) {
    forall k :: 0 <= k < |objects| ==> objects[k].timeline >= 2
  }

  lemma AnalyzedAreWellShaped(input: Inputs, timelines: seq<U32>, histories: seq<TimelineHistory>)
    requires Analyzed(input, timelines, histories) && PlainObjects(input.objects)
    ensures forall k :: 0 <= k < |histories| ==> WellShaped(histories[k], input.wal.server)
  {
    hide JudgeAll, HealthyChild, HasRange, HasObject, ObjectTimelines, Sorting.StrictlySorted, PlainObjects, ControlFree;
    JudgedAreWellShaped(input, timelines);
    forall k | 0 <= k < |histories| ensures WellShaped(histories[k], input.wal.server) {
      assert histories[k] in histories;
    }
  }

  /** An analyzed list breaks the rule on timelines exactly when some history object claims timeline 0 or 1. */
  lemma AnalyzedAreLateIff(input: Inputs, timelines: seq<U32>, histories: seq<TimelineHistory>)
    requires Analyzed(input, timelines, histories)
    ensures LateHistories(histories) <==> LateObjects(input.objects)
  {
    JudgedFormForest(input, timelines);
    var judged := JudgeAll(input, timelines).histories;
    hide JudgeAll, Judge, Histories.Sound, Forest, HealthyChild, HasRange, Sorting.StrictlySorted;
    forall k | 0 <= k < |input.objects| && LateHistories(histories) ensures input.objects[k].timeline >= 2 {
      assert HasObject(input.objects, input.objects[k].timeline) && input.objects[k].timeline in timelines;
      var j :| 0 <= j < |timelines| && timelines[j] == input.objects[k].timeline;
      assert judged[j] in judged && judged[j] in histories;
    }
    forall k | 0 <= k < |histories| && LateObjects(input.objects) ensures histories[k].timeline >= 2 {
      assert histories[k] in histories;
      if histories[k] in judged {
        var j :| 0 <= j < |judged| && judged[j] == histories[k];
        assert timelines[j] in timelines && HasObject(input.objects, timelines[j]);
      }
    }
  }

  // ---------------------------------------------------------------- how many histories there are

  function TimelinesWithObjects(objects: seq<HistoryObject>): set<U32> {
    set k | 0 <= k < |objects| :: objects[k].timeline
  }

  ghost function TimelinesWithout(input: Inputs, histories: seq<TimelineHistory>): set<U32> {
    set k | 0 <= k < |input.wal.ranges| && RequiresHistory(input, histories, input.wal.ranges[k].timeline) :: input.wal.ranges[k].timeline
  }

  /** One history for each timeline with an object, and one for each that has none and requires one. */
  ghost function HistoryCount(input: Inputs, histories: seq<TimelineHistory>): nat {
    |TimelinesWithObjects(input.objects)| + |TimelinesWithout(input, histories)|
  }

  function TimelinesOf(histories: seq<TimelineHistory>): set<U32> {
    set k | 0 <= k < |histories| :: histories[k].timeline
  }

  lemma {:induction false} TimelinesOfSize(histories: seq<TimelineHistory>)
    requires Sorting.StrictlySorted(HistoryBefore, histories)
    ensures |TimelinesOf(histories)| == |histories|
  {
    if histories != [] {
      var n := |histories| - 1;
      TimelinesOfSize(histories[..n]);
      assert forall k :: 0 <= k < n ==> HistoryBefore(histories[k], histories[n]);
      assert TimelinesOf(histories) == TimelinesOf(histories[..n]) + {histories[n].timeline};
    }
  }

  /** Missing histories are not healthy, so they account for no child. */
  lemma SameChildren(input: Inputs, timelines: seq<U32>, histories: seq<TimelineHistory>, t: U32)
    requires Analyzed(input, timelines, histories)
    ensures RequiresHistory(input, histories, t) <==> RequiresHistory(input, JudgeAll(input, timelines).histories, t)
  {
    var judged := JudgeAll(input, timelines).histories;
    hide JudgeAll, HasObject, HasRange, Sorting.StrictlySorted, ObjectTimelines, RequiresHistory, HealthyChild;
    SameHealthyChildren(histories, judged, t);
    SameHealthyChildren(judged, histories, t);
    RequiresByChildren(input, histories, judged, t);
  }

  lemma RequiresByChildren(input: Inputs, a: seq<TimelineHistory>, b: seq<TimelineHistory>, t: U32)
    requires HealthyChild(a, t) <==> HealthyChild(b, t)
    ensures RequiresHistory(input, a, t) <==> RequiresHistory(input, b, t)
  {
    hide HealthyChild;
  }

  lemma SameHealthyChildren(a: seq<TimelineHistory>, b: seq<TimelineHistory>, t: U32)
    requires forall h :: h in a && h.state == Evidence.Healthy ==> h in b
    ensures HealthyChild(a, t) ==> HealthyChild(b, t)
  {
    if HealthyChild(a, t) {
      var k, e :| 0 <= k < |a| && a[k].state == Evidence.Healthy && 0 <= e < |a[k].edges| && a[k].edges[e].child == t;
      assert a[k] in a;
      var j :| 0 <= j < |b| && b[j] == a[k];
    }
  }

  lemma HistoriesCounted(input: Inputs, timelines: seq<U32>, histories: seq<TimelineHistory>)
    requires Analyzed(input, timelines, histories)
    ensures |histories| == HistoryCount(input, histories)
  {
    AnalyzedSorted(input, timelines, histories);
    TimelinesOfSize(histories);
    var some, none := TimelinesWithObjects(input.objects), TimelinesWithout(input, histories);
    forall t: U32 ensures t in TimelinesOf(histories) <==> t in some || t in none {
      TimelineCounted(input, timelines, histories, t);
    }
    forall t: U32 | t in none ensures t !in some {
      NoObject(input, histories, t);
    }
    hide TimelinesWithObjects, TimelinesWithout, TimelinesOf, Analyzed;
    assert TimelinesOf(histories) == some + none;
    assert some * none == {};
  }

  lemma NoObject(input: Inputs, histories: seq<TimelineHistory>, t: U32)
    requires t in TimelinesWithout(input, histories)
    ensures t !in TimelinesWithObjects(input.objects)
  {
    hide HasRange, HealthyChild;
  }

  lemma TimelineCounted(input: Inputs, timelines: seq<U32>, histories: seq<TimelineHistory>, t: U32)
    requires Analyzed(input, timelines, histories)
    ensures t in TimelinesOf(histories) <==>
            t in TimelinesWithObjects(input.objects) || t in TimelinesWithout(input, histories)
  {
    hide JudgeAll, Judge, Histories.Sound, Forest, HealthyChild, Sorting.StrictlySorted;
    JudgedFormForest(input, timelines);
    SameChildren(input, timelines, histories, t);
    var judged := JudgeAll(input, timelines).histories;
    if t in TimelinesWithObjects(input.objects) {
      assert HasObject(input.objects, t) && t in timelines;
      var j :| 0 <= j < |timelines| && timelines[j] == t;
      assert judged[j] in judged && judged[j] in histories;
    }
    if t in TimelinesWithout(input, histories) {
      assert MissingEntry(input.wal.server, t) in histories;
    }
    if t in TimelinesOf(histories) {
      var k :| 0 <= k < |histories| && histories[k].timeline == t;
      assert histories[k] in histories;
      if histories[k] in judged {
        var j :| 0 <= j < |judged| && judged[j] == histories[k];
        assert timelines[j] in timelines && HasObject(input.objects, t);
      }
    }
  }

  lemma SameTimelines(a: seq<U32>, b: seq<U32>)
    requires forall i, j :: 0 <= i < j < |a| ==> a[i] < a[j]
    requires forall i, j :: 0 <= i < j < |b| ==> b[i] < b[j]
    requires forall t :: t in a <==> t in b
    ensures a == b
  {
    assert b != [] ==> b[0] in b;
    if a != [] {
      var m, n := |a| - 1, |b| - 1;
      assert a[m] in b;
      assert b[n] in a;
      assert a[m] == b[n];
      forall t: U32 ensures t in a[..m] <==> t in b[..n] {
        BelowMember(a, m, t);
        BelowMember(b, n, t);
      }
      SameTimelines(a[..m], b[..n]);
      assert a == a[..m] + [a[m]] && b == b[..n] + [b[n]];
    }
  }

  lemma HistoryBeforeIsOrder()
    ensures Sorting.StrictWeakOrder(HistoryBefore)
  {
  }

  /** The histories of a server are determined by its WAL and its history objects. */
  ghost predicate HistoriesFor(histories: seq<TimelineHistory>, i: RecoveryInput, server: string) {
    if i.truncated then histories == []
    else exists timelines :: Analyzed(InputsFor(i, server), timelines, histories)
  }

  lemma HistoriesDetermined(a: seq<TimelineHistory>, b: seq<TimelineHistory>, i: RecoveryInput, server: string)
    requires HistoriesFor(a, i, server) && HistoriesFor(b, i, server)
    ensures a == b
  {
    if !i.truncated {
      var input := InputsFor(i, server);
      hide JudgeAll, RequiresHistory, HasObject, InputsFor;
      var s :| Analyzed(input, s, a);
      var t :| Analyzed(input, t, b);
      SameTimelines(s, t);
      HistoryBeforeIsOrder();
      Sorting.StrictUnique(HistoryBefore, a, b);
    }
  }

  // ---------------------------------------------------------------- one server

  lemma RetentionIsValid(r: Retention, backups: seq<Backup>, options: RecoveryOptions)
    requires Retained(r, backups, options)
    ensures ValidRetention(r)
  {
  }

  /** What Validate leaves to the input, with the histories judged from it. */
  ghost predicate AcceptableWith(i: RecoveryInput, server: string, histories: seq<TimelineHistory>) {
    var wal, backups := WalFor(i.wal, server), BackupsFor(i.backups, server);
    && PathsFit(backups, wal, histories)
    && IdentifiersFit(backups, wal, histories)
    && (i.truncated ||
          (LateObjects(ObjectsFor(i.objects, server)) && HistoryCount(InputsFor(i, server), histories) <= MAX_HISTORY_FILES))
  }

  /** The condition on the input of one server. */
  ghost predicate Acceptable(i: RecoveryInput, server: string) {
    forall histories :: HistoriesFor(histories, i, server) ==> AcceptableWith(i, server, histories)
  }

  /** What every complete scan guarantees: valid names, distinct identifiers, plain keys. */
  ghost predicate SaneInput(i: RecoveryInput) {
    && (forall s :: s in NamesOf(i) ==> ValidName(s))
    && (forall s :: DistinctIds(BackupsFor(i.backups, s)))
    && PlainObjects(i.objects)
  }

  lemma {:induction false} ObjectsForPlain(objects: seq<HistoryObject>, server: string)
    requires PlainObjects(objects)
    ensures PlainObjects(ObjectsFor(objects, server))
  {
    if objects != [] {
      assert forall k :: 0 <= k < |objects| - 1 ==> objects[..|objects| - 1][k] == objects[k];
      ObjectsForPlain(objects[..|objects| - 1], server);
    }
  }

  lemma SortedAdjacent<T(!new)>(before: (T, T) -> bool, s: seq<T>)
    requires Sorting.StrictlySorted(before, s)
    ensures forall i, j :: 0 <= i < |s| && i < j < |s| && j == i + 1 ==> before(s[i], s[j])
  {
  }

  lemma HistoryValidIff(h: TimelineHistory, server: string)
    ensures ValidHistory(h, server) <==> WellShaped(h, server) && h.timeline >= 2
  {
    hide ValidEdge, ControlFree;
  }

  lemma HistoriesValidIff(e: Recovery, i: RecoveryInput)
    requires TimelinesJudged(e, i) && PlainObjects(i.objects)
    ensures (forall k :: 0 <= k < |e.histories| ==> ValidHistory(e.histories[k], e.server))
            <==> (i.truncated || LateObjects(ObjectsFor(i.objects, e.server)))
    ensures Sorting.StrictlySorted(HistoryBefore, e.histories)
    ensures i.truncated || |e.histories| == HistoryCount(InputsFor(i, e.server), e.histories)
    ensures i.truncated ==> e.histories == []
    ensures HistoriesFor(e.histories, i, e.server)
  {
    hide ObjectsFor, WellShaped, ValidHistory, PlainObjects, LateObjects, NothingObserved, AllHealthy;
    if !i.truncated {
      var input := InputsFor(i, e.server);
      ObjectsForPlain(i.objects, e.server);
      var timelines :| Analyzed(input, timelines, e.histories);
      AnalyzedAreWellShaped(input, timelines, e.histories);
      AnalyzedAreLateIff(input, timelines, e.histories);
      AnalyzedSorted(input, timelines, e.histories);
      HistoriesCounted(input, timelines, e.histories);
      hide Analyzed, HistoryCount;
      forall k | 0 <= k < |e.histories| ensures ValidHistory(e.histories[k], e.server) <==> e.histories[k].timeline >= 2 {
        HistoryValidIff(e.histories[k], e.server);
      }
    }
  }

  lemma AnalyzedSorted(input: Inputs, timelines: seq<U32>, histories: seq<TimelineHistory>)
    requires Analyzed(input, timelines, histories)
    ensures Sorting.StrictlySorted(HistoryBefore, histories)
  {
    hide JudgeAll, ObjectTimelines, RequiresHistory;
  }

  lemma EntryValidIff(e: Recovery, i: RecoveryInput)
    requires RecoveredServer(e, i) && SaneInput(i) && e.server in NamesOf(i)
    ensures ValidRecoveryServer(e) <==> AcceptableWith(i, e.server, e.histories)
    ensures HistoriesFor(e.histories, i, e.server)
  {
    hide TimelinesJudged, AllPaths, Retained, DistinctIds, ValidHistory, ValidPath, ValidName, ObjectsFor, BackupsFor, NamesOf,
         HistoryBefore, PathBefore, PlainObjects, Coherent, Sorting.StrictlySorted, ValidRetention, HistoriesFor, HistoryCount,
         IdentifiersFit, PathsFit, LateObjects;
    var wal, backups := WalFor(i.wal, e.server), BackupsFor(i.backups, e.server);
    BackupsForMembers(i.backups, e.server);
    PathsValidIff(e.paths, backups, wal, e.histories, e.server);
    PathsFitIff(e.paths, backups, wal, e.histories);
    HistoriesValidIff(e, i);
    RetentionIsValid(e.retention, backups, i.options);
    SortedAdjacent(HistoryBefore, e.histories);
    SortedAdjacent(PathBefore, e.paths);
  }

  lemma EntryAcceptable(e: Recovery, i: RecoveryInput)
    requires RecoveredServer(e, i) && SaneInput(i) && e.server in NamesOf(i)
    ensures ValidRecoveryServer(e) <==> Acceptable(i, e.server)
  {
    hide RecoveredServer, SaneInput, ValidRecoveryServer, AcceptableWith, HistoriesFor, NamesOf;
    EntryValidIff(e, i);
    forall h | HistoriesFor(h, i, e.server) ensures h == e.histories {
      HistoriesDetermined(h, e.histories, i, e.server);
    }
  }

  /**
   * The recovery catalog of a complete scan passes Validate exactly when for every server: the paths its backups ask
   * for do not overrun the ceiling, the identifiers of the backups that have paths are valid, no history object claims
   * a timeline below 2, and the timelines with history objects and those that miss one are at most a thousand.
   */
  lemma RecoveryValidIff(result: RecoveryCatalog, i: RecoveryInput)
    requires Recovered(result, i) && SaneInput(i) && |result.servers| <= MAX_SERVERS
    ensures ValidRecovery(result) <==> forall s :: s in NamesOf(i) ==> Acceptable(i, s)
  {
    hide RecoveredServer, SaneInput, Acceptable, ValidRecoveryServer, RecoveryBefore, NamesOf, Sorting.StrictlySorted;
    forall e | e in result.servers ensures ValidRecoveryServer(e) <==> Acceptable(i, e.server) {
      EntryAcceptable(e, i);
    }
    SortedAdjacent(RecoveryBefore, result.servers);
    assert forall k :: 0 <= k < |result.servers| ==> result.servers[k] in result.servers;
  }
}
