// Judging every timeline history of one server (recovery.go, analyzeHistories).
module Histories {
  import opened Results
  import opened WalCollector
  import opened WalRanges
  import opened WalCatalog
  import opened RangeWalk
  import opened Timelines
  import opened Ancestries
  import Evidence
  import Sorting

  datatype HistoryReason =
    | DuplicateObjects | CannotRead | MalformedHistory | ContradictsOthers | CyclicAncestry | ChildRangeDisagrees
    | AncestryParsed | HistoryMissing

  datatype TimelineHistory = TimelineHistory(
    server: string, key: string, timeline: U32, state: Evidence.State, reason: HistoryReason, edges: seq<HistoryEdge>)

  datatype TimelineReason = FileLimit | InvalidEvidence | NoTimelines | NoneRequired | AllParsed

  /** What reading one history object yields: a failure, text whose lines do not parse, or its entries. */
  datatype HistoryText = Unreadable | Garbled | Parsed(entries: seq<Entry>)

  datatype Inputs = Inputs(wal: ServerWal, objects: seq<HistoryObject>, read: HistoryObject -> HistoryText)

  // ---------------------------------------------------------------- one history

  predicate Holds(ranges: seq<WalRange>, timeline: U32, position: int) {
    exists k :: 0 <= k < |ranges| && ranges[k].timeline == timeline && ranges[k].start <= position <= ranges[k].end
  }

  /** `childRangesAgree`: a child that has WAL starts at its switchpoint. */
  predicate ChildRangesAgree(edges: seq<HistoryEdge>, ranges: seq<WalRange>) {
    forall k :: 0 <= k < |edges| ==>
      var child := RangesFor(ranges, edges[k].child);
      child == [] || (child[0].start >= edges[k].switchPosition && Holds(ranges, edges[k].child, edges[k].switchPosition))
  }

  ghost predicate Cyclic(known: ParentMap) {
    exists c :: c in known && !Ends(known, c)
  }

  function ObjectsOf(objects: seq<HistoryObject>, timeline: U32): seq<HistoryObject> {
    if objects == [] then []
    else
      var front, last := ObjectsOf(objects[..|objects| - 1], timeline), objects[|objects| - 1];
      if last.timeline == timeline then front + [last] else front
  }

  function EntriesOf(text: HistoryText, timeline: U32, size: int): Option<seq<HistoryEdge>> {
    if text.Parsed? then ParseResult(text.entries, timeline, size) else None
  }

  datatype Judgement = Judgement(history: TimelineHistory, known: ParentMap)

  ghost function Judge(input: Inputs, timeline: U32, known: ParentMap): Judgement {
    var listed := ObjectsOf(input.objects, timeline);
    var blank := TimelineHistory(input.wal.server, "", timeline, Evidence.Unknown, DuplicateObjects, []);
    if |listed| != 1 then Judgement(blank, known)
    else
      var text := input.read(listed[0]);
      var keyed := blank.(key := listed[0].key);
      var edges := EntriesOf(text, timeline, input.wal.segmentSize);
      if text.Unreadable? then Judgement(keyed.(reason := CannotRead), known)
      else if edges.None? then Judgement(keyed.(reason := MalformedHistory), known)
      else
        var learned := Learn(edges.value, known);
        var drawn := keyed.(edges := edges.value);
        if !Agrees(edges.value, known) then Judgement(drawn.(reason := ContradictsOthers), known)
        else if Cyclic(learned) then Judgement(drawn.(reason := CyclicAncestry), learned)
        else if !ChildRangesAgree(edges.value, input.wal.ranges) then Judgement(drawn.(reason := ChildRangeDisagrees), learned)
        else Judgement(drawn.(state := Evidence.Healthy, reason := AncestryParsed), learned)
  }

  method JudgeOne(input: Inputs, timeline: U32, listed: seq<HistoryObject>, known: ParentMap)
    returns (history: TimelineHistory, known': ParentMap)
    requires listed == ObjectsOf(input.objects, timeline)
    ensures Judgement(history, known') == Judge(input, timeline, known)
  {
    hide Learn, Agrees, ChildRangesAgree, Ends, ParseResult, ObjectsOf;
    history := TimelineHistory(input.wal.server, "", timeline, Evidence.Unknown, DuplicateObjects, []);
    known' := known;
    if |listed| != 1 {
      return;
    }
    history := history.(key := listed[0].key);
    var text := input.read(listed[0]);
    if text.Unreadable? {
      history := history.(reason := CannotRead);
      return;
    }
    var edges := None;
    if text.Parsed? {
      edges := ParseHistory(text.entries, timeline, input.wal.segmentSize);
    }
    if edges.None? {
      history := history.(reason := MalformedHistory);
      return;
    }
    history := history.(edges := edges.value);
    var agree;
    agree, known' := HistoryEdgesAgree(edges.value, known);
    if !agree {
      history := history.(reason := ContradictsOthers);
      return;
    }
    var cyclic := CycleInEdges(known');
    if cyclic {
      history := history.(reason := CyclicAncestry);
    } else if !ChildRangesAgree(edges.value, input.wal.ranges) {
      history := history.(reason := ChildRangeDisagrees);
    } else {
      history := history.(state := Evidence.Healthy, reason := AncestryParsed);
    }
  }

  // ---------------------------------------------------------------- all histories, in timeline order

  datatype Judgements = Judgements(histories: seq<TimelineHistory>, known: ParentMap)

  ghost function JudgeAll(input: Inputs, timelines: seq<U32>): (r: Judgements)
    ensures |r.histories| == |timelines|
  {
    if timelines == [] then Judgements([], map[])
    else
      var n := |timelines| - 1;
      var front := JudgeAll(input, timelines[..n]);
      var last := Judge(input, timelines[n], front.known);
      Judgements(front.histories + [last.history], last.known)
  }

  /** A healthy history is a chain to its own timeline, recorded in the shared parent map, that its child ranges bear out. */
  ghost predicate Sound(history: TimelineHistory, known: ParentMap, wal: ServerWal) {
    history.state == Evidence.Healthy ==>
      && Chained(history.edges, history.timeline) && SwitchesPlaced(history.edges, wal.segmentSize)
      && Recorded(history.edges, known) && ChildRangesAgree(history.edges, wal.ranges)
  }

  lemma JudgeIsSound(input: Inputs, timeline: U32, known: ParentMap)
    requires Forest(known)
    ensures var j := Judge(input, timeline, known);
            && Forest(j.known) && Sound(j.history, j.known, input.wal)
            && j.history.timeline == timeline && j.history.server == input.wal.server
            && j.history.reason != CyclicAncestry
            && (forall c :: c in known ==> c in j.known && j.known[c] == known[c])
  {
    var listed := ObjectsOf(input.objects, timeline);
    if |listed| == 1 {
      var edges := EntriesOf(input.read(listed[0]), timeline, input.wal.segmentSize);
      if edges.Some? && Agrees(edges.value, known) {
        ParsedIsChained(input.read(listed[0]).entries, timeline, input.wal.segmentSize);
        ParsedArePlaced(input.read(listed[0]).entries, timeline, input.wal.segmentSize);
        ChainedChildren(edges.value, timeline);
        LearnRecords(edges.value, known);
        forall c ensures Ends(Learn(edges.value, known), c) {
          ForestEnds(Learn(edges.value, known), c);
        }
        hide Learn, Agrees, ChildRangesAgree, Ends, Chained, SwitchesPlaced, Recorded, Forest, ParseResult, ObjectsOf;
      }
    }
    hide Learn, Agrees, ChildRangesAgree, Ends, Chained, SwitchesPlaced, Recorded, Forest, ParseResult, ObjectsOf;
  }

  lemma ChainedChildren(edges: seq<HistoryEdge>, target: U32)
    requires Chained(edges, target)
    ensures forall i, j :: 0 <= i < j < |edges| ==> edges[i].child != edges[j].child
  {
  }

  lemma RecordedMore(edges: seq<HistoryEdge>, a: ParentMap, b: ParentMap)
    requires Recorded(edges, a) && forall c :: c in a ==> c in b && b[c] == a[c]
    ensures Recorded(edges, b)
  {
  }

  /**
   * All healthy histories of a server agree with one parent map in which every timeline has at most one parent, an
   * earlier one; no history is ever rejected as cyclic.
   */
  lemma {:induction false} JudgedFormForest(input: Inputs, timelines: seq<U32>)
    ensures var all := JudgeAll(input, timelines);
            && Forest(all.known)
            && forall k :: 0 <= k < |timelines| ==>
                 && Sound(all.histories[k], all.known, input.wal)
                 && all.histories[k].timeline == timelines[k]
                 && all.histories[k].server == input.wal.server
                 && all.histories[k].reason != CyclicAncestry
  {
    if timelines != [] {
      var n := |timelines| - 1;
      var front := JudgeAll(input, timelines[..n]);
      JudgedFormForest(input, timelines[..n]);
      JudgeIsSound(input, timelines[n], front.known);
      var all := JudgeAll(input, timelines);
      hide Judge, Forest, Chained, SwitchesPlaced, ChildRangesAgree, Recorded;
      forall k | 0 <= k < n ensures Sound(all.histories[k], all.known, input.wal) {
        assert all.histories[k] == front.histories[k];
        if all.histories[k].state == Evidence.Healthy {
          RecordedMore(all.histories[k].edges, front.known, all.known);
        }
      }
    }
  }

  // ---------------------------------------------------------------- the whole server

  ghost predicate HasObject(objects: seq<HistoryObject>, timeline: U32) {
    exists k :: 0 <= k < |objects| && objects[k].timeline == timeline
  }

  ghost predicate HasRange(ranges: seq<WalRange>, timeline: U32) {
    exists k :: 0 <= k < |ranges| && ranges[k].timeline == timeline
  }

  /** The timelines with history objects, each once, ascending. */
  ghost predicate ObjectTimelines(objects: seq<HistoryObject>, timelines: seq<U32>) {
    && (forall i, j :: 0 <= i < j < |timelines| ==> timelines[i] < timelines[j])
    && (forall t :: t in timelines <==> HasObject(objects, t))
  }

  ghost predicate HealthyChild(histories: seq<TimelineHistory>, timeline: U32) {
    exists k, e :: 0 <= k < |histories| && histories[k].state == Evidence.Healthy
                   && 0 <= e < |histories[k].edges| && histories[k].edges[e].child == timeline
  }

  /** A timeline above 1 with WAL needs a history of its own, or a place in a healthy one. */
  ghost predicate RequiresHistory(input: Inputs, histories: seq<TimelineHistory>, timeline: U32) {
    timeline > 1 && HasRange(input.wal.ranges, timeline) && !HasObject(input.objects, timeline)
    && !HealthyChild(histories, timeline)
  }

  function MissingEntry(server: string, timeline: U32): TimelineHistory {
    TimelineHistory(server, "", timeline, Evidence.Unknown, HistoryMissing, [])
  }

  predicate HistoryBefore(a: TimelineHistory, b: TimelineHistory) {
    a.timeline < b.timeline
  }

  ghost predicate Analyzed(input: Inputs, timelines: seq<U32>, result: seq<TimelineHistory>) {
    var histories := JudgeAll(input, timelines).histories;
    && ObjectTimelines(input.objects, timelines)
    && Sorting.StrictlySorted(HistoryBefore, result)
    && forall h :: h in result <==>
         h in histories || (h == MissingEntry(input.wal.server, h.timeline) && RequiresHistory(input, histories, h.timeline))
  }

  ghost predicate NothingObserved(input: Inputs) {
    input.wal.ranges == [] && input.objects == []
  }

  ghost predicate AllHealthy(histories: seq<TimelineHistory>) {
    forall h :: h in histories ==> h.state == Evidence.Healthy
  }

  lemma ObjectsOfEmpty(objects: seq<HistoryObject>, timeline: U32)
    ensures ObjectsOf(objects, timeline) == [] <==> !HasObject(objects, timeline)
  {
    if objects != [] {
      ObjectsOfEmpty(objects[..|objects| - 1], timeline);
      assert forall k :: 0 <= k < |objects| - 1 ==> objects[..|objects| - 1][k] == objects[k];
    }
  }

  /** Groups the objects by timeline. */
  method GroupObjects(objects: seq<HistoryObject>) returns (byTimeline: map<U32, seq<HistoryObject>>)
    ensures forall t :: t in byTimeline <==> HasObject(objects, t)
    ensures forall t :: t in byTimeline ==> byTimeline[t] == ObjectsOf(objects, t)
  {
    byTimeline := map[];
    for k := 0 to |objects|
      invariant forall t :: t in byTimeline <==> ObjectsOf(objects[..k], t) != []
      invariant forall t :: t in byTimeline ==> byTimeline[t] == ObjectsOf(objects[..k], t)
    {
      var t := objects[k].timeline;
      assert objects[..k + 1][..k] == objects[..k] && objects[..k + 1][k] == objects[k];
      byTimeline := byTimeline[t := (if t in byTimeline then byTimeline[t] else []) + [objects[k]]];
    }
    assert objects[..|objects|] == objects;
    forall t ensures t in byTimeline <==> HasObject(objects, t) {
      ObjectsOfEmpty(objects, t);
    }
  }

  function U32Less(a: U32, b: U32): bool {
    a < b
  }

  /** The members of a set in ascending order. */
  method Ascending(keys: set<U32>) returns (sorted: seq<U32>)
    ensures forall i, j :: 0 <= i < j < |sorted| ==> sorted[i] < sorted[j]
    ensures forall t :: t in sorted <==> t in keys
  {
    var todo, listed := keys, [];
    while todo != {}
      invariant todo <= keys
      invariant forall t :: t in listed <==> t in keys && t !in todo
      invariant Sorting.Distinct(listed)
    {
      var t :| t in todo;
      todo, listed := todo - {t}, listed + [t];
    }
    Sorting.SortStrict(U32Less, listed);
    sorted := Sorting.Sort(U32Less, listed);
    forall i, j | 0 <= i < j < |sorted| ensures sorted[i] < sorted[j] {
      assert U32Less(sorted[i], sorted[j]);
    }
  }

  /** Judges the histories in timeline order, noting the children the healthy ones account for. */
  method JudgeHistories(input: Inputs, byTimeline: map<U32, seq<HistoryObject>>, timelines: seq<U32>)
    returns (result: seq<TimelineHistory>, knownChildren: set<U32>, allHealthy: bool)
    requires forall t :: t in timelines ==> t in byTimeline && byTimeline[t] == ObjectsOf(input.objects, t)
    ensures result == JudgeAll(input, timelines).histories
    ensures forall t :: t in knownChildren <==> HealthyChild(result, t)
    ensures allHealthy <==> AllHealthy(result)
  {
    hide Judge, HealthyChild, Children;
    result, knownChildren, allHealthy := [], {}, true;
    NoChildYet();
    var allEdges: ParentMap := map[];
    for k := 0 to |timelines|
      invariant JudgeAll(input, timelines[..k]) == Judgements(result, allEdges)
      invariant forall t :: t in knownChildren <==> HealthyChild(result, t)
      invariant allHealthy <==> AllHealthy(result)
    {
      assert timelines[..k + 1][..k] == timelines[..k];
      var history;
      history, allEdges := JudgeOne(input, timelines[k], byTimeline[timelines[k]], allEdges);
      HealthyChildSnoc(result, history);
      if history.state == Evidence.Healthy {
        knownChildren := knownChildren + Children(history.edges);
      } else {
        allHealthy := false;
      }
      result := result + [history];
    }
    assert timelines[..|timelines|] == timelines;
  }

  function Children(edges: seq<HistoryEdge>): set<U32> {
    set e | 0 <= e < |edges| :: edges[e].child
  }

  lemma NoChildYet()
    ensures forall t :: !HealthyChild([], t)
  {
  }

  lemma HealthyChildSnoc(histories: seq<TimelineHistory>, h: TimelineHistory)
    ensures forall t :: HealthyChild(histories + [h], t) <==>
              HealthyChild(histories, t)
              || (h.state == Evidence.Healthy && t in Children(h.edges))
    ensures forall x :: x in histories + [h] <==> x in histories || x == h
  {
    var all := histories + [h];
    forall t: U32 | HealthyChild(histories, t) ensures HealthyChild(all, t) {
      var k, e :| 0 <= k < |histories| && histories[k].state == Evidence.Healthy
                  && 0 <= e < |histories[k].edges| && histories[k].edges[e].child == t;
      assert all[k] == histories[k];
    }
    assert all[|histories|] == h;
  }

  /** The observed timelines that no history accounts for. */
  method MissingHistories(input: Inputs, byTimeline: map<U32, seq<HistoryObject>>, knownChildren: set<U32>,
                          ghost histories: seq<TimelineHistory>)
    returns (missing: seq<TimelineHistory>)
    requires forall t :: t in byTimeline <==> HasObject(input.objects, t)
    requires forall t :: t in knownChildren <==> HealthyChild(histories, t)
    ensures forall h :: h in missing <==>
              h == MissingEntry(input.wal.server, h.timeline) && RequiresHistory(input, histories, h.timeline)
    ensures Sorting.Comparable(HistoryBefore, missing)
  {
    var todo := set k | 0 <= k < |input.wal.ranges| :: input.wal.ranges[k].timeline;
    assert forall t :: t in todo <==> HasRange(input.wal.ranges, t);
    ghost var all := todo;
    missing := [];
    while todo != {}
      invariant todo <= all
      invariant forall h :: h in missing <==>
                  h == MissingEntry(input.wal.server, h.timeline) && h.timeline in all - todo
                  && RequiresHistory(input, histories, h.timeline)
      invariant Sorting.Comparable(HistoryBefore, missing)
    {
      hide HasObject, HealthyChild, HasRange;
      var timeline :| timeline in todo;
      if timeline > 1 && timeline !in byTimeline && timeline !in knownChildren {
        missing := missing + [MissingEntry(input.wal.server, timeline)];
      }
      todo := todo - {timeline};
    }
  }

  lemma HistoryBeforeIsOrder()
    ensures Sorting.StrictWeakOrder(HistoryBefore)
  {
  }

  /** `analyzeHistories`. */
  method AnalyzeHistories(input: Inputs, truncated: bool)
    returns (result: seq<TimelineHistory>, state: Evidence.State, reason: TimelineReason, ghost timelines: seq<U32>)
    ensures truncated ==> result == [] && state == Evidence.Unknown && reason == FileLimit
    ensures !truncated ==> Analyzed(input, timelines, result)
    ensures state == Evidence.Healthy || state == Evidence.Unknown
    ensures state == Evidence.Healthy <==> !truncated && !NothingObserved(input) && AllHealthy(result)
  {
    hide JudgeAll, ObjectsOf, Forest, Sound, Analyzed, RequiresHistory, HealthyChild, HasRange, HasObject, Sorting.Sort,
         Sorting.Comparable, AllHealthy;
    timelines := [];
    if truncated {
      return [], Evidence.Unknown, FileLimit, [];
    }
    var byTimeline := GroupObjects(input.objects);
    var ordered := Ascending(byTimeline.Keys);
    timelines := ordered;
    var judged, knownChildren, allHealthy := JudgeHistories(input, byTimeline, ordered);
    var missing := MissingHistories(input, byTimeline, knownChildren, judged);
    assert forall k :: 0 <= k < |judged| ==> judged[k].timeline == ordered[k] by {
      JudgedFormForest(input, ordered);
    }
    state, reason := Evidence.Healthy, AllParsed;
    if !allHealthy || missing != [] {
      state, reason := Evidence.Unknown, InvalidEvidence;
    }
    MissingNotHealthy(input.wal.server, missing);
    if |input.wal.ranges| == 0 && |input.objects| == 0 {
      state, reason := Evidence.Unknown, NoTimelines;
    } else if judged == [] && missing == [] {
      reason := NoneRequired;
    }
    SortHistories(input, ordered, judged, missing);
    result := Sorting.Sort(HistoryBefore, judged + missing);
  }

  lemma MissingNotHealthy(server: string, missing: seq<TimelineHistory>)
    requires forall h :: h in missing ==> h == MissingEntry(server, h.timeline)
    ensures AllHealthy(missing) <==> missing == []
  {
    if missing != [] {
      assert missing[0] in missing;
    }
  }

  lemma SortHistories(input: Inputs, timelines: seq<U32>, judged: seq<TimelineHistory>, missing: seq<TimelineHistory>)
    requires judged == JudgeAll(input, timelines).histories && ObjectTimelines(input.objects, timelines)
    requires forall k :: 0 <= k < |judged| ==> judged[k].timeline == timelines[k]
    requires forall h :: h in missing <==>
               h == MissingEntry(input.wal.server, h.timeline) && RequiresHistory(input, judged, h.timeline)
    requires Sorting.Comparable(HistoryBefore, missing)
    ensures Analyzed(input, timelines, Sorting.Sort(HistoryBefore, judged + missing))
    ensures AllHealthy(Sorting.Sort(HistoryBefore, judged + missing)) <==> AllHealthy(judged) && AllHealthy(missing)
  {
    hide JudgeAll, HealthyChild, HasRange, HasObject;
    HistoryBeforeIsOrder();
    forall x, y | x in judged && y in missing ensures x.timeline != y.timeline {
      var k :| 0 <= k < |judged| && judged[k] == x;
      assert timelines[k] in timelines;
    }
    Sorting.ComparableConcat(HistoryBefore, judged, missing);
    Sorting.SortStrict(HistoryBefore, judged + missing);
  }
}
