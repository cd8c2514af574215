// Walking compact ranges from one position towards another (recovery.go).
module RangeWalk {
  import opened Results
  import opened WalRanges
  import opened WalGaps
  import Evidence

  datatype Stop = Frontier | CandidateLimited | GapLimited | UnknownLimited

  datatype WalkReason =
    | NoReason | StartNotObserved | ConfirmedGapStops | CandidateGapStops | UnclassifiedDiscontinuity
    | ConsistencyNotObserved | ReachesFrontier

  datatype Walk = Walk(position: U64, receipt: Time, state: Evidence.State, stop: Stop, reason: WalkReason)

  function RangesFor(ranges: seq<WalRange>, timeline: U32): (r: seq<WalRange>)
    ensures forall k :: 0 <= k < |r| ==> r[k] in ranges && r[k].timeline == timeline
  {
    if ranges == [] then []
    else if ranges[0].timeline == timeline then [ranges[0]] + RangesFor(ranges[1..], timeline)
    else RangesFor(ranges[1..], timeline)
  }

  /** `gapAfter`: the first gap of the timeline that starts right after the position, in 64-bit arithmetic. */
  function GapAfter(gaps: seq<WalGap>, timeline: U32, position: U64): (r: Option<WalGap>)
    ensures r.Some? ==> r.value in gaps && r.value.timeline == timeline
                        && r.value.start == (position + 1) % 0x1_0000_0000_0000_0000
    ensures r.None? ==> forall g :: g in gaps && g.timeline == timeline ==> g.start != (position + 1) % 0x1_0000_0000_0000_0000
  {
    if gaps == [] then None
    else if gaps[0].timeline == timeline && gaps[0].start == (position + 1) % 0x1_0000_0000_0000_0000 then Some(gaps[0])
    else GapAfter(gaps[1..], timeline, position)
  }

  function NotStarted(start: U64): Walk {
    Walk(start, 0, Evidence.Unknown, UnknownLimited, StartNotObserved)
  }

  /** Where the walk ends when a further range of the timeline follows the one it is in. */
  function StopAt(range: WalRange, gaps: seq<WalGap>): Walk {
    var gap := GapAfter(gaps, range.timeline, range.end);
    if gap.Some? && gap.value.status == Confirmed then
      Walk(range.end, range.endReceipt, Evidence.Unhealthy, GapLimited, ConfirmedGapStops)
    else if gap.Some? && gap.value.status == Candidate then
      Walk(range.end, range.endReceipt, Evidence.Warning, CandidateLimited, CandidateGapStops)
    else Walk(range.end, range.endReceipt, Evidence.Unknown, UnknownLimited, UnclassifiedDiscontinuity)
  }

  function Reach(ranges: seq<WalRange>, gaps: seq<WalGap>, start: U64, required: U64): Walk {
    if ranges == [] || start < ranges[0].start then NotStarted(start)
    else
      var value := ranges[0];
      if start > value.end then Reach(ranges[1..], gaps, start, required)
      else if value.end >= required then
        Walk(required, if value.end == required then value.endReceipt else 0, Evidence.Healthy, Frontier, NoReason)
      else if |ranges| > 1 then StopAt(value, gaps)
      else Walk(value.end, value.endReceipt, Evidence.Unknown, UnknownLimited, ConsistencyNotObserved)
  }

  function Extend(ranges: seq<WalRange>, gaps: seq<WalGap>, start: U64): Walk {
    if ranges == [] || start < ranges[0].start then NotStarted(start)
    else
      var value := ranges[0];
      if start > value.end then Extend(ranges[1..], gaps, start)
      else if |ranges| > 1 then StopAt(value, gaps)
      else Walk(value.end, value.endReceipt, Evidence.Healthy, Frontier, ReachesFrontier)
  }

  function ReachPosition(ranges: seq<WalRange>, gaps: seq<WalGap>, timeline: U32, start: U64, required: U64): Walk {
    Reach(RangesFor(ranges, timeline), gaps, start, required)
  }

  function ContiguousFrontier(ranges: seq<WalRange>, gaps: seq<WalGap>, timeline: U32, start: U64): Walk {
    Extend(RangesFor(ranges, timeline), gaps, start)
  }

  // ---------------------------------------------------------------- the loops of the source

  lemma RangesStep(values: seq<WalRange>, k: int, timeline: U32)
    requires 0 <= k < |values|
    ensures RangesFor(values[k..], timeline)
            == (if values[k].timeline == timeline then [values[k]] else []) + RangesFor(values[k + 1..], timeline)
  {
    assert values[k..][1..] == values[k + 1..];
  }

  lemma NoRangesLeft(values: seq<WalRange>, timeline: U32)
    ensures RangesFor(values[|values|..], timeline) == [] && values[0..] == values
  {
  }

  method SelectRanges(values: seq<WalRange>, timeline: U32) returns (result: seq<WalRange>)
    ensures result == RangesFor(values, timeline)
  {
    hide RangesFor;
    NoRangesLeft(values, timeline);
    result := [];
    for k := 0 to |values|
      invariant RangesFor(values, timeline) == result + RangesFor(values[k..], timeline)
    {
      RangesStep(values, k, timeline);
      if values[k].timeline == timeline {
        result := result + [values[k]];
      }
    }
    NoRangesLeft(values, timeline);
  }

  method StopBetween(gaps: seq<WalGap>, timeline: U32, value: WalRange) returns (walk: Walk)
    requires value.timeline == timeline
    ensures walk == StopAt(value, gaps)
  {
    var gap := GapAfter(gaps, timeline, value.end);
    if gap.Some? && gap.value.status == Confirmed {
      return Walk(value.end, value.endReceipt, Evidence.Unhealthy, GapLimited, ConfirmedGapStops);
    }
    if gap.Some? && gap.value.status == Candidate {
      return Walk(value.end, value.endReceipt, Evidence.Warning, CandidateLimited, CandidateGapStops);
    }
    return Walk(value.end, value.endReceipt, Evidence.Unknown, UnknownLimited, UnclassifiedDiscontinuity);
  }

  method WalkTo(all: seq<WalRange>, gaps: seq<WalGap>, timeline: U32, start: U64, required: U64) returns (walk: Walk)
    ensures walk == ReachPosition(all, gaps, timeline, start, required)
  {
    var ranges := SelectRanges(all, timeline);
    for index := 0 to |ranges|
      invariant Reach(ranges, gaps, start, required) == Reach(ranges[index..], gaps, start, required)
    {
      hide StopAt;
      var value := ranges[index];
      assert ranges[index..][1..] == ranges[index + 1..];
      if start < value.start {
        return NotStarted(start);
      }
      if start > value.end {
        continue;
      }
      if value.end >= required {
        var receipt := 0;
        if value.end == required {
          receipt := value.endReceipt;
        }
        return Walk(required, receipt, Evidence.Healthy, Frontier, NoReason);
      }
      if index + 1 < |ranges| {
        walk := StopBetween(gaps, timeline, value);
        return;
      }
      return Walk(value.end, value.endReceipt, Evidence.Unknown, UnknownLimited, ConsistencyNotObserved);
    }
    return NotStarted(start);
  }

  method WalkOn(all: seq<WalRange>, gaps: seq<WalGap>, timeline: U32, start: U64) returns (walk: Walk)
    ensures walk == ContiguousFrontier(all, gaps, timeline, start)
  {
    var ranges := SelectRanges(all, timeline);
    for index := 0 to |ranges|
      invariant Extend(ranges, gaps, start) == Extend(ranges[index..], gaps, start)
    {
      hide StopAt;
      var value := ranges[index];
      assert ranges[index..][1..] == ranges[index + 1..];
      if start < value.start {
        return NotStarted(start);
      }
      if start > value.end {
        continue;
      }
      if index + 1 < |ranges| {
        walk := StopBetween(gaps, timeline, value);
        return;
      }
      return Walk(value.end, value.endReceipt, Evidence.Healthy, Frontier, ReachesFrontier);
    }
    return NotStarted(start);
  }

  // ---------------------------------------------------------------- walks against single positions

  ghost predicate In(ranges: seq<WalRange>, position: int) {
    exists k :: 0 <= k < |ranges| && ranges[k].start <= position <= ranges[k].end
  }

  /** Sorted, disjoint and non-adjacent ranges of one timeline. */
  ghost predicate Separated(ranges: seq<WalRange>) {
    && (forall k :: 0 <= k < |ranges| ==> ranges[k].start <= ranges[k].end)
    && (forall i, j :: 0 <= i < j < |ranges| ==> ranges[i].end + 1 < ranges[j].start)
  }

  ghost predicate AllIn(ranges: seq<WalRange>, start: int, end: int) {
    forall p :: start <= p <= end ==> In(ranges, p)
  }

  lemma {:induction false} SelectedSeparated(ranges: seq<WalRange>, timeline: U32)
    requires Canonical(ranges)
    ensures Separated(RangesFor(ranges, timeline))
  {
    if ranges != [] {
      SelectedSeparated(ranges[1..], timeline);
      var rest := RangesFor(ranges[1..], timeline);
      assert forall k :: 0 <= k < |rest| ==> RangeBefore(ranges[0], rest[k]);
    }
  }

  lemma {:induction false} SelectedObserved(ranges: seq<WalRange>, timeline: U32, p: int)
    ensures Observed(ranges, timeline, p) <==> In(RangesFor(ranges, timeline), p)
  {
    if ranges != [] {
      hide Observed, In;
      SelectedObserved(ranges[1..], timeline, p);
      ObservedCons(ranges, timeline, p);
      InCons(ranges[0], RangesFor(ranges[1..], timeline), p);
    }
  }

  lemma SelectedRanges(ranges: seq<WalRange>, timeline: U32)
    requires Canonical(ranges)
    ensures Separated(RangesFor(ranges, timeline))
    ensures forall p :: Observed(ranges, timeline, p) <==> In(RangesFor(ranges, timeline), p)
  {
    SelectedSeparated(ranges, timeline);
    forall p ensures Observed(ranges, timeline, p) <==> In(RangesFor(ranges, timeline), p) {
      SelectedObserved(ranges, timeline, p);
    }
  }

  lemma ObservedCons(ranges: seq<WalRange>, timeline: U32, p: int)
    requires ranges != []
    ensures Observed(ranges, timeline, p) <==> InRange(ranges[0], timeline, p) || Observed(ranges[1..], timeline, p)
  {
    if Observed(ranges[1..], timeline, p) {
      var k :| 0 <= k < |ranges[1..]| && InRange(ranges[1..][k], timeline, p);
      assert InRange(ranges[k + 1], timeline, p);
    }
    if Observed(ranges, timeline, p) {
      var k :| 0 <= k < |ranges| && InRange(ranges[k], timeline, p);
      assert k > 0 ==> InRange(ranges[1..][k - 1], timeline, p);
    }
  }

  lemma InCons(first: WalRange, rest: seq<WalRange>, p: int)
    ensures In([first] + rest, p) <==> first.start <= p <= first.end || In(rest, p)
  {
    var all := [first] + rest;
    if In(rest, p) {
      var k :| 0 <= k < |rest| && rest[k].start <= p <= rest[k].end;
      assert all[k + 1].start <= p <= all[k + 1].end;
    }
    if In(all, p) {
      var k :| 0 <= k < |all| && all[k].start <= p <= all[k].end;
      assert k > 0 ==> rest[k - 1].start <= p <= rest[k - 1].end;
    }
    assert all[0] == first;
  }

  lemma SeparatedTail(ranges: seq<WalRange>)
    requires Separated(ranges) && ranges != []
    ensures Separated(ranges[1..])
    ensures forall p :: In(ranges, p) <==> ranges[0].start <= p <= ranges[0].end || In(ranges[1..], p)
    ensures forall p :: In(ranges[1..], p) ==> p > ranges[0].end + 1
  {
    assert ranges == [ranges[0]] + ranges[1..];
    forall p ensures In(ranges, p) <==> ranges[0].start <= p <= ranges[0].end || In(ranges[1..], p) {
      InCons(ranges[0], ranges[1..], p);
    }
  }

  /** The last observed position of the run that contains `start`. */
  ghost predicate RunEnd(ranges: seq<WalRange>, start: int, end: int) {
    start <= end && AllIn(ranges, start, end) && !In(ranges, end + 1)
  }

  ghost predicate Beyond(ranges: seq<WalRange>, position: int) {
    exists p :: In(ranges, p) && p > position
  }

  /** Where a walk stops short, in terms of the gap that follows and of whether anything follows at all. */
  ghost predicate StopsShort(walk: Walk, ranges: seq<WalRange>, gaps: seq<WalGap>, timeline: U32, lastReason: WalkReason) {
    if Beyond(ranges, walk.position) then
      var gap := GapAfter(gaps, timeline, walk.position);
      if gap.None? then walk.state == Evidence.Unknown && walk.reason == UnclassifiedDiscontinuity
      else if gap.value.status == Confirmed then walk.state == Evidence.Unhealthy && walk.stop == GapLimited
      else walk.state == Evidence.Warning && walk.stop == CandidateLimited
    else
      walk.reason == lastReason && walk.state == if lastReason == ReachesFrontier then Evidence.Healthy else Evidence.Unknown
  }

  /** From within the first range the run ends with it, and whatever else there is lies beyond. */
  lemma FirstRun(ranges: seq<WalRange>, start: int)
    requires Separated(ranges) && ranges != [] && ranges[0].start <= start <= ranges[0].end
    ensures In(ranges, start) && RunEnd(ranges, start, ranges[0].end)
    ensures Beyond(ranges, ranges[0].end) <==> |ranges| > 1
    ensures forall end :: start <= end ==> (AllIn(ranges, start, end) <==> end <= ranges[0].end)
  {
    SeparatedTail(ranges);
    forall p | start <= p <= ranges[0].end ensures In(ranges, p) {
      InCons(ranges[0], ranges[1..], p);
    }
    if |ranges| > 1 {
      assert In(ranges, ranges[1].start);
    }
    hide In;
    assert !In(ranges, ranges[0].end + 1);
  }

  /** From beyond the first range it makes no difference. */
  lemma LaterRun(ranges: seq<WalRange>, start: int)
    requires Separated(ranges) && ranges != [] && start > ranges[0].end
    ensures Separated(ranges[1..]) && (In(ranges, start) <==> In(ranges[1..], start))
    ensures forall end :: start <= end ==> (RunEnd(ranges, start, end) <==> RunEnd(ranges[1..], start, end))
    ensures forall end :: start <= end ==> (Beyond(ranges, end) <==> Beyond(ranges[1..], end))
    ensures forall end :: start <= end ==> (AllIn(ranges, start, end) <==> AllIn(ranges[1..], start, end))
  {
    SeparatedTail(ranges);
    hide In, Separated;
  }

  /** Nothing is observed before the first range. */
  lemma BeforeFirst(ranges: seq<WalRange>, start: int)
    requires Separated(ranges) && (ranges != [] ==> start < ranges[0].start)
    ensures !In(ranges, start) && forall end :: start <= end ==> !AllIn(ranges, start, end)
  {
    if ranges != [] {
      SeparatedTail(ranges);
    }
    hide Separated;
  }

  /**
   * The frontier walk refines a per-position walk: from an observed start it returns the largest position up to which
   * everything is observed, healthy exactly when that is the greatest observed position of the timeline.
   */
  lemma {:induction false} ExtendRefines(ranges: seq<WalRange>, gaps: seq<WalGap>, timeline: U32, start: U64)
    requires Separated(ranges) && forall k :: 0 <= k < |ranges| ==> ranges[k].timeline == timeline
    ensures var walk := Extend(ranges, gaps, start);
            if In(ranges, start) then
              RunEnd(ranges, start, walk.position) && StopsShort(walk, ranges, gaps, timeline, ReachesFrontier)
            else walk == NotStarted(start)
    ensures Extend(ranges, gaps, start).state == Evidence.Healthy <==>
            In(ranges, start) && forall p :: In(ranges, p) ==> p <= Extend(ranges, gaps, start).position
  {
    hide In, Separated, AllIn;
    if ranges == [] || start < ranges[0].start {
      BeforeFirst(ranges, start);
    } else if start > ranges[0].end {
      LaterRun(ranges, start);
      ExtendRefines(ranges[1..], gaps, timeline, start);
    } else {
      FirstRun(ranges, start);
    }
  }

  function Max(a: int, b: int): int {
    if a >= b then a else b
  }

  /**
   * The walk to a required position is healthy exactly when everything from the start up to it is observed. Short of
   * that it stops at the end of the run of the start. A required position before the start is never looked at.
   */
  lemma {:induction false} ReachRefines(ranges: seq<WalRange>, gaps: seq<WalGap>, timeline: U32, start: U64, required: U64)
    requires Separated(ranges) && forall k :: 0 <= k < |ranges| ==> ranges[k].timeline == timeline
    ensures var walk := Reach(ranges, gaps, start, required);
            && (walk.state == Evidence.Healthy <==> AllIn(ranges, start, Max(start, required)))
            && (walk.state == Evidence.Healthy ==> walk.position == required)
            && (if !In(ranges, start) then walk == NotStarted(start)
                else walk.state != Evidence.Healthy ==>
                  RunEnd(ranges, start, walk.position) && walk.position < required
                  && StopsShort(walk, ranges, gaps, timeline, ConsistencyNotObserved))
  {
    hide In, Separated, AllIn;
    if ranges == [] || start < ranges[0].start {
      BeforeFirst(ranges, start);
    } else if start > ranges[0].end {
      LaterRun(ranges, start);
      ReachRefines(ranges[1..], gaps, timeline, start, required);
    } else {
      FirstRun(ranges, start);
    }
  }

  // ---------------------------------------------------------------- gap lists of finished catalogs

  /** Wherever a run ends with something observed beyond it, a gap starts right there. */
  ghost predicate GapsClassified(ranges: seq<WalRange>, gaps: seq<WalGap>) {
    forall t: U32, q: U64, b: U64 :: Observed(ranges, t, q) && !Observed(ranges, t, q + 1) && Observed(ranges, t, b) && q < b
                      ==> GapAfter(gaps, t, q).Some?
  }

  /** A gap of a finished list starts right after an observed position and holds nothing observed. */
  lemma GapBounds(ranges: seq<WalRange>, previous: seq<WalGap>, size: int, generation: U64, k: nat)
    requires Canonical(ranges) && k < |GapsOf(ranges, previous, size, generation)|
    ensures var g := GapsOf(ranges, previous, size, generation)[k];
            && g.start > 0 && Observed(ranges, g.timeline, g.start - 1)
            && forall p :: g.start <= p <= g.end ==> !Observed(ranges, g.timeline, p)
  {
    hide GapsOf, Observed, Canonical, NameOr, Span, FindGap;
    var g := GapsOf(ranges, previous, size, generation)[k];
    var i := GapHasNeighbours(ranges, previous, size, generation, k);
    ObservedAt(ranges, i - 1);
    forall p | g.start <= p <= g.end ensures !Observed(ranges, g.timeline, p) {
      NotObservedBetween(ranges, g.timeline, p, i);
    }
  }

  lemma ObservedAt(ranges: seq<WalRange>, k: int)
    requires Canonical(ranges) && 0 <= k < |ranges|
    ensures Observed(ranges, ranges[k].timeline, ranges[k].start) && Observed(ranges, ranges[k].timeline, ranges[k].end)
  {
    assert InRange(ranges[k], ranges[k].timeline, ranges[k].start);
    assert InRange(ranges[k], ranges[k].timeline, ranges[k].end);
  }

  lemma EnclosedAfter(ranges: seq<WalRange>, timeline: U32, q: int, b: int)
    requires Canonical(ranges) && Observed(ranges, timeline, q) && !Observed(ranges, timeline, q + 1)
    requires Observed(ranges, timeline, b) && q < b
    ensures Enclosed(ranges, timeline, q + 1)
  {
    var i :| 0 <= i < |ranges| && InRange(ranges[i], timeline, q);
    var j :| 0 <= j < |ranges| && InRange(ranges[j], timeline, b);
    assert !InRange(ranges[i], timeline, q + 1) && !InRange(ranges[j], timeline, q + 1);
    assert j < i ==> RangeBefore(ranges[j], ranges[i]);
    assert i < j ==> RangeBefore(ranges[i], ranges[j]);
  }

  lemma GapFollows(ranges: seq<WalRange>, previous: seq<WalGap>, size: int, generation: U64, t: U32, q: U64, b: U64)
    requires Canonical(ranges) && Observed(ranges, t, q) && !Observed(ranges, t, q + 1) && Observed(ranges, t, b) && q < b
    ensures GapAfter(GapsOf(ranges, previous, size, generation), t, q).Some?
  {
    hide GapsOf, Observed, Canonical, Enclosed;
    var gaps := GapsOf(ranges, previous, size, generation);
    EnclosedAfter(ranges, t, q, b);
    GapsPartition(ranges, previous, size, generation, t, q + 1);
    var k :| 0 <= k < |gaps| && InGap(gaps[k], t, q + 1);
    GapBounds(ranges, previous, size, generation, k);
    assert gaps[k] in gaps && gaps[k].start == q + 1;
  }

  /** The gaps Finish computes classify every discontinuity, so that branch of the walks is never taken on them. */
  lemma FinishedGapsClassify(ranges: seq<WalRange>, previous: seq<WalGap>, size: int, generation: U64)
    requires Canonical(ranges)
    ensures GapsClassified(ranges, GapsOf(ranges, previous, size, generation))
  {
    hide GapsOf, Observed, Canonical, GapAfter;
    forall t: U32, q: U64, b: U64 | Observed(ranges, t, q) && !Observed(ranges, t, q + 1) && Observed(ranges, t, b) && q < b
      ensures GapAfter(GapsOf(ranges, previous, size, generation), t, q).Some?
    {
      GapFollows(ranges, previous, size, generation, t, q, b);
    }
  }

  /** A walk that stops short of something observed finds a gap there. */
  lemma StopIsClassified(ranges: seq<WalRange>, gaps: seq<WalGap>, timeline: U32, start: U64, walk: Walk, last: WalkReason)
    requires Canonical(ranges) && GapsClassified(ranges, gaps) && last != UnclassifiedDiscontinuity
    requires RunEnd(RangesFor(ranges, timeline), start, walk.position)
    requires StopsShort(walk, RangesFor(ranges, timeline), gaps, timeline, last)
    ensures walk.reason == UnclassifiedDiscontinuity ==> walk.state != Evidence.Unknown
  {
    hide In, Observed, Canonical, RangesFor, Separated, GapAfter;
    SelectedRanges(ranges, timeline);
    if p :| In(RangesFor(ranges, timeline), p) && p > walk.position {
      ObservedIsU64(ranges, timeline, p);
      assert Observed(ranges, timeline, walk.position) && !Observed(ranges, timeline, walk.position + 1);
      assert GapAfter(gaps, timeline, walk.position).Some?;
    }
  }

  lemma ObservedIsU64(ranges: seq<WalRange>, timeline: U32, p: int)
    requires Observed(ranges, timeline, p)
    ensures 0 <= p <= MAX_UINT64
  {
  }

  /** Over classified gaps neither walk ever reports an unclassified discontinuity. */
  lemma NeverUnclassified(ranges: seq<WalRange>, gaps: seq<WalGap>, timeline: U32, start: U64, required: U64)
    requires Canonical(ranges) && GapsClassified(ranges, gaps)
    ensures ReachPosition(ranges, gaps, timeline, start, required).reason != UnclassifiedDiscontinuity
    ensures ContiguousFrontier(ranges, gaps, timeline, start).reason != UnclassifiedDiscontinuity
  {
    hide In, Reach, Extend, GapsClassified, Canonical, Separated, StopsShort, RunEnd, AllIn;
    var selected := RangesFor(ranges, timeline);
    SelectedRanges(ranges, timeline);
    ReachRefines(selected, gaps, timeline, start, required);
    ExtendRefines(selected, gaps, timeline, start);
    ReasonOfReach(selected, gaps, start, required);
    ReasonOfExtend(selected, gaps, start);
    var reach, extend := Reach(selected, gaps, start, required), Extend(selected, gaps, start);
    if In(selected, start) && reach.state != Evidence.Healthy {
      StopIsClassified(ranges, gaps, timeline, start, reach, ConsistencyNotObserved);
    }
    if In(selected, start) {
      StopIsClassified(ranges, gaps, timeline, start, extend, ReachesFrontier);
    }
  }

  lemma {:induction false} ReasonOfReach(ranges: seq<WalRange>, gaps: seq<WalGap>, start: U64, required: U64)
    ensures var walk := Reach(ranges, gaps, start, required);
            walk.reason == UnclassifiedDiscontinuity ==> In(ranges, start) && walk.state == Evidence.Unknown
  {
    if ranges != [] && start >= ranges[0].start {
      ReasonOfReach(ranges[1..], gaps, start, required);
      InCons(ranges[0], ranges[1..], start);
      assert ranges == [ranges[0]] + ranges[1..];
    }
  }

  lemma {:induction false} ReasonOfExtend(ranges: seq<WalRange>, gaps: seq<WalGap>, start: U64)
    ensures var walk := Extend(ranges, gaps, start);
            walk.reason == UnclassifiedDiscontinuity ==> In(ranges, start) && walk.state == Evidence.Unknown
  {
    if ranges != [] && start >= ranges[0].start {
      ReasonOfExtend(ranges[1..], gaps, start);
      InCons(ranges[0], ranges[1..], start);
      assert ranges == [ranges[0]] + ranges[1..];
    }
  }

  // ---------------------------------------------------------------- history before the start does not matter

  /** What is left of the ranges once those wholly before a position are dropped. */
  function RangesFrom(ranges: seq<WalRange>, start: U64): seq<WalRange> {
    if ranges == [] then []
    else if ranges[0].end < start then RangesFrom(ranges[1..], start)
    else [ranges[0]] + RangesFrom(ranges[1..], start)
  }

  lemma {:induction false} NothingToDrop(ranges: seq<WalRange>, start: U64)
    requires forall k :: 0 <= k < |ranges| ==> ranges[k].end >= start
    ensures RangesFrom(ranges, start) == ranges
  {
    if ranges != [] {
      NothingToDrop(ranges[1..], start);
    }
  }

  /** The gaps of a timeline that start after a position. */
  function GapsFrom(gaps: seq<WalGap>, timeline: U32, start: U64): seq<WalGap> {
    if gaps == [] then []
    else if gaps[0].timeline == timeline && gaps[0].start > start then [gaps[0]] + GapsFrom(gaps[1..], timeline, start)
    else GapsFrom(gaps[1..], timeline, start)
  }

  lemma {:induction false} GapAfterFrom(gaps: seq<WalGap>, timeline: U32, start: U64, q: U64)
    requires start <= q < MAX_UINT64
    ensures GapAfter(GapsFrom(gaps, timeline, start), timeline, q) == GapAfter(gaps, timeline, q)
  {
    if gaps != [] {
      GapAfterFrom(gaps[1..], timeline, start, q);
    }
  }

  /** Dropping what lies wholly before the start changes neither walk. */
  lemma {:induction false} WalksIgnoreHistory(ranges: seq<WalRange>, gaps: seq<WalGap>, timeline: U32, start: U64, required: U64)
    requires Separated(ranges)
    requires forall k :: 0 <= k < |ranges| ==> ranges[k].timeline == timeline && ranges[k].end < MAX_UINT64
    ensures var ranges', gaps' := RangesFrom(ranges, start), GapsFrom(gaps, timeline, start);
            Reach(ranges', gaps', start, required) == Reach(ranges, gaps, start, required)
            && Extend(ranges', gaps', start) == Extend(ranges, gaps, start)
  {
    if ranges != [] {
      SeparatedTail(ranges);
      if ranges[0].end < start {
        WalksIgnoreHistory(ranges[1..], gaps, timeline, start, required);
      } else {
        NothingToDrop(ranges, start);
        GapAfterFrom(gaps, timeline, start, ranges[0].end);
      }
    }
  }
}
