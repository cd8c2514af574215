// What the finished WAL evidence of one server says about its listing (wal.go).
module WalEvidence {
  import opened Results
  import opened Store
  import opened WalNames
  import opened WalClassify
  import opened WalCollector
  import opened WalRanges
  import opened WalGaps
  import opened WalCatalog
  import Evidence

  /** A complete segment object was listed at this position. */
  ghost predicate At(segments: seq<Classified>, size: int, timeline: U32, position: int) {
    exists k :: 0 <= k < |segments| && SitsAt(segments[k], size, timeline, position)
  }

  ghost predicate SitsAt(c: Classified, size: int, timeline: U32, position: int) {
    c.timeline == timeline && PositionOf(IdOf(c), size).Ok? && PositionOf(IdOf(c), size).value == position
  }

  // ---------------------------------------------------------------- ranges against the listing

  function PositionOf(id: SegmentId, size: int): Result<U64, NameError> {
    WalPosition(id.timeline, id.log, id.segment, size)
  }

  /** Inside one log, positions advance with the segment number. */
  lemma PlacedOffset(raw: RawRange, id: SegmentId, size: int)
    requires InRaw(raw, id) && Placeable(raw, size)
    ensures PositionOf(id, size) == Ok(Place(raw, size).start + (id.segment - raw.start))
    ensures Place(raw, size).end == Place(raw, size).start + (raw.end - raw.start)
  {
    SegmentBounds(size);
    hide NameOr, Span, ValidSegmentSize, SegmentsPerLog;
  }

  /** A segment inside a range that is not placeable up to its end may still be; the end never is. */
  lemma MisplacedEnd(raw: RawRange, size: int)
    requires ValidSegmentSize(size) && raw.timeline != 0 && raw.start <= raw.end
    ensures Placeable(raw, size) <==> PositionOf(EndId(raw), size).Ok?
    ensures forall id :: InRaw(raw, id) && PositionOf(id, size).Err? ==> !Placeable(raw, size)
  {
    hide ValidSegmentSize, SegmentsPerLog;
  }

  /** No retained range covers a position that no listed object names. */
  lemma RangeIsListed(c: Compaction, segments: seq<Classified>, size: int, timeline: U32, position: int)
    requires Sound(c, segments) && RawObserved(c.ranges, size, timeline, position)
    ensures At(segments, size, timeline, position)
  {
    hide Placeable, Place, WalPosition, Ordered;
    var k :| 0 <= k < |c.ranges| && Placeable(c.ranges[k], size) && InRange(Place(c.ranges[k], size), timeline, position);
    var raw := c.ranges[k];
    assert InRaw(raw, EndId(raw)) && raw.timeline == timeline by { RangeShape(c, segments, k, size); }
    PlacedOffset(raw, EndId(raw), size);
    var id := SegmentId(timeline, raw.log, position - Place(raw, size).start + raw.start);
    assert InRaw(raw, id) && Covered(c.ranges, id);
    PlacedOffset(raw, id, size);
    var j :| 0 <= j < |segments| && IdOf(segments[j]) == id;
    assert SitsAt(segments[j], size, timeline, position);
  }

  lemma RangeShape(c: Compaction, segments: seq<Classified>, k: int, size: int)
    requires Sound(c, segments) && 0 <= k < |c.ranges|
    ensures c.ranges[k].start <= c.ranges[k].end && c.ranges[k].timeline != 0
    ensures Placeable(c.ranges[k], size) ==> Place(c.ranges[k], size).timeline == c.ranges[k].timeline
  {
    hide WalPosition;
  }

  /** In an in-order, untruncated, well-placed listing no listed position is lost. */
  lemma ListedIsInRange(c: Compaction, segments: seq<Classified>, size: int, timeline: U32, position: int)
    requires Exact(c, segments) && !AnyMisplaced(c.ranges, size) && At(segments, size, timeline, position)
    ensures RawObserved(c.ranges, size, timeline, position)
  {
    hide Placeable, WalPosition, NameOr, Span, Ids, Receipts;
    var j :| 0 <= j < |segments| && SitsAt(segments[j], size, timeline, position);
    assert Covered(c.ranges, IdOf(segments[j]));
    var k :| 0 <= k < |c.ranges| && InRaw(c.ranges[k], IdOf(segments[j]));
    PlacedOffset(c.ranges[k], IdOf(segments[j]), size);
    assert InRange(Place(c.ranges[k], size), timeline, position);
  }

  ghost predicate AllPlaced(segments: seq<Classified>, size: int) {
    forall k :: 0 <= k < |segments| ==> PositionOf(IdOf(segments[k]), size).Ok?
  }

  /** Every retained range is placeable exactly when every listed segment is. */
  lemma MisplacedIff(c: Compaction, segments: seq<Classified>, size: int)
    requires Sound(c, segments) && Exact(c, segments) && ValidSegmentSize(size)
    ensures AnyMisplaced(c.ranges, size) <==> !AllPlaced(segments, size)
  {
    hide Placeable, WalPosition, Receipts, Ids, ValidSegmentSize;
    if AnyMisplaced(c.ranges, size) {
      var k :| 0 <= k < |c.ranges| && !Placeable(c.ranges[k], size);
      MisplacedEnd(c.ranges[k], size);
      assert InRaw(c.ranges[k], EndId(c.ranges[k])) && Covered(c.ranges, EndId(c.ranges[k]));
      var j :| 0 <= j < |segments| && IdOf(segments[j]) == EndId(c.ranges[k]);
    }
    if !AllPlaced(segments, size) {
      var j :| 0 <= j < |segments| && PositionOf(IdOf(segments[j]), size).Err?;
      assert Covered(c.ranges, IdOf(segments[j]));
      var k :| 0 <= k < |c.ranges| && InRaw(c.ranges[k], IdOf(segments[j]));
      MisplacedEnd(c.ranges[k], size);
    }
  }

  // ---------------------------------------------------------------- when a server is healthy

  /** Each segment object names a position after the one before it. */
  ghost predicate Increasing(segments: seq<Classified>) {
    forall i, j :: 0 <= i < j < |segments| ==> IdLess(IdOf(segments[i]), IdOf(segments[j]))
  }

  ghost predicate NoneOfKind(objects: seq<Classified>, kind: WalClass) {
    forall k :: 0 <= k < |objects| ==> objects[k].kind != kind
  }

  /** The listed positions of each timeline form one interval. */
  ghost predicate Contiguous(segments: seq<Classified>, size: int) {
    forall t, p, a, b :: At(segments, size, t, a) && At(segments, size, t, b) && a <= p <= b ==> At(segments, size, t, p)
  }

  /** Nothing in the listing of this server needs operator review. */
  ghost predicate CleanListing(objects: seq<Classified>, size: int) {
    var segments := SegmentsIn(objects);
    && segments != [] && Increasing(segments) && AllPlaced(segments, size)
    && NoneOfKind(objects, UnknownClass)
    && |objects| - |segments| <= MAX_WAL_DIAGNOSTICS
  }

  lemma {:induction false} CountKindZero(objects: seq<Classified>, kind: WalClass)
    ensures CountKind(objects, kind) == 0 <==> NoneOfKind(objects, kind)
  {
    if objects != [] {
      var n := |objects| - 1;
      CountKindZero(objects[..n], kind);
      assert forall k :: 0 <= k < n ==> objects[..n][k] == objects[k];
    }
  }

  /** In order without a repeated position means strictly increasing. */
  lemma {:induction false} IncreasingIff(segments: seq<Classified>)
    requires NonDecreasing(segments)
    ensures |Ids(segments)| <= |segments|
    ensures |Ids(segments)| == |segments| <==> Increasing(segments)
  {
    if segments == [] {
      assert Ids(segments) == {};
    } else {
      var n := |segments| - 1;
      var front, x := segments[..n], segments[n];
      assert segments == front + [x];
      NonDecreasingAppend(front, x);
      IncreasingIff(front);
      IdsOfAppend(front, x);
      CountOneMore(Ids(front), IdOf(x));
      IncreasingAppend(front, x);
    }
  }

  lemma IncreasingAppend(front: seq<Classified>, x: Classified)
    requires NonDecreasing(front + [x])
    ensures Increasing(front + [x]) <==> Increasing(front) && IdOf(x) !in Ids(front)
  {
    var t := front + [x];
    assert forall k :: 0 <= k < |front| ==> t[k] == front[k];
    assert t[|front|] == x;
    assert Increasing(t) ==> forall k :: 0 <= k < |front| ==> IdLess(IdOf(t[k]), IdOf(t[|front|]));
    if Increasing(front) && IdOf(x) !in Ids(front) {
      forall i, j | 0 <= i < j < |t| ensures IdLess(IdOf(t[i]), IdOf(t[j])) {
        assert j == |front| ==> IdOf(front[i]) in Ids(front) && !IdLess(IdOf(t[j]), IdOf(t[i]));
      }
    }
  }

  ghost predicate RangesContiguous(ranges: seq<WalRange>) {
    forall t, p, a, b :: Observed(ranges, t, a) && Observed(ranges, t, b) && a <= p <= b ==> Observed(ranges, t, p)
  }

  lemma EnclosedIsBetween(ranges: seq<WalRange>, timeline: U32, position: int)
    requires Canonical(ranges) && RangesContiguous(ranges) && Enclosed(ranges, timeline, position)
    ensures Observed(ranges, timeline, position)
  {
    var i, j :| 0 <= i < j < |ranges| && ranges[i].timeline == timeline == ranges[j].timeline
                && ranges[i].end < position < ranges[j].start;
    assert InRange(ranges[i], timeline, ranges[i].end) && InRange(ranges[j], timeline, ranges[j].start);
    assert Observed(ranges, timeline, ranges[i].end) && Observed(ranges, timeline, ranges[j].start);
  }

  lemma BetweenIsEnclosed(ranges: seq<WalRange>, timeline: U32, a: int, position: int, b: int)
    requires Canonical(ranges) && Observed(ranges, timeline, a) && Observed(ranges, timeline, b) && a <= position <= b
    ensures Observed(ranges, timeline, position) || Enclosed(ranges, timeline, position)
  {
    var i :| 0 <= i < |ranges| && InRange(ranges[i], timeline, a);
    var j :| 0 <= j < |ranges| && InRange(ranges[j], timeline, b);
    assert j < i ==> RangeBefore(ranges[j], ranges[i]);
    assert i < j ==> RangeBefore(ranges[i], ranges[j]);
    if position <= ranges[i].end {
      assert InRange(ranges[i], timeline, position);
    } else if ranges[j].start <= position {
      assert InRange(ranges[j], timeline, position);
    }
  }

  /** There is no gap exactly when every timeline's observed positions form one interval. */
  lemma NoGapsIff(ranges: seq<WalRange>, previous: seq<WalGap>, size: int, generation: U64)
    requires Canonical(ranges)
    ensures GapsOf(ranges, previous, size, generation) == [] <==> RangesContiguous(ranges)
  {
    var gaps := GapsOf(ranges, previous, size, generation);
    forall t: U32, p ensures Missing(gaps, t, p) <==> Enclosed(ranges, t, p) && !Observed(ranges, t, p) {
      GapsPartition(ranges, previous, size, generation, t, p);
    }
    if gaps == [] {
      forall t: U32, p, a, b | Observed(ranges, t, a) && Observed(ranges, t, b) && a <= p <= b ensures Observed(ranges, t, p) {
        BetweenIsEnclosed(ranges, t, a, p, b);
        assert !Missing(gaps, t, p);
      }
    } else if RangesContiguous(ranges) {
      var i := GapHasNeighbours(ranges, previous, size, generation, 0);
      var g := gaps[0];
      assert InGap(g, g.timeline, g.start) && Missing(gaps, g.timeline, g.start);
      EnclosedIsBetween(ranges, g.timeline, g.start);
    }
  }

  /** Observed positions are the listed ones, once nothing was truncated, out of order or misplaced. */
  lemma ObservedIffListed(c: Compaction, segments: seq<Classified>, size: int)
    requires Compacts(c, segments) && !c.truncated && !c.outOfOrder && !AnyMisplaced(c.ranges, size)
    ensures forall t, p :: Observed(Merged(c.ranges, size), t, p) <==> At(segments, size, t, p)
  {
    MergedCorrect(c.ranges, size);
    forall t: U32, p ensures RawObserved(c.ranges, size, t, p) <==> At(segments, size, t, p) {
      hide RawObserved, At, AnyMisplaced, Sound, Exact, Merged;
      if RawObserved(c.ranges, size, t, p) {
        RangeIsListed(c, segments, size, t, p);
      }
      if At(segments, size, t, p) {
        ListedIsInRange(c, segments, size, t, p);
      }
    }
  }

  lemma MergedEmptyIff(c: Compaction, segments: seq<Classified>, size: int)
    requires Sound(c, segments) && !AnyMisplaced(c.ranges, size)
    ensures Merged(c.ranges, size) == [] <==> segments == []
  {
    hide Placeable, Place, Ordered, Covered, Named;
  }

  lemma {:induction false} SegmentsWellKinded(objects: seq<Classified>)
    requires WellKinded(objects)
    ensures forall k :: 0 <= k < |SegmentsIn(objects)| ==> SegmentsIn(objects)[k].timeline != 0
  {
    if objects != [] {
      SegmentsWellKinded(objects[..|objects| - 1]);
    }
  }

  lemma {:induction false} ListedWellKinded(listing: seq<Object>, server: string)
    ensures WellKinded(OfServer(listing, server))
  {
    if listing != [] {
      var n := |listing| - 1;
      ListedWellKinded(listing[..n], server);
      if Classify(listing[n]).Some? {
        ClassifiedKind(listing[n]);
      }
      hide Classify;
    }
  }

  lemma IncreasingIsNonDecreasing(segments: seq<Classified>)
    requires Increasing(segments)
    ensures NonDecreasing(segments)
  {
    forall i, j | 0 <= i < j < |segments| ensures !IdLess(IdOf(segments[j]), IdOf(segments[i])) {
      assert IdLess(IdOf(segments[i]), IdOf(segments[j]));
    }
  }

  /** The counters that raise doubt are zero exactly when the listing itself gives no cause. */
  lemma NoDoubtIff(objects: seq<Classified>, size: int)
    requires WellKinded(objects) && ValidSegmentSize(size)
    requires var c := Run(SegmentsIn(objects)); !c.truncated && !c.outOfOrder
    ensures var facts := FactsOf(objects);
            (!facts.diagnosticsTruncated && !AnyMisplaced(facts.ranges, size) && facts.counts.duplicates <= 0
             && facts.counts.unknown <= 0 && Merged(facts.ranges, size) != [])
            <==> CleanListing(objects, size)
  {
    var segments := SegmentsIn(objects);
    var c := Run(segments);
    SegmentsWellKinded(objects);
    RunCompacts(segments);
    CompactionIsExact(c, segments);
    IncreasingIff(segments);
    FindingsQuote(objects);
    CountKindZero(objects, UnknownClass);
    MisplacedIff(c, segments, size);
    if !AnyMisplaced(c.ranges, size) {
      MergedEmptyIff(c, segments, size);
    }
    hide Compacts, Sound, Exact, Tracking, AnyMisplaced, AllPlaced, Increasing, NoneOfKind, Merged, Run, Findings, CountKind,
         SegmentsIn, Ids, Quotes, Keep;
  }

  /** With every doubt excluded, only the gaps decide. */
  lemma VerdictHealthyIff(facts: ServerFacts, invalid: bool, ranges: seq<WalRange>, gaps: seq<WalGap>)
    ensures VerdictOf(facts, invalid, ranges, gaps).state == Evidence.Healthy <==>
            !facts.rangesTruncated && !facts.diagnosticsTruncated && !facts.outOfOrder && !invalid
            && facts.counts.duplicates <= 0 && facts.counts.unknown <= 0 && ranges != [] && gaps == []
  {
    if gaps != [] {
      assert gaps[0].status == Candidate || gaps[0].status == Confirmed;
    }
  }

  /**
   * A server is healthy exactly when its arithmetic context is known and its listing is clean, within the range
   * ceiling, and contiguous on every timeline. The previous catalog and the generation play no part.
   */
  lemma ServerHealthyIff(server: string, objects: seq<Classified>, context: Context, previous: seq<WalGap>, generation: U64)
    requires WellKinded(objects) && !context.Pending? && (context.Known? ==> ValidSegmentSize(context.size))
    ensures ServerResult(server, FactsOf(objects), context, previous, generation).state == Evidence.Healthy <==>
            context.Known? && CleanListing(objects, context.size) && !Run(SegmentsIn(objects)).truncated
            && Contiguous(SegmentsIn(objects), context.size)
  {
    if context.Known? {
      var size := context.size;
      var segments := SegmentsIn(objects);
      var c := Run(segments);
      var facts := FactsOf(objects);
      var ranges := Merged(c.ranges, size);
      SegmentsWellKinded(objects);
      RunCompacts(segments);
      MergedCorrect(c.ranges, size);
      NoGapsIff(ranges, previous, size, generation);
      VerdictHealthyIff(facts, AnyMisplaced(c.ranges, size), ranges, GapsOf(ranges, previous, size, generation));
      if CleanListing(objects, size) {
        IncreasingIsNonDecreasing(segments);
      }
      if !c.truncated && !c.outOfOrder {
        NoDoubtIff(objects, size);
        if !AnyMisplaced(c.ranges, size) {
          ObservedIffListed(c, segments, size);
          ContiguousIff(ranges, segments, size);
        }
      }
      assert c.truncated || c.outOfOrder == !NonDecreasing(segments);
      hide CleanListing, Compacts, AnyMisplaced, Merged, GapsOf, Run, Findings, CountKind, SegmentsIn, VerdictOf, Keep,
           Contiguous, RangesContiguous, Canonical;
    }
  }

  lemma ContiguousIff(ranges: seq<WalRange>, segments: seq<Classified>, size: int)
    requires forall t, p :: Observed(ranges, t, p) <==> At(segments, size, t, p)
    ensures RangesContiguous(ranges) <==> Contiguous(segments, size)
  {
    hide Observed, At;
  }
}
