// Compact position ranges merged across log rollover (wal.go, first half of Finish).
module WalRanges {
  import opened Results
  import opened WalNames
  import opened WalCollector

  datatype WalRange = WalRange(
    timeline: U32, start: U64, end: U64, count: U64, first: string, last: string, latestReceipt: Time, endReceipt: Time)

  // ---------------------------------------------------------------- positions

  ghost predicate InRange(r: WalRange, timeline: U32, position: int) {
    r.timeline == timeline && r.start <= position <= r.end
  }

  /** Some complete segment object was listed at this position. */
  ghost predicate Observed(ranges: seq<WalRange>, timeline: U32, position: int) {
    exists k :: 0 <= k < |ranges| && InRange(ranges[k], timeline, position)
  }

  predicate RangeBefore(a: WalRange, b: WalRange) {
    a.timeline < b.timeline || (a.timeline == b.timeline && a.end + 1 < b.start)
  }

  /** Sorted, disjoint and never adjacent on one timeline. */
  ghost predicate Canonical(ranges: seq<WalRange>) {
    && (forall k :: 0 <= k < |ranges| ==> ranges[k].start <= ranges[k].end && ranges[k].timeline != 0)
    && (forall i, j :: 0 <= i < j < |ranges| ==> RangeBefore(ranges[i], ranges[j]))
  }

  /** `end - start + 1` in 64-bit arithmetic. */
  function Span(start: U64, end: U64): U64 {
    (end - start + 1) % 0x1_0000_0000_0000_0000
  }

  /** The name of a position, or the empty string the source ignores the error for. */
  function NameOr(timeline: U32, position: U64, size: int): string {
    var name := WalName(timeline, position, size);
    if name.Ok? then name.value else ""
  }

  // ---------------------------------------------------------------- merging raw ranges across log rollover

  predicate Placeable(raw: RawRange, size: int) {
    && WalPosition(raw.timeline, raw.log, raw.start, size).Ok?
    && WalPosition(raw.timeline, raw.log, raw.end, size).Ok?
  }

  function Place(raw: RawRange, size: int): WalRange
    requires Placeable(raw, size)
  {
    var start := WalPosition(raw.timeline, raw.log, raw.start, size).value;
    var end := WalPosition(raw.timeline, raw.log, raw.end, size).value;
    WalRange(raw.timeline, start, end, Span(start, end), NameOr(raw.timeline, start, size),
             NameOr(raw.timeline, end, size), raw.latestReceipt, raw.endReceipt)
  }

  function MergeOne(ranges: seq<WalRange>, value: WalRange): seq<WalRange> {
    if ranges == [] then [value]
    else
      var n := |ranges| - 1;
      var prior := ranges[n];
      if prior.timeline == value.timeline && prior.end != MAX_UINT64 && prior.end + 1 == value.start then
        ranges[n := prior.(end := value.end, last := value.last, count := Span(prior.start, value.end),
                           endReceipt := value.endReceipt, latestReceipt := Later(prior.latestReceipt, value.latestReceipt))]
      else ranges + [value]
  }

  function Merged(raws: seq<RawRange>, size: int): seq<WalRange> {
    if raws == [] then []
    else
      var front, last := Merged(raws[..|raws| - 1], size), raws[|raws| - 1];
      if Placeable(last, size) then MergeOne(front, Place(last, size)) else front
  }

  /** Merges one placed range into the last one through it, or appends it. */
  method MergeInto(ranges: seq<WalRange>, value: WalRange) returns (merged: seq<WalRange>)
    ensures merged == MergeOne(ranges, value)
  {
    if |ranges| > 0 {
      var prior := ranges[|ranges| - 1];
      if prior.timeline == value.timeline && prior.end != MAX_UINT64 && prior.end + 1 == value.start {
        prior := prior.(end := value.end, last := value.last, count := Span(prior.start, value.end),
                        endReceipt := value.endReceipt);
        if value.latestReceipt > prior.latestReceipt {
          prior := prior.(latestReceipt := value.latestReceipt);
        }
        return ranges[|ranges| - 1 := prior];
      }
    }
    return ranges + [value];
  }

  method MergeRanges(raws: seq<RawRange>, size: int) returns (ranges: seq<WalRange>, invalid: bool)
    ensures ranges == Merged(raws, size)
    ensures invalid <==> exists k :: 0 <= k < |raws| && !Placeable(raws[k], size)
  {
    ranges, invalid := [], false;
    for k := 0 to |raws|
      invariant ranges == Merged(raws[..k], size)
      invariant invalid <==> exists j :: 0 <= j < k && !Placeable(raws[j], size)
    {
      hide WalPosition, NameOr, Span, MergeOne;
      var raw := raws[k];
      assert raws[..k + 1][..k] == raws[..k] && raws[..k + 1][k] == raw;
      var start := WalPosition(raw.timeline, raw.log, raw.start, size);
      if start.Err? {
        invalid := true;
        continue;
      }
      var end := WalPosition(raw.timeline, raw.log, raw.end, size);
      if end.Err? {
        invalid := true;
        continue;
      }
      var value := WalRange(raw.timeline, start.value, end.value, Span(start.value, end.value),
                            NameOr(raw.timeline, start.value, size), NameOr(raw.timeline, end.value, size),
                            raw.latestReceipt, raw.endReceipt);
      ranges := MergeInto(ranges, value);
    }
    assert raws[..|raws|] == raws;
  }

  /** Positions of the log-relative ranges, before merging. */
  ghost predicate RawObserved(raws: seq<RawRange>, size: int, timeline: U32, position: int) {
    exists k :: 0 <= k < |raws| && Placeable(raws[k], size) && InRange(Place(raws[k], size), timeline, position)
  }

  /** Raw order becomes position order. */
  lemma PlaceOrder(a: RawRange, b: RawRange, size: int)
    requires RawBefore(a, b) && a.start <= a.end && b.start <= b.end
    requires Placeable(a, size) && Placeable(b, size)
    ensures var x, y := Place(a, size), Place(b, size);
            x.start <= x.end && y.start <= y.end
            && (x.timeline < y.timeline || (x.timeline == y.timeline && x.end < y.start))
  {
    var n := SegmentsPerLog(size);
    SegmentBounds(size);
    if a.log < b.log {
      MulStep(a.log, b.log, n);
    }
  }

  /** Where the merged list ends: at the end of the last placeable raw range. */
  ghost predicate EndsAt(ranges: seq<WalRange>, raws: seq<RawRange>, size: int) {
    ranges != [] ==>
      exists k :: 0 <= k < |raws| && Placeable(raws[k], size)
                  && var last := ranges[|ranges| - 1];
                     Place(raws[k], size).timeline == last.timeline && Place(raws[k], size).end == last.end
  }

  /** One merge step keeps the canonical form and adds exactly the new positions. */
  lemma MergeOneKeeps(ranges: seq<WalRange>, value: WalRange)
    requires Canonical(ranges) && value.start <= value.end && value.timeline != 0
    requires ranges != [] ==>
               var last := ranges[|ranges| - 1];
               last.timeline < value.timeline || (last.timeline == value.timeline && last.end < value.start)
    ensures Canonical(MergeOne(ranges, value))
    ensures forall t, p :: Observed(MergeOne(ranges, value), t, p) <==> Observed(ranges, t, p) || InRange(value, t, p)
  {
    var merged := MergeOne(ranges, value);
    forall t: U32, p ensures Observed(merged, t, p) <==> Observed(ranges, t, p) || InRange(value, t, p) {
      if Observed(ranges, t, p) {
        var k :| 0 <= k < |ranges| && InRange(ranges[k], t, p);
        assert InRange(merged[k], t, p);
      }
      if InRange(value, t, p) {
        assert InRange(merged[|merged| - 1], t, p);
      }
      if Observed(merged, t, p) {
        var k :| 0 <= k < |merged| && InRange(merged[k], t, p);
        assert k < |ranges| ==> InRange(ranges[k], t, p) || InRange(value, t, p);
      }
    }
    forall i, j | 0 <= i < j < |merged| ensures RangeBefore(merged[i], merged[j]) {
      assert j < |ranges| ==> RangeBefore(ranges[i], ranges[j]);
      assert i < |ranges| - 1 ==> RangeBefore(ranges[i], ranges[|ranges| - 1]);
    }
  }

  /** Count and names agree with the bounds. */
  ghost predicate Shaped(r: WalRange, size: int) {
    && Nameable(r.start, size) && Nameable(r.end, size) && r.end < MAX_UINT64
    && r.count == r.end - r.start + 1
    && WalName(r.timeline, r.start, size) == Ok(r.first)
    && WalName(r.timeline, r.end, size) == Ok(r.last)
  }

  lemma PlaceShaped(raw: RawRange, size: int)
    requires Placeable(raw, size) && raw.start <= raw.end
    ensures Shaped(Place(raw, size), size)
  {
    PositionIsNameable(raw.timeline, raw.log, raw.start, size);
    PositionIsNameable(raw.timeline, raw.log, raw.end, size);
    NameableIffNamed(raw.timeline, Place(raw, size).start, size);
    NameableIffNamed(raw.timeline, Place(raw, size).end, size);
    SegmentBounds(size);
    hide WalName, Nameable;
    PositionBound(raw.log, raw.end, SegmentsPerLog(size));
    PlaceOrderSelf(raw, size);
  }

  lemma PlaceOrderSelf(raw: RawRange, size: int)
    requires Placeable(raw, size) && raw.start <= raw.end
    ensures Place(raw, size).start <= Place(raw, size).end && Place(raw, size).timeline == raw.timeline != 0
  {
  }

  lemma MergeOneShaped(ranges: seq<WalRange>, value: WalRange, size: int)
    requires Canonical(ranges) && value.start <= value.end && Shaped(value, size)
    requires forall k :: 0 <= k < |ranges| ==> Shaped(ranges[k], size)
    ensures forall k :: 0 <= k < |MergeOne(ranges, value)| ==> Shaped(MergeOne(ranges, value)[k], size)
  {
    hide Nameable, WalName;
  }

  lemma NothingMerged(size: int)
    ensures Canonical([]) && EndsAt([], [], size)
    ensures forall t, p :: !Observed([], t, p) && !RawObserved([], size, t, p)
  {
  }

  lemma OrderedFront(raws: seq<RawRange>)
    requires Ordered(raws) && raws != []
    ensures Ordered(raws[..|raws| - 1])
    ensures raws[|raws| - 1].start <= raws[|raws| - 1].end
  {
  }

  /** Merging covers exactly the placeable raw positions, in canonical form, with exact counts and names. */
  lemma {:induction false} MergedCorrect(raws: seq<RawRange>, size: int)
    requires Ordered(raws)
    ensures Canonical(Merged(raws, size))
    ensures EndsAt(Merged(raws, size), raws, size)
    ensures forall k :: 0 <= k < |Merged(raws, size)| ==> Shaped(Merged(raws, size)[k], size)
    ensures forall t, p :: Observed(Merged(raws, size), t, p) <==> RawObserved(raws, size, t, p)
  {
    hide Canonical, Shaped, Observed, RawObserved, EndsAt, Placeable, Place, MergeOne, Ordered;
    if raws == [] {
      NothingMerged(size);
    } else {
      var n := |raws| - 1;
      var front, raw := raws[..n], raws[n];
      OrderedFront(raws);
      MergedCorrect(front, size);
      RawObservedSnoc(raws, size);
      EndsMore(raws, size);
      if Placeable(raw, size) {
        PlaceShaped(raw, size);
        PlaceOrderSelf(raw, size);
        MergedBefore(raws, size);
        MergeOneKeeps(Merged(front, size), Place(raw, size));
        MergeOneShaped(Merged(front, size), Place(raw, size), size);
      }
    }
  }

  lemma RawObservedSnoc(raws: seq<RawRange>, size: int)
    requires raws != []
    ensures var n := |raws| - 1;
            forall t, p :: RawObserved(raws, size, t, p) <==>
              RawObserved(raws[..n], size, t, p)
              || (Placeable(raws[n], size) && InRange(Place(raws[n], size), t, p))
  {
    hide Placeable, Place, InRange;
    var n := |raws| - 1;
    forall t: U32, p | RawObserved(raws[..n], size, t, p) ensures RawObserved(raws, size, t, p) {
      var k :| 0 <= k < n && Placeable(raws[..n][k], size) && InRange(Place(raws[..n][k], size), t, p);
      assert raws[k] == raws[..n][k];
    }
    forall t: U32, p | RawObserved(raws, size, t, p)
      ensures RawObserved(raws[..n], size, t, p) || (Placeable(raws[n], size) && InRange(Place(raws[n], size), t, p))
    {
      var k :| 0 <= k < |raws| && Placeable(raws[k], size) && InRange(Place(raws[k], size), t, p);
      assert k < n ==> raws[k] == raws[..n][k];
    }
  }

  lemma EndsMore(raws: seq<RawRange>, size: int)
    requires raws != [] && EndsAt(Merged(raws[..|raws| - 1], size), raws[..|raws| - 1], size)
    ensures EndsAt(Merged(raws, size), raws, size)
  {
    hide WalPosition, NameOr;
    var n := |raws| - 1;
    var front := Merged(raws[..n], size);
    if Placeable(raws[n], size) {
      assert Merged(raws, size)[|Merged(raws, size)| - 1].end == Place(raws[n], size).end;
    } else if front != [] {
      var k :| 0 <= k < n && Placeable(raws[..n][k], size)
               && Place(raws[..n][k], size).timeline == front[|front| - 1].timeline
               && Place(raws[..n][k], size).end == front[|front| - 1].end;
      assert raws[k] == raws[..n][k];
    }
  }

  /** Everything merged so far lies before the next raw range. */
  lemma MergedBefore(raws: seq<RawRange>, size: int)
    requires raws != [] && Ordered(raws) && Placeable(raws[|raws| - 1], size)
    requires EndsAt(Merged(raws[..|raws| - 1], size), raws[..|raws| - 1], size)
    ensures var front, value := Merged(raws[..|raws| - 1], size), Place(raws[|raws| - 1], size);
            front != [] ==>
              var last := front[|front| - 1];
              last.timeline < value.timeline || (last.timeline == value.timeline && last.end < value.start)
  {
    var n := |raws| - 1;
    var front := Merged(raws[..n], size);
    if front != [] {
      hide WalPosition, NameOr;
      var k :| 0 <= k < n && Placeable(raws[..n][k], size)
               && Place(raws[..n][k], size).timeline == front[|front| - 1].timeline
               && Place(raws[..n][k], size).end == front[|front| - 1].end;
      assert raws[k] == raws[..n][k] && RawBefore(raws[k], raws[n]);
      PlaceOrder(raws[k], raws[n], size);
    }
  }
}
