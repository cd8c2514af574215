// Streaming compaction of one provider listing into raw WAL ranges (wal.go).
module WalCollector {
  import opened Results
  import opened Store
  import opened Text
  import opened WalClassify
  import opened WalNames

  const MAX_WAL_RANGES := 10_000
  const MAX_WAL_DIAGNOSTICS := 200
  const MAX_HISTORY_FILES := 1_000

  datatype Counts = Counts(segments: int, partials: int, history: int, backupHistory: int, unknown: int, duplicates: int)

  datatype RawRange = RawRange(timeline: U32, log: U32, start: U32, end: U32, latestReceipt: Time, endReceipt: Time)

  datatype Diagnostic = Diagnostic(
    key: string, name: string, note: Note, kind: WalClass, timeline: U32, lastModified: Time)

  datatype HistoryObject = HistoryObject(key: string, server: string, name: string, compression: string, timeline: U32)

  // ---------------------------------------------------------------- segments as a plain set

  datatype SegmentId = SegmentId(timeline: U32, log: U32, segment: U32)

  function IdOf(c: Classified): SegmentId {
    SegmentId(c.timeline, c.log, c.segment)
  }

  predicate IdLess(a: SegmentId, b: SegmentId) {
    a.timeline < b.timeline || (a.timeline == b.timeline && (a.log < b.log || (a.log == b.log && a.segment < b.segment)))
  }

  ghost predicate Named(segments: seq<Classified>, id: SegmentId) {
    exists k :: 0 <= k < |segments| && IdOf(segments[k]) == id
  }

  ghost function Ids(segments: seq<Classified>): set<SegmentId> {
    set k | 0 <= k < |segments| :: IdOf(segments[k])
  }

  /** The listing order the collector relies on. */
  ghost predicate NonDecreasing(segments: seq<Classified>) {
    forall i, j :: 0 <= i < j < |segments| ==> !IdLess(IdOf(segments[j]), IdOf(segments[i]))
  }

  // ---------------------------------------------------------------- raw ranges

  ghost predicate InRaw(r: RawRange, id: SegmentId) {
    r.timeline == id.timeline && r.log == id.log && r.start <= id.segment <= r.end
  }

  ghost predicate Covered(ranges: seq<RawRange>, id: SegmentId) {
    exists k :: 0 <= k < |ranges| && InRaw(ranges[k], id)
  }

  predicate RawBefore(a: RawRange, b: RawRange) {
    a.timeline < b.timeline || (a.timeline == b.timeline && (a.log < b.log || (a.log == b.log && a.end + 1 < b.start)))
  }

  /** Strictly ordered, and never adjacent within one log. */
  ghost predicate Ordered(ranges: seq<RawRange>) {
    && (forall k :: 0 <= k < |ranges| ==> ranges[k].start <= ranges[k].end && ranges[k].timeline != 0)
    && (forall i, j :: 0 <= i < j < |ranges| ==> RawBefore(ranges[i], ranges[j]))
  }

  function EndId(r: RawRange): SegmentId {
    SegmentId(r.timeline, r.log, r.end)
  }

  /** The two receipt times of a range, read off the segments that fall in it. */
  ghost predicate Receipts(r: RawRange, segments: seq<Classified>) {
    && (exists k :: 0 <= k < |segments| && InRaw(r, IdOf(segments[k])) && segments[k].lastModified == r.latestReceipt)
    && (forall k :: 0 <= k < |segments| && InRaw(r, IdOf(segments[k])) ==> segments[k].lastModified <= r.latestReceipt)
    && (exists k :: FirstNaming(segments, k, EndId(r)) && segments[k].lastModified == r.endReceipt)
  }

  ghost predicate FirstNaming(segments: seq<Classified>, k: int, id: SegmentId) {
    && 0 <= k < |segments| && IdOf(segments[k]) == id
    && forall j :: 0 <= j < k ==> IdOf(segments[j]) != id
  }

  // ---------------------------------------------------------------- what compaction promises

  datatype Compaction = Compaction(
    ranges: seq<RawRange>, outOfOrder: bool, truncated: bool, segments: int, duplicates: int)

  /** Never overstates: only named positions are covered, whatever order the objects came in. */
  ghost predicate Sound(c: Compaction, segments: seq<Classified>) {
    && Ordered(c.ranges)
    && |c.ranges| <= MAX_WAL_RANGES
    && (forall id :: Covered(c.ranges, id) ==> Named(segments, id))
    && c.segments + c.duplicates == |segments|
    && c.duplicates >= 0 && c.segments >= 0
    && (c.ranges == [] <==> segments == [])
  }

  /** Without truncation the flag is exact, because the last range ends at the greatest segment so far. */
  ghost predicate Tracking(c: Compaction, segments: seq<Classified>) {
    && (c.outOfOrder <==> !NonDecreasing(segments))
    && (c.ranges != [] ==>
        var top := EndId(c.ranges[|c.ranges| - 1]);
        Named(segments, top) && forall k :: 0 <= k < |segments| ==> !IdLess(top, IdOf(segments[k])))
  }

  /** Without truncation and in order, nothing is lost either. */
  ghost predicate Exact(c: Compaction, segments: seq<Classified>) {
    && (forall k :: 0 <= k < |segments| ==> Covered(c.ranges, IdOf(segments[k])))
    && c.segments == |Ids(segments)|
    && (forall k :: 0 <= k < |c.ranges| ==> Receipts(c.ranges[k], segments))
  }

  ghost predicate Compacts(c: Compaction, segments: seq<Classified>) {
    && Sound(c, segments)
    && (!c.truncated ==> Tracking(c, segments))
    && (!c.truncated && !c.outOfOrder ==> Exact(c, segments))
  }

  /** In order and untruncated, the covered set is the set of listed segments. */
  lemma CompactionIsExact(c: Compaction, segments: seq<Classified>)
    requires Compacts(c, segments) && !c.truncated && NonDecreasing(segments)
    ensures forall id :: Covered(c.ranges, id) <==> id in Ids(segments)
    ensures c.segments == |Ids(segments)|
    ensures c.duplicates == |segments| - |Ids(segments)|
  {
    forall id ensures Covered(c.ranges, id) <==> id in Ids(segments) {
      if id in Ids(segments) {
        var k :| 0 <= k < |segments| && IdOf(segments[k]) == id;
        assert Covered(c.ranges, IdOf(segments[k]));
      }
    }
  }

  // ---------------------------------------------------------------- one step of the compaction

  function Later(a: Time, b: Time): Time {
    if b > a then b else a
  }

  lemma IdsOfAppend(segments: seq<Classified>, x: Classified)
    ensures Ids(segments + [x]) == Ids(segments) + {IdOf(x)}
    ensures forall id :: Named(segments + [x], id) <==> Named(segments, id) || id == IdOf(x)
  {
    var t := segments + [x];
    assert IdOf(t[|segments|]) == IdOf(x);
    forall id | Named(segments, id) || id == IdOf(x) ensures Named(t, id) && id in Ids(t) {
      if Named(segments, id) {
        var k :| 0 <= k < |segments| && IdOf(segments[k]) == id;
        assert IdOf(t[k]) == id;
      }
    }
    forall id | id in Ids(t) ensures id in Ids(segments) + {IdOf(x)} && Named(t, id) {
      var k :| 0 <= k < |t| && IdOf(t[k]) == id;
      if k < |segments| {
        assert IdOf(segments[k]) == id;
      }
    }
    forall id | Named(t, id) ensures Named(segments, id) || id == IdOf(x) {
      var k :| 0 <= k < |t| && IdOf(t[k]) == id;
      if k < |segments| {
        assert IdOf(segments[k]) == id;
      }
    }
  }

  /** Appending keeps the order exactly when nothing seen so far is greater. */
  lemma NonDecreasingAppend(segments: seq<Classified>, x: Classified)
    ensures NonDecreasing(segments + [x]) <==>
            NonDecreasing(segments) && forall k :: 0 <= k < |segments| ==> !IdLess(IdOf(x), IdOf(segments[k]))
  {
    var t := segments + [x];
    assert t[|segments|] == x;
    if NonDecreasing(t) {
      forall i, j | 0 <= i < j < |segments| ensures !IdLess(IdOf(segments[j]), IdOf(segments[i])) {
        assert t[i] == segments[i] && t[j] == segments[j];
      }
      forall k | 0 <= k < |segments| ensures !IdLess(IdOf(x), IdOf(segments[k])) {
        assert t[k] == segments[k];
      }
    }
  }

  lemma ReceiptsKept(r: RawRange, segments: seq<Classified>, x: Classified)
    requires Receipts(r, segments) && !InRaw(r, IdOf(x))
    ensures Receipts(r, segments + [x])
  {
    var t := segments + [x];
    var k :| 0 <= k < |segments| && InRaw(r, IdOf(segments[k])) && segments[k].lastModified == r.latestReceipt;
    assert t[k] == segments[k];
    var e :| FirstNaming(segments, e, EndId(r)) && segments[e].lastModified == r.endReceipt;
    assert FirstNaming(t, e, EndId(r)) && t[e].lastModified == r.endReceipt;
  }

  /** A range whose end grew to `x`, or that was named again by `x`. */
  lemma ReceiptsGrown(r: RawRange, g: RawRange, segments: seq<Classified>, x: Classified)
    requires Receipts(r, segments) && r.timeline == x.timeline && r.log == x.log
    requires x.segment == r.end || (x.segment == r.end + 1 && !Named(segments, IdOf(x)))
    requires g == r.(end := x.segment, latestReceipt := Later(r.latestReceipt, x.lastModified),
                     endReceipt := if x.segment == r.end then r.endReceipt else x.lastModified)
    requires r.start <= r.end
    ensures Receipts(g, segments + [x])
  {
    var t := segments + [x];
    var n := |segments|;
    assert t[n] == x;
    forall k | 0 <= k < n ensures InRaw(g, IdOf(t[k])) ==> t[k].lastModified <= g.latestReceipt {
      assert t[k] == segments[k];
      assert x.segment == r.end || IdOf(segments[k]) != IdOf(x);
    }
    var k :| 0 <= k < n && InRaw(r, IdOf(segments[k])) && segments[k].lastModified == r.latestReceipt;
    assert t[k] == segments[k];
    var e :| FirstNaming(segments, e, EndId(r)) && segments[e].lastModified == r.endReceipt;
    if x.segment == r.end {
      assert FirstNaming(t, e, EndId(g));
    } else {
      assert FirstNaming(t, n, EndId(g));
    }
  }

  lemma ReceiptsNew(r: RawRange, segments: seq<Classified>, x: Classified)
    requires !Named(segments, IdOf(x))
    requires r == RawRange(x.timeline, x.log, x.segment, x.segment, x.lastModified, x.lastModified)
    ensures Receipts(r, segments + [x])
  {
    var t := segments + [x];
    assert t[|segments|] == x;
    forall k | 0 <= k < |segments| ensures IdOf(t[k]) != IdOf(x) {
      assert t[k] == segments[k];
    }
    assert FirstNaming(t, |segments|, EndId(r));
  }

  // The three promises, one step at a time.

  lemma SoundStep(c: Compaction, d: Compaction, segments: seq<Classified>, x: Classified)
    requires Sound(c, segments)
    requires Ordered(d.ranges) && 0 < |d.ranges| <= MAX_WAL_RANGES
    requires forall id :: Covered(d.ranges, id) ==> Covered(c.ranges, id) || id == IdOf(x)
    requires d.segments + d.duplicates == c.segments + c.duplicates + 1
    requires d.duplicates >= 0 && d.segments >= 0
    ensures Sound(d, segments + [x])
  {
    IdsOfAppend(segments, x);
  }

  lemma TrackStep(c: Compaction, d: Compaction, segments: seq<Classified>, x: Classified)
    requires Tracking(c, segments) && d.ranges != []
    requires c.ranges == [] ==> segments == []
    requires var top := EndId(d.ranges[|d.ranges| - 1]);
             if IdOf(x) == top then
               d.outOfOrder == c.outOfOrder
               && (c.ranges != [] ==> !IdLess(top, EndId(c.ranges[|c.ranges| - 1])))
             else
               d.outOfOrder && c.ranges != [] && top == EndId(c.ranges[|c.ranges| - 1]) && IdLess(IdOf(x), top)
    ensures Tracking(d, segments + [x])
  {
    var t := segments + [x];
    var top := EndId(d.ranges[|d.ranges| - 1]);
    NonDecreasingAppend(segments, x);
    if IdOf(x) == top {
      assert IdOf(t[|segments|]) == top;
      assert forall k :: 0 <= k < |segments| ==> !IdLess(top, IdOf(segments[k]));
      assert forall k :: 0 <= k < |segments| ==> t[k] == segments[k];
    } else {
      var k :| 0 <= k < |segments| && IdOf(segments[k]) == top;
      assert t[k] == segments[k];
      assert forall j :: 0 <= j < |segments| ==> t[j] == segments[j];
    }
  }

  lemma ExactStep(c: Compaction, d: Compaction, segments: seq<Classified>, x: Classified)
    requires Exact(c, segments)
    requires forall id :: Covered(c.ranges, id) || id == IdOf(x) ==> Covered(d.ranges, id)
    requires d.segments == c.segments + if IdOf(x) in Ids(segments) then 0 else 1
    requires forall k :: 0 <= k < |d.ranges| ==> Receipts(d.ranges[k], segments + [x])
    ensures Exact(d, segments + [x])
  {
    hide Covered, Receipts, Named;
    var t := segments + [x];
    IdsOfAppend(segments, x);
    CountOneMore(Ids(segments), IdOf(x));
    forall k | 0 <= k < |t| ensures Covered(d.ranges, IdOf(t[k])) {
      assert k < |segments| ==> t[k] == segments[k] && Covered(c.ranges, IdOf(segments[k]));
    }
  }

  lemma CountOneMore<T>(s: set<T>, x: T)
    ensures |s + {x}| == |s| + if x in s then 0 else 1
  {
    if x in s {
      assert s + {x} == s;
    }
  }

  /** What growing the last range of `c` by `x` leaves. */
  ghost predicate Grows(c: Compaction, x: Classified, d: Compaction) {
    && c.ranges != []
    && var n := |c.ranges| - 1;
       var last := c.ranges[n];
       && x.timeline == last.timeline && x.log == last.log
       && (x.segment == last.end || x.segment == last.end + 1)
       && |d.ranges| == n + 1 && d.ranges[..n] == c.ranges[..n]
       && d.ranges[n] == last.(end := x.segment, latestReceipt := Later(last.latestReceipt, x.lastModified),
                               endReceipt := if x.segment == last.end then last.endReceipt else x.lastModified)
       && (if x.segment == last.end then d == c.(ranges := d.ranges, duplicates := c.duplicates + 1)
           else d == c.(ranges := d.ranges, segments := c.segments + 1))
  }

  lemma GrowOrder(c: Compaction, x: Classified, d: Compaction)
    requires Ordered(c.ranges) && Grows(c, x, d)
    ensures Ordered(d.ranges)
  {
    var n := |c.ranges| - 1;
    assert forall k :: 0 <= k < n ==> d.ranges[k] == d.ranges[..n][k] == c.ranges[k];
    forall i, j | 0 <= i < j < |d.ranges| ensures RawBefore(d.ranges[i], d.ranges[j]) {
      assert RawBefore(c.ranges[i], c.ranges[j]);
    }
  }

  lemma LastOrdered(ranges: seq<RawRange>)
    requires Ordered(ranges) && ranges != []
    ensures ranges[|ranges| - 1].start <= ranges[|ranges| - 1].end
  {
  }

  lemma GrowCoverage(c: Compaction, x: Classified, d: Compaction, id: SegmentId)
    requires Ordered(c.ranges) && Grows(c, x, d)
    ensures Covered(d.ranges, id) <==> Covered(c.ranges, id) || id == IdOf(x)
  {
    hide Ordered;
    var n := |c.ranges| - 1;
    LastOrdered(c.ranges);
    assert forall k :: 0 <= k < n ==> d.ranges[k] == d.ranges[..n][k] == c.ranges[k];
    if Covered(c.ranges, id) {
      var k :| 0 <= k < |c.ranges| && InRaw(c.ranges[k], id);
      assert InRaw(d.ranges[k], id);
    }
    if Covered(d.ranges, id) {
      var k :| 0 <= k < |d.ranges| && InRaw(d.ranges[k], id);
      assert InRaw(c.ranges[k], id) || id == IdOf(x);
    }
    assert InRaw(d.ranges[n], IdOf(x));
  }

  lemma GrowReceipts(c: Compaction, segments: seq<Classified>, x: Classified, d: Compaction)
    requires Compacts(c, segments) && Grows(c, x, d) && !c.truncated && !c.outOfOrder
    ensures forall k :: 0 <= k < |d.ranges| ==> Receipts(d.ranges[k], segments + [x])
  {
    hide Receipts, Covered, Named, NonDecreasing, Ids;
    var n := |c.ranges| - 1;
    assert forall k :: 0 <= k <= n ==> Receipts(c.ranges[k], segments);
    forall k | 0 <= k < |d.ranges| ensures Receipts(d.ranges[k], segments + [x]) {
      if k < n {
        assert RawBefore(c.ranges[k], c.ranges[n]) && d.ranges[k] == d.ranges[..n][k] == c.ranges[k];
        ReceiptsKept(c.ranges[k], segments, x);
      } else {
        if x.segment == c.ranges[n].end + 1 {
          NotAboveTop(segments, EndId(c.ranges[n]), IdOf(x));
        }
        ReceiptsGrown(c.ranges[n], d.ranges[n], segments, x);
      }
    }
  }

  /** Naming the last position again, or the one after it, grows the last range. */
  lemma GrowStep(c: Compaction, segments: seq<Classified>, x: Classified, d: Compaction)
    requires Compacts(c, segments) && Grows(c, x, d)
    ensures Compacts(d, segments + [x])
  {
    var last := c.ranges[|c.ranges| - 1];
    hide Named, Ordered, Receipts, Exact;
    GrowOrder(c, x, d);
    forall id ensures Covered(d.ranges, id) <==> Covered(c.ranges, id) || id == IdOf(x) {
      GrowCoverage(c, x, d, id);
    }
    SoundStep(c, d, segments, x);
    if !c.truncated {
      TrackStep(c, d, segments, x);
      if !c.outOfOrder {
        GrowReceipts(c, segments, x, d);
        if x.segment == last.end {
          assert InRaw(last, IdOf(x)) && Covered(c.ranges, IdOf(x));
          NamedInIds(segments, IdOf(x));
        } else {
          NotAboveTop(segments, EndId(last), IdOf(x));
        }
        ExactStep(c, d, segments, x);
      }
    }
  }

  lemma NamedInIds(segments: seq<Classified>, id: SegmentId)
    ensures Named(segments, id) <==> id in Ids(segments)
  {
  }

  lemma NotAboveTop(segments: seq<Classified>, top: SegmentId, id: SegmentId)
    requires IdLess(top, id) && forall k :: 0 <= k < |segments| ==> !IdLess(top, IdOf(segments[k]))
    ensures !Named(segments, id) && id !in Ids(segments)
  {
  }

  /** A segment beyond the last range opens a new one. */
  ghost predicate Opens(c: Compaction, x: Classified, d: Compaction) {
    && x.timeline != 0 && |c.ranges| < MAX_WAL_RANGES
    && var r := RawRange(x.timeline, x.log, x.segment, x.segment, x.lastModified, x.lastModified);
       && (c.ranges != [] ==> RawBefore(c.ranges[|c.ranges| - 1], r))
       && d == c.(ranges := c.ranges + [r], segments := c.segments + 1)
  }

  lemma OpenCoverage(c: Compaction, segments: seq<Classified>, x: Classified, d: Compaction)
    requires Sound(c, segments) && Opens(c, x, d)
    ensures Ordered(d.ranges)
    ensures forall id :: Covered(d.ranges, id) <==> Covered(c.ranges, id) || id == IdOf(x)
  {
    var n := |c.ranges|;
    forall i, j | 0 <= i < j < |d.ranges| ensures RawBefore(d.ranges[i], d.ranges[j]) {
      if j == n && i < n - 1 {
        assert RawBefore(c.ranges[i], c.ranges[n - 1]);
      }
    }
    forall id ensures Covered(d.ranges, id) <==> Covered(c.ranges, id) || id == IdOf(x) {
      if Covered(c.ranges, id) {
        var k :| 0 <= k < n && InRaw(c.ranges[k], id);
        assert InRaw(d.ranges[k], id);
      }
      if Covered(d.ranges, id) {
        var k :| 0 <= k < |d.ranges| && InRaw(d.ranges[k], id);
        assert k < n ==> InRaw(c.ranges[k], id);
      }
      assert InRaw(d.ranges[n], IdOf(x));
    }
  }

  lemma OpenReceipts(c: Compaction, segments: seq<Classified>, x: Classified, d: Compaction)
    requires Exact(c, segments) && Opens(c, x, d) && Ordered(d.ranges) && !Named(segments, IdOf(x))
    ensures forall k :: 0 <= k < |d.ranges| ==> Receipts(d.ranges[k], segments + [x])
  {
    forall k | 0 <= k < |d.ranges| ensures Receipts(d.ranges[k], segments + [x]) {
      if k < |c.ranges| {
        assert RawBefore(d.ranges[k], d.ranges[|c.ranges|]);
        ReceiptsKept(c.ranges[k], segments, x);
      } else {
        ReceiptsNew(d.ranges[k], segments, x);
      }
    }
  }

  lemma OpenStep(c: Compaction, segments: seq<Classified>, x: Classified, d: Compaction)
    requires Compacts(c, segments) && Opens(c, x, d)
    ensures Compacts(d, segments + [x])
  {
    hide Named, Covered, Ordered, Receipts, Tracking, Exact;
    OpenCoverage(c, segments, x, d);
    SoundStep(c, d, segments, x);
    if !c.truncated {
      TrackStep(c, d, segments, x);
      OpensAbove(c, segments, x, d);
      if !c.outOfOrder {
        OpenReceipts(c, segments, x, d);
        ExactStep(c, d, segments, x);
      }
    }
  }

  lemma OpensAbove(c: Compaction, segments: seq<Classified>, x: Classified, d: Compaction)
    requires Sound(c, segments) && Tracking(c, segments) && Opens(c, x, d)
    ensures !Named(segments, IdOf(x)) && IdOf(x) !in Ids(segments)
  {
    if c.ranges != [] {
      NotAboveTop(segments, EndId(c.ranges[|c.ranges| - 1]), IdOf(x));
    }
  }

  /** A segment that is dropped, because it is out of order or the ceiling is reached. */
  lemma DropStep(c: Compaction, segments: seq<Classified>, x: Classified, d: Compaction)
    requires Compacts(c, segments) && c.ranges != []
    requires d == c.(segments := c.segments + 1, truncated := true)
             || (d == c.(segments := c.segments + 1, outOfOrder := true)
                 && IdLess(IdOf(x), EndId(c.ranges[|c.ranges| - 1])))
    ensures Compacts(d, segments + [x])
  {
    hide Named, Covered, Ordered, Receipts, Tracking, Exact;
    SoundStep(c, d, segments, x);
    if !d.truncated {
      TrackStep(c, d, segments, x);
    }
  }

  /** `addSegment` as a function of the compacted state. */
  function Step(c: Compaction, x: Classified): Compaction {
    var single := RawRange(x.timeline, x.log, x.segment, x.segment, x.lastModified, x.lastModified);
    if c.ranges == [] then c.(ranges := [single], segments := c.segments + 1)
    else
      var n := |c.ranges| - 1;
      var last := c.ranges[n];
      var later := Later(last.latestReceipt, x.lastModified);
      if IdOf(x) == EndId(last) then
        c.(ranges := c.ranges[n := last.(latestReceipt := later)], duplicates := c.duplicates + 1)
      else if x.timeline == last.timeline && x.log == last.log && x.segment == last.end + 1 then
        c.(ranges := c.ranges[n := last.(end := x.segment, latestReceipt := later, endReceipt := x.lastModified)],
           segments := c.segments + 1)
      else if IdLess(IdOf(x), EndId(last)) then c.(outOfOrder := true, segments := c.segments + 1)
      else if |c.ranges| >= MAX_WAL_RANGES then c.(truncated := true, segments := c.segments + 1)
      else c.(ranges := c.ranges + [single], segments := c.segments + 1)
  }

  /** What `addSegment` reports: a repeated position, or one that goes back. */
  function StepFindings(c: Compaction, x: Classified): (r: seq<Diagnostic>)
    ensures !Step(c, x).outOfOrder ==> |r| == Step(c, x).duplicates - c.duplicates
    ensures c.outOfOrder ==> Step(c, x).outOfOrder
    ensures |r| <= 1
    ensures forall k :: 0 <= k < |r| ==> r[k].key == x.key && r[k].name == x.name && r[k].lastModified == x.lastModified
  {
    if c.ranges == [] then []
    else
      var end := EndId(c.ranges[|c.ranges| - 1]);
      if IdOf(x) == end then [DiagnosticOf(x.(kind := Duplicate, note := DuplicateRepresentation))]
      else if IdLess(IdOf(x), end) then [DiagnosticOf(x.(kind := UnknownClass, note := OutOfOrderListing))]
      else []
  }

  predicate TouchesLast(c: Compaction, x: Classified) {
    && c.ranges != []
    && var last := c.ranges[|c.ranges| - 1];
       x.timeline == last.timeline && x.log == last.log && (x.segment == last.end || x.segment == last.end + 1)
  }

  predicate Dropped(c: Compaction, x: Classified) {
    c.ranges != [] && (IdLess(IdOf(x), EndId(c.ranges[|c.ranges| - 1])) || |c.ranges| >= MAX_WAL_RANGES)
  }

  lemma StepGrows(c: Compaction, x: Classified)
    requires TouchesLast(c, x)
    ensures Grows(c, x, Step(c, x))
  {
  }

  lemma StepOpens(c: Compaction, x: Classified)
    requires x.timeline != 0 && !TouchesLast(c, x) && !Dropped(c, x)
    ensures Opens(c, x, Step(c, x))
  {
  }

  lemma StepKeeps(c: Compaction, segments: seq<Classified>, x: Classified)
    requires Compacts(c, segments) && x.timeline != 0
    ensures Compacts(Step(c, x), segments + [x])
  {
    hide Compacts, Grows, Opens;
    if TouchesLast(c, x) {
      hide Step;
      StepGrows(c, x);
      GrowStep(c, segments, x, Step(c, x));
    } else if Dropped(c, x) {
      DropStep(c, segments, x, Step(c, x));
    } else {
      hide Step;
      StepOpens(c, x);
      OpenStep(c, segments, x, Step(c, x));
    }
  }

  /** The state after any sequence of segments. */
  function Run(segments: seq<Classified>): Compaction {
    if segments == [] then Compaction([], false, false, 0, 0)
    else Step(Run(segments[..|segments| - 1]), segments[|segments| - 1])
  }

  /** The streaming form agrees with the plain set of segments, for every sequence. */
  lemma {:induction false} RunCompacts(segments: seq<Classified>)
    requires forall k :: 0 <= k < |segments| ==> segments[k].timeline != 0
    ensures Compacts(Run(segments), segments)
  {
    if segments == [] {
      assert Ids(segments) == {};
    } else {
      var n := |segments| - 1;
      RunCompacts(segments[..n]);
      StepKeeps(Run(segments[..n]), segments[..n], segments[n]);
      assert segments == segments[..n] + [segments[n]];
    }
  }

  // ---------------------------------------------------------------- what the listing says about one server

  function SegmentsIn(objects: seq<Classified>): (r: seq<Classified>)
    ensures |r| <= |objects|
  {
    if objects == [] then []
    else
      var front, last := objects[..|objects| - 1], objects[|objects| - 1];
      if last.kind == Segment then SegmentsIn(front) + [last] else SegmentsIn(front)
  }

  function CountKind(objects: seq<Classified>, kind: WalClass): nat {
    if objects == [] then 0
    else CountKind(objects[..|objects| - 1], kind) + if objects[|objects| - 1].kind == kind then 1 else 0
  }

  lemma Snoc<T>(s: seq<T>, x: T)
    ensures (s + [x])[..|s + [x]| - 1] == s && (s + [x])[|s + [x]| - 1] == x
  {
  }

  /** The classified objects of one server, in listing order. */
  function OfServer(listing: seq<Object>, server: string): (r: seq<Classified>)
    ensures forall k :: 0 <= k < |r| ==> r[k].server == server
  {
    if listing == [] then []
    else
      var front, fact := OfServer(listing[..|listing| - 1], server), Classify(listing[|listing| - 1]);
      if fact.Some? && fact.value.server == server then front + [fact.value] else front
  }

  function HistoryRefs(listing: seq<Object>): seq<HistoryObject> {
    if listing == [] then []
    else
      var front, fact := HistoryRefs(listing[..|listing| - 1]), Classify(listing[|listing| - 1]);
      if fact.Some? && fact.value.kind == History then front + [HistoryRef(fact.value)] else front
  }

  function HistoryRef(c: Classified): HistoryObject {
    HistoryObject(c.key, c.server, c.name, c.compression, c.timeline)
  }

  function Keep<T>(s: seq<T>, limit: nat): (r: seq<T>)
    ensures |r| <= limit && r <= s
  {
    if |s| <= limit then s else s[..limit]
  }

  function DiagnosticOf(c: Classified): Diagnostic {
    Diagnostic(c.key, c.name, c.note, c.kind, c.timeline, c.lastModified)
  }

  /** Everything reported about one server's objects, before the ceiling. */
  function Findings(objects: seq<Classified>): seq<Diagnostic> {
    if objects == [] then []
    else
      var front, last := objects[..|objects| - 1], objects[|objects| - 1];
      Findings(front)
      + if last.kind == Segment then StepFindings(Run(SegmentsIn(front)), last) else [DiagnosticOf(last)]
  }

  /** Each finding quotes a listed object, and in order there is one per object that is not a first segment. */
  lemma {:induction false} FindingsQuote(objects: seq<Classified>)
    ensures forall k :: 0 <= k < |Findings(objects)| ==> Quotes(Findings(objects)[k], objects)
    ensures var c := Run(SegmentsIn(objects));
            !c.outOfOrder ==> |Findings(objects)| == |objects| - |SegmentsIn(objects)| + c.duplicates
  {
    if objects != [] {
      var n := |objects| - 1;
      FindingsQuote(objects[..n]);
      assert objects == objects[..n] + [objects[n]];
      OneMore(objects[..n], objects[n]);
      QuotesMore(Findings(objects[..n]), objects[..n], objects[n]);
      hide Quotes, Run, Step;
    }
  }

  /** A diagnostic quotes some listed object. */
  ghost predicate Quotes(d: Diagnostic, objects: seq<Classified>) {
    exists k :: 0 <= k < |objects| && objects[k].key == d.key && objects[k].name == d.name
                && objects[k].lastModified == d.lastModified
  }

  datatype ServerFacts = ServerFacts(
    counts: Counts, ranges: seq<RawRange>, diagnostics: seq<Diagnostic>,
    diagnosticsTruncated: bool, rangesTruncated: bool, outOfOrder: bool)

  /** What the collector retains of one server, as a function of its listed objects. */
  function FactsOf(objects: seq<Classified>): ServerFacts {
    var c, findings := Run(SegmentsIn(objects)), Findings(objects);
    ServerFacts(
      Counts(c.segments, CountKind(objects, Partial), CountKind(objects, History),
             CountKind(objects, BackupHistory), CountKind(objects, UnknownClass), c.duplicates),
      c.ranges, Keep(findings, MAX_WAL_DIAGNOSTICS), |findings| > MAX_WAL_DIAGNOSTICS, c.truncated, c.outOfOrder)
  }

  predicate WellKinded(objects: seq<Classified>) {
    forall k :: 0 <= k < |objects| ==> objects[k].kind != Duplicate && (objects[k].kind == Segment ==> objects[k].timeline != 0)
  }

  /** `walServerBuilder`: the bounded facts retained for one server. */
  class ServerBuilder {
    var counts: Counts
    var ranges: seq<RawRange>
    var diagnostics: seq<Diagnostic>
    var diagnosticsTruncated: bool
    var rangesTruncated: bool
    var outOfOrder: bool
    ghost var objects: seq<Classified>   // everything offered, in listing order
    ghost var findings: seq<Diagnostic>  // everything reported, before the ceiling

    ghost function Compacted(): Compaction
      reads this
    {
      Compaction(ranges, outOfOrder, rangesTruncated, counts.segments, counts.duplicates)
    }

    function Facts(): ServerFacts
      reads this
    {
      ServerFacts(counts, ranges, diagnostics, diagnosticsTruncated, rangesTruncated, outOfOrder)
    }

    ghost predicate Valid()
      reads this
    {
      Facts() == FactsOf(objects) && findings == Findings(objects) && WellKinded(objects)
    }

    constructor ()
      ensures Valid() && objects == [] && findings == []
    {
      counts := Counts(0, 0, 0, 0, 0, 0);
      ranges, diagnostics := [], [];
      diagnosticsTruncated, rangesTruncated, outOfOrder := false, false, false;
      objects, findings := [], [];
    }

    method AddDiagnostic(c: Classified)
      modifies this`diagnostics, this`diagnosticsTruncated, this`findings
      requires diagnostics == Keep(findings, MAX_WAL_DIAGNOSTICS)
      requires diagnosticsTruncated <==> |findings| > MAX_WAL_DIAGNOSTICS
      ensures findings == old(findings) + [DiagnosticOf(c)]
      ensures diagnostics == Keep(findings, MAX_WAL_DIAGNOSTICS)
      ensures diagnosticsTruncated <==> |findings| > MAX_WAL_DIAGNOSTICS
    {
      findings := findings + [DiagnosticOf(c)];
      if |diagnostics| >= MAX_WAL_DIAGNOSTICS {
        diagnosticsTruncated := true;
        return;
      }
      diagnostics := diagnostics + [DiagnosticOf(c)];
    }

    method AppendRange(c: Classified)
      modifies this`ranges, this`rangesTruncated
      ensures if |old(ranges)| >= MAX_WAL_RANGES then rangesTruncated && ranges == old(ranges)
              else rangesTruncated == old(rangesTruncated)
                   && ranges == old(ranges)
                      + [RawRange(c.timeline, c.log, c.segment, c.segment, c.lastModified, c.lastModified)]
    {
      if |ranges| >= MAX_WAL_RANGES {
        rangesTruncated := true;
        return;
      }
      ranges := ranges + [RawRange(c.timeline, c.log, c.segment, c.segment, c.lastModified, c.lastModified)];
    }

    /** Offers one complete segment; `counts.Segments++` is done here on its behalf. */
    method AddSegment(c: Classified)
      requires diagnostics == Keep(findings, MAX_WAL_DIAGNOSTICS)
      requires diagnosticsTruncated <==> |findings| > MAX_WAL_DIAGNOSTICS
      modifies this
      ensures objects == old(objects)
      ensures Compacted() == Step(old(Compacted()), c)
      ensures counts == old(counts).(segments := counts.segments, duplicates := counts.duplicates)
      ensures diagnostics == Keep(findings, MAX_WAL_DIAGNOSTICS)
      ensures diagnosticsTruncated <==> |findings| > MAX_WAL_DIAGNOSTICS
      ensures findings == old(findings) + StepFindings(old(Compacted()), c)
    {
      hide Keep;
      counts := counts.(segments := counts.segments + 1);
      if |ranges| == 0 {
        AppendRange(c);
        return;
      }
      var last := ranges[|ranges| - 1];
      ghost var end := EndId(last);
      if last.timeline == c.timeline && last.log == c.log && last.end == c.segment {
        counts := counts.(segments := counts.segments - 1, duplicates := counts.duplicates + 1);
        AddDiagnostic(c.(kind := Duplicate, note := DuplicateRepresentation));
        if c.lastModified > last.latestReceipt {
          ranges := ranges[|ranges| - 1 := last.(latestReceipt := c.lastModified)];
        }
        return;
      }
      if last.timeline == c.timeline && last.log == c.log && last.end != MAX_UINT32 && last.end + 1 == c.segment {
        assert IdLess(end, IdOf(c));
        last := last.(end := c.segment, endReceipt := c.lastModified);
        if c.lastModified > last.latestReceipt {
          last := last.(latestReceipt := c.lastModified);
        }
        ranges := ranges[|ranges| - 1 := last];
        return;
      }
      if c.timeline < last.timeline
         || (c.timeline == last.timeline && (c.log < last.log || (c.log == last.log && c.segment < last.end))) {
        assert IdLess(IdOf(c), end);
        outOfOrder := true;
        AddDiagnostic(c.(kind := UnknownClass, note := OutOfOrderListing));
        return;
      }
      AppendRange(c);
    }

    /** The per-server half of `WALCollector.Add`. */
    method Add(c: Classified)
      requires Valid() && c.kind != Duplicate && (c.kind == Segment ==> c.timeline != 0)
      modifies this
      ensures Valid() && objects == old(objects) + [c]
    {
      hide SegmentsIn, CountKind, Run, Step, StepFindings, Findings, Keep;
      OneMore(objects, c);
      objects := objects + [c];
      if c.kind == Segment {
        AddSegment(c);
      } else if c.kind == Partial {
        counts := counts.(partials := counts.partials + 1);
        AddDiagnostic(c);
      } else if c.kind == History {
        counts := counts.(history := counts.history + 1);
        AddDiagnostic(c);
      } else if c.kind == BackupHistory {
        counts := counts.(backupHistory := counts.backupHistory + 1);
        AddDiagnostic(c);
      } else {
        counts := counts.(unknown := counts.unknown + 1);
        AddDiagnostic(c);
      }
    }
  }

  lemma OneMore(objects: seq<Classified>, c: Classified)
    ensures forall kind :: CountKind(objects + [c], kind) == CountKind(objects, kind) + if c.kind == kind then 1 else 0
    ensures if c.kind == Segment then
              SegmentsIn(objects + [c]) == SegmentsIn(objects) + [c]
              && Run(SegmentsIn(objects + [c])) == Step(Run(SegmentsIn(objects)), c)
            else SegmentsIn(objects + [c]) == SegmentsIn(objects)
    ensures Findings(objects + [c]) == Findings(objects)
            + if c.kind == Segment then StepFindings(Run(SegmentsIn(objects)), c) else [DiagnosticOf(c)]
  {
    Snoc(objects, c);
    Snoc(SegmentsIn(objects), c);
    hide Step, StepFindings;
  }

  lemma QuotesMore(findings: seq<Diagnostic>, objects: seq<Classified>, c: Classified)
    requires forall k :: 0 <= k < |findings| ==> Quotes(findings[k], objects)
    ensures forall k :: 0 <= k < |findings| ==> Quotes(findings[k], objects + [c])
    ensures forall d: Diagnostic :: d.key == c.key && d.name == c.name && d.lastModified == c.lastModified
                                    ==> Quotes(d, objects + [c])
  {
    var t := objects + [c];
    assert t[|objects|] == c;
    forall k | 0 <= k < |findings| ensures Quotes(findings[k], t) {
      assert Quotes(findings[k], objects);
      var j :| 0 <= j < |objects| && objects[j].key == findings[k].key && objects[j].name == findings[k].name
               && objects[j].lastModified == findings[k].lastModified;
      assert t[j] == objects[j];
    }
  }

  ghost predicate Listed(listing: seq<Object>, server: string) {
    OfServer(listing, server) != []
  }

  /** `WALCollector`: one builder per server seen in the listing. */
  class Collector {
    var servers: map<string, ServerBuilder>
    var historyObjects: seq<HistoryObject>
    var historyTruncated: bool
    ghost var listing: seq<Object>         // every object offered, in provider order
    ghost var parts: set<ServerBuilder>    // the builders this collector owns

    /** Distinct valid builders, each holding its own share of the listing. */
    ghost predicate Shares(objects: seq<Object>)
      reads this`servers, this`parts, parts
    {
      && (forall s :: s in servers ==> servers[s] in parts)
      && (forall s, t :: s in servers && t in servers && s != t ==> servers[s] != servers[t])
      && (forall s :: s in servers ==> servers[s].Valid() && servers[s].objects == OfServer(objects, s))
    }

    /** And there is one exactly for the servers listed. */
    ghost predicate Partitioned(objects: seq<Object>)
      reads this`servers, this`parts, parts
    {
      Shares(objects) && forall s :: s in servers <==> Listed(objects, s)
    }

    ghost predicate Histories(objects: seq<Object>)
      reads this`historyObjects, this`historyTruncated
    {
      && historyObjects == Keep(HistoryRefs(objects), MAX_HISTORY_FILES)
      && (historyTruncated <==> |HistoryRefs(objects)| > MAX_HISTORY_FILES)
    }

    ghost predicate Valid()
      reads this, parts
    {
      Partitioned(listing) && Histories(listing)
    }

    constructor ()
      ensures Valid() && listing == [] && parts == {}
    {
      servers := map[];
      historyObjects, historyTruncated := [], false;
      listing, parts := [], {};
    }

    lemma SamePartition(before: seq<Object>, after: seq<Object>)
      requires Partitioned(before) && forall s :: OfServer(after, s) == OfServer(before, s)
      ensures Partitioned(after)
    {
      hide OfServer, ServerBuilder.Valid;
    }

    /** Creates the builder of a server on first sight. */
    method Open(server: string, ghost objects: seq<Object>)
      requires Shares(objects) && (server !in servers ==> OfServer(objects, server) == [])
      modifies this`servers, this`parts
      ensures Shares(objects) && servers.Keys == old(servers.Keys) + {server}
      ensures parts >= old(parts) && fresh(parts - old(parts))
    {
      hide OfServer, ServerBuilder.Valid;
      if server !in servers {
        var created := new ServerBuilder();
        servers, parts := servers[server := created], parts + {created};
        assert forall s :: s in old(servers) ==> servers[s] == old(servers)[s] && servers[s] != created;
        assert forall s :: s in old(servers) ==> unchanged(servers[s]);
      }
    }

    /** Hands one classified object to the builder of its server. */
    method Offer(c: Classified, ghost before: seq<Object>, ghost after: seq<Object>)
      requires Shares(before) && c.server in servers
      requires c.kind != Duplicate && (c.kind == Segment ==> c.timeline != 0)
      requires OfServer(after, c.server) == OfServer(before, c.server) + [c]
      requires forall s :: s != c.server ==> OfServer(after, s) == OfServer(before, s)
      modifies parts
      ensures Shares(after)
    {
      hide OfServer, ServerBuilder.Valid;
      var b := servers[c.server];
      b.Add(c);
      assert forall s :: s in servers && s != c.server ==> servers[s] != b && unchanged(servers[s]);
    }

    method Record(c: Classified, ghost before: seq<Object>, ghost after: seq<Object>)
      requires Partitioned(before)
      requires c.kind != Duplicate && (c.kind == Segment ==> c.timeline != 0)
      requires OfServer(after, c.server) == OfServer(before, c.server) + [c]
      requires forall s :: s != c.server ==> OfServer(after, s) == OfServer(before, s)
      modifies this`servers, this`parts, parts
      ensures Partitioned(after)
      ensures fresh(parts - old(parts))
    {
      hide OfServer, Shares;
      Open(c.server, before);
      Offer(c, before, after);
    }

    method RecordHistory(c: Classified, ghost before: seq<Object>, ghost after: seq<Object>)
      requires Histories(before)
      requires HistoryRefs(after) == HistoryRefs(before) + [HistoryRef(c)]
      modifies this`historyObjects, this`historyTruncated
      ensures Histories(after)
    {
      if |historyObjects| < MAX_HISTORY_FILES {
        historyObjects := historyObjects + [HistoryRef(c)];
      } else {
        historyTruncated := true;
      }
    }

    method Add(entry: Object)
      requires Valid()
      modifies this, parts
      ensures Valid() && listing == old(listing) + [entry]
      ensures fresh(parts - old(parts))
    {
      var fact := Classify(entry);
      ListOneMore(listing, entry);
      hide Classify, OfServer, HistoryRefs, Partitioned;
      ghost var before, after := listing, listing + [entry];
      if fact.Some? {
        ClassifiedKind(entry);
        Record(fact.value, before, after);
        if fact.value.kind == History {
          RecordHistory(fact.value, before, after);
        }
      } else {
        SamePartition(before, after);
      }
      listing := after;
    }
  }

  /** How one more listed object extends what is known of each server. */
  lemma ListOneMore(listing: seq<Object>, entry: Object)
    ensures var fact := Classify(entry);
            && (forall s :: OfServer(listing + [entry], s)
                            == if fact.Some? && fact.value.server == s then OfServer(listing, s) + [fact.value]
                               else OfServer(listing, s))
            && HistoryRefs(listing + [entry])
               == if fact.Some? && fact.value.kind == History then HistoryRefs(listing) + [HistoryRef(fact.value)]
                  else HistoryRefs(listing)
  {
    Snoc(listing, entry);
    hide Classify;
  }

  lemma ClassifiedKind(entry: Object)
    requires Classify(entry).Some?
    ensures Classify(entry).value.kind != Duplicate
    ensures Classify(entry).value.kind in [Segment, History] ==> Classify(entry).value.timeline != 0
    ensures Classify(entry).value.key == entry.key
    ensures |Classify(entry).value.name| <= |entry.key|
  {
    hide Split, ParseHex32, HasSuffix, EqualFold, IsHex;
  }
}
