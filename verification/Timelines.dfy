// Timeline history files: ancestor chains, their agreement, and cycles (recovery.go).
module Timelines {
  import opened Results
  import opened WalNames
  import opened WalRanges

  const MAX_HISTORY_ENTRIES := 128

  datatype HistoryEdge = HistoryEdge(parent: U32, child: U32, switchLsn: U64, switchPosition: U64, switchWal: string)

  /** The parent and switchpoint of one history line, after the text of the line was split and parsed. */
  datatype Entry = Entry(parent: U32, lsn: U64)

  // ---------------------------------------------------------------- log sequence numbers

  predicate LsnPart(s: string) {
    1 <= |s| <= 8 && IsHex(s)
  }

  /** `strings.Cut(value, "/")` at the first slash. */
  function CutSlash(s: string): (r: Option<(string, string)>)
    ensures r.Some? ==> '/' !in r.value.0 && s == r.value.0 + "/" + r.value.1
    ensures r.None? <==> '/' !in s
  {
    if s == "" then None
    else if s[0] == '/' then Some(("", s[1..]))
    else
      var rest := CutSlash(s[1..]);
      if rest.None? then None else Some(([s[0]] + rest.value.0, rest.value.1))
  }

  function ParseLsn(value: string): Option<U64> {
    var cut := CutSlash(value);
    if cut.None? || !LsnPart(cut.value.0) || !LsnPart(cut.value.1) then None
    else
      LsnPartBound(cut.value.0);
      LsnPartBound(cut.value.1);
      Some(HexValue(cut.value.0) * 0x1_0000_0000 + HexValue(cut.value.1))
  }

  lemma LsnPartBound(s: string)
    requires LsnPart(s)
    ensures HexValue(s) < 0x1_0000_0000
  {
    HexOfValue(s);
    Widths();
    Power16Grows(|s|, 8);
  }

  lemma {:induction false} Power16Grows(a: nat, b: nat)
    requires a <= b
    ensures Power16(a) <= Power16(b)
    decreases b
  {
    if a < b {
      Power16Grows(a, b - 1);
    }
  }

  /** The switch position of an LSN is the position of the segment file that holds it, for every valid segment size. */
  lemma LsnPosition(timeline: U32, high: U32, low: U32, size: int)
    requires timeline != 0 && ValidSegmentSize(size)
    ensures WalPosition(timeline, high, low / size, size) == Ok((high * 0x1_0000_0000 + low) / size)
  {
    var n := SegmentsPerLog(size);
    SegmentsFillLog(size);
    QuotientBelow(low, size, n);
    LsnQuotient(high, low, n, size);
    hide SegmentsPerLog, ValidSegmentSize;
  }

  lemma LsnQuotient(high: nat, low: nat, n: nat, size: nat)
    requires size > 0
    ensures (high * (n * size) + low) / size == high * n + low / size
  {
    var q, r := low / size, low % size;
    assert low == q * size + r;
    assert high * (n * size) + low == (high * n + q) * size + r by {
      assert high * (n * size) == (high * n) * size;
      assert (high * n + q) * size == (high * n) * size + q * size;
    }
    DivMod(high * n + q, r, size);
  }

  /** Every 64-bit switchpoint lies in a nameable segment, so naming it cannot fail. */
  lemma SwitchIsNameable(lsn: U64, size: int)
    requires ValidSegmentSize(size)
    ensures Nameable(SegmentAt(lsn, size), size)
  {
    var n := SegmentsPerLog(size);
    SegmentsFillLog(size);
    assert (0x1_0000_0000 * n) * size == 0x1_0000_0000 * (n * size);
    QuotientBelow(lsn, size, 0x1_0000_0000 * n);
  }

  // ---------------------------------------------------------------- parsing one history

  function ChildAt(entries: seq<Entry>, target: U32, k: int): U32
    requires 0 <= k < |entries|
  {
    if k + 1 < |entries| then entries[k + 1].parent else target
  }

  /** The segment position an LSN falls in. */
  function SegmentAt(lsn: U64, size: int): U64
    requires size > 0
  {
    DivisionShrinks(lsn, size);
    lsn / size
  }

  lemma DivisionShrinks(x: nat, n: int)
    requires n > 0
    ensures 0 <= x / n <= x
  {
    var q, r := x / n, x % n;
    assert x == q * n + r;
    ProductAtLeast(q, n);
  }

  function EdgeAt(entries: seq<Entry>, target: U32, size: int, k: int): HistoryEdge
    requires 0 <= k < |entries| && size > 0
  {
    var position := SegmentAt(entries[k].lsn, size);
    HistoryEdge(entries[k].parent, ChildAt(entries, target, k), entries[k].lsn, position,
                NameOr(ChildAt(entries, target, k), position, size))
  }

  /** Real, strictly ascending ancestors below the target, at strictly ascending switchpoints. */
  predicate Ancestry(entries: seq<Entry>, target: U32) {
    && 1 <= |entries| <= MAX_HISTORY_ENTRIES && target > 1
    && (forall k :: 0 <= k < |entries| ==> 0 < entries[k].parent < target && entries[k].lsn != 0)
    && (forall i, j :: 0 <= i < |entries| && i < j < |entries| ==>
          entries[i].parent < entries[j].parent && entries[i].lsn < entries[j].lsn)
  }

  /** One edge; naming the switch segment cannot fail, so the error return of the source is never taken. */
  method MakeEdge(entries: seq<Entry>, target: U32, size: int, index: int) returns (edge: HistoryEdge)
    requires 0 <= index < |entries| && ValidSegmentSize(size) && ChildAt(entries, target, index) != 0
    ensures edge == EdgeAt(entries, target, size, index)
  {
    var entry := entries[index];
    var child := target;
    if index + 1 < |entries| {
      child := entries[index + 1].parent;
    }
    SwitchIsNameable(entry.lsn, size);
    assert size > 0;
    hide WalName, Nameable, ValidSegmentSize, SegmentAt;
    var position := SegmentAt(entry.lsn, size);
    NameableIffNamed(child, position, size);
    var name := WalName(child, position, size);
    assert name.Ok?;
    return HistoryEdge(entry.parent, child, entry.lsn, position, name.value);
  }

  /** The checks made line by line while the entries are collected. */
  method ScanEntries(entries: seq<Entry>) returns (readable: bool)
    ensures readable <==> 1 <= |entries| <= MAX_HISTORY_ENTRIES
                          && forall j :: 0 <= j < |entries| ==> entries[j].parent != 0 && entries[j].lsn != 0
  {
    for k := 0 to |entries|
      invariant k <= MAX_HISTORY_ENTRIES
      invariant forall j :: 0 <= j < k ==> entries[j].parent != 0 && entries[j].lsn != 0
    {
      if entries[k].parent == 0 || entries[k].lsn == 0 || k + 1 > MAX_HISTORY_ENTRIES {
        return false;
      }
    }
    return |entries| != 0;
  }

  /** The outcome of parsing: one edge per entry, or nothing at all. */
  function ParseResult(entries: seq<Entry>, target: U32, size: int): Option<seq<HistoryEdge>> {
    if Ancestry(entries, target) && ValidSegmentSize(size)
    then Some(seq(|entries|, k requires 0 <= k < |entries| => EdgeAt(entries, target, size, k)))
    else None
  }

  /** Links readable entries into edges, or finds the ancestry impossible. */
  method LinkEdges(entries: seq<Entry>, target: U32, size: int) returns (edges: Option<seq<HistoryEdge>>)
    requires ValidSegmentSize(size) && target > 1 && 1 <= |entries| <= MAX_HISTORY_ENTRIES
    requires forall j :: 0 <= j < |entries| ==> entries[j].parent != 0 && entries[j].lsn != 0
    ensures edges.Some? <==> Ancestry(entries, target)
    ensures edges.Some? ==> |edges.value| == |entries|
                            && forall k :: 0 <= k < |entries| ==> edges.value[k] == EdgeAt(entries, target, size, k)
  {
    assert size > 0;
    hide ValidSegmentSize, EdgeAt;
    var built := [];
    for index := 0 to |entries|
      invariant |built| == index
      invariant forall k :: 0 <= k < index ==> entries[k].parent < target
      invariant forall k :: 0 <= k < index ==> built[k] == EdgeAt(entries, target, size, k)
      invariant forall i, j :: 0 <= i < j < index ==> entries[i].parent < entries[j].parent && entries[i].lsn < entries[j].lsn
    {
      var entry := entries[index];
      if entry.parent >= target
         || (index > 0 && (entry.parent <= entries[index - 1].parent || entry.lsn <= entries[index - 1].lsn)) {
        return None;
      }
      var edge := MakeEdge(entries, target, size, index);
      built := built + [edge];
    }
    return Some(built);
  }

  method ParseHistory(entries: seq<Entry>, target: U32, size: int) returns (edges: Option<seq<HistoryEdge>>)
    ensures edges == ParseResult(entries, target, size)
  {
    if target <= 1 || !ValidSegmentSize(size) {
      return None;
    }
    assert size > 0;
    hide ValidSegmentSize, EdgeAt;
    var readable := ScanEntries(entries);
    if !readable {
      return None;
    }
    edges := LinkEdges(entries, target, size);
    if edges.Some? {
      assert edges.value == seq(|entries|, k requires 0 <= k < |entries| => EdgeAt(entries, target, size, k));
    }
  }

  /** A strictly ascending parent-to-child chain that ends at the target, with ascending switchpoints. */
  ghost predicate Chained(edges: seq<HistoryEdge>, target: U32) {
    && edges != [] && edges[|edges| - 1].child == target
    && (forall k :: 0 <= k < |edges| ==> 0 < edges[k].parent < edges[k].child <= target)
    && (forall i, j :: 0 <= i < j < |edges| ==>
          edges[i].child <= edges[j].parent && edges[i].parent < edges[j].parent
          && edges[i].switchLsn < edges[j].switchLsn && edges[i].switchPosition <= edges[j].switchPosition)
    && (forall i, j :: 0 <= i < j < |edges| && j == i + 1 ==> edges[i].child == edges[j].parent)
  }

  lemma EdgeClimbs(entries: seq<Entry>, target: U32, k: int)
    requires Ancestry(entries, target) && 0 <= k < |entries|
    ensures 0 < entries[k].parent < ChildAt(entries, target, k) <= target
  {
    assert k + 1 < |entries| ==> entries[k].parent < entries[k + 1].parent;
  }

  lemma EdgesAscend(entries: seq<Entry>, target: U32, size: int, i: int, j: int)
    requires Ancestry(entries, target) && 0 <= i < j < |entries| && size > 0
    ensures ChildAt(entries, target, i) <= entries[j].parent && entries[i].parent < entries[j].parent
    ensures entries[i].lsn < entries[j].lsn && SegmentAt(entries[i].lsn, size) <= SegmentAt(entries[j].lsn, size)
  {
    assert entries[i].parent < entries[j].parent && entries[i].lsn < entries[j].lsn;
    assert i + 1 < j ==> entries[i + 1].parent < entries[j].parent;
    QuotientMonotone(entries[i].lsn, entries[j].lsn, size);
  }

  lemma ParsedParts(entries: seq<Entry>, target: U32, size: int)
    requires ParseResult(entries, target, size).Some?
    ensures Ancestry(entries, target) && size > 0 && |ParseResult(entries, target, size).value| == |entries|
    ensures forall k :: 0 <= k < |entries| ==> ParseResult(entries, target, size).value[k] == EdgeAt(entries, target, size, k)
  {
    hide EdgeAt, Ancestry;
  }

  lemma EdgeFields(entries: seq<Entry>, target: U32, size: int, k: int)
    requires 0 <= k < |entries| && size > 0
    ensures var e := EdgeAt(entries, target, size, k);
            (e.parent, e.child, e.switchLsn, e.switchPosition)
            == (entries[k].parent, ChildAt(entries, target, k), entries[k].lsn, SegmentAt(entries[k].lsn, size))
  {
    hide SegmentAt, ChildAt, NameOr;
  }

  /** A parsed history is a strictly ascending chain of real timelines that ends at its target. */
  lemma ParsedIsChained(entries: seq<Entry>, target: U32, size: int)
    requires ParseResult(entries, target, size).Some?
    ensures Chained(ParseResult(entries, target, size).value, target)
  {
    hide ParseResult, EdgeAt, SegmentAt, Ancestry;
    var edges := ParseResult(entries, target, size).value;
    ParsedParts(entries, target, size);
    forall k | 0 <= k < |edges|
      ensures edges[k].parent == entries[k].parent && edges[k].child == ChildAt(entries, target, k)
      ensures 0 < edges[k].parent < edges[k].child <= target
    {
      EdgeFields(entries, target, size, k);
      EdgeClimbs(entries, target, k);
    }
    forall i, j | 0 <= i < j < |edges|
      ensures edges[i].child <= edges[j].parent && edges[i].parent < edges[j].parent
      ensures edges[i].switchLsn < edges[j].switchLsn && edges[i].switchPosition <= edges[j].switchPosition
    {
      EdgeFields(entries, target, size, i);
      EdgeFields(entries, target, size, j);
      EdgesAscend(entries, target, size, i, j);
    }
    SomeAncestor(entries, target);
  }

  lemma SomeAncestor(entries: seq<Entry>, target: U32)
    requires Ancestry(entries, target)
    ensures entries != []
  {
  }

  /** Each switch position is that of the segment its LSN falls in. */
  ghost predicate SwitchesPlaced(edges: seq<HistoryEdge>, size: int) {
    size > 0 && forall k :: 0 <= k < |edges| ==> edges[k].switchPosition == SegmentAt(edges[k].switchLsn, size)
  }

  lemma ParsedArePlaced(entries: seq<Entry>, target: U32, size: int)
    requires ParseResult(entries, target, size).Some?
    ensures SwitchesPlaced(ParseResult(entries, target, size).value, size)
  {
    assert size > 0;
    hide NameOr, ValidSegmentSize, SegmentAt, Ancestry;
  }

  lemma QuotientMonotone(a: nat, b: nat, n: int)
    requires a <= b && n > 0
    ensures a / n <= b / n
  {
    QuotientBelow(a, n, b / n + 1);
    QuotientBelow(b, n, b / n + 1);
  }
}
