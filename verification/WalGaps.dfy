// Gaps between compact ranges, and their two-scan lifecycle (wal.go, gapsForRanges).
module WalGaps {
  import opened Results
  import opened WalNames
  import opened WalRanges

  datatype GapStatus = Candidate | Confirmed

  datatype WalGap = WalGap(
    timeline: U32, start: U64, end: U64, count: U64, first: string, last: string,
    status: GapStatus, firstObserved: U64, lastObserved: U64)

  // ---------------------------------------------------------------- identity

  /** `fmt.Sprintf("%08X:%016X:%016X", timeline, start, end)`. */
  function GapIdentity(timeline: U32, start: U64, end: U64): string {
    Hex(timeline, 8) + ":" + Hex(start, 16) + ":" + Hex(end, 16)
  }

  /** The identity text is injective, so gaps match by timeline and bounds and nothing else. */
  lemma GapIdentityInjective(t1: U32, s1: U64, e1: U64, t2: U32, s2: U64, e2: U64)
    ensures GapIdentity(t1, s1, e1) == GapIdentity(t2, s2, e2) <==> t1 == t2 && s1 == s2 && e1 == e2
  {
    var a, b := GapIdentity(t1, s1, e1), GapIdentity(t2, s2, e2);
    if a == b {
      assert Hex(t1, 8) == a[..8] == b[..8] == Hex(t2, 8);
      assert Hex(s1, 16) == a[9..25] == b[9..25] == Hex(s2, 16);
      assert Hex(e1, 16) == a[26..] == b[26..] == Hex(e2, 16);
    }
    Widths();
    HexInjective(t1, t2, 8);
    HexInjective(s1, s2, 16);
    HexInjective(e1, e2, 16);
  }

  predicate SameGap(g: WalGap, timeline: U32, start: U64, end: U64) {
    g.timeline == timeline && g.start == start && g.end == end
  }

  /** The gap of the previous catalog with this identity; a later entry hides an earlier one. */
  function FindGap(gaps: seq<WalGap>, timeline: U32, start: U64, end: U64): (r: Option<WalGap>)
    ensures r.Some? ==> r.value in gaps && SameGap(r.value, timeline, start, end)
    ensures r.None? <==> forall k :: 0 <= k < |gaps| ==> !SameGap(gaps[k], timeline, start, end)
  {
    if gaps == [] then None
    else
      var last := gaps[|gaps| - 1];
      if SameGap(last, timeline, start, end) then Some(last)
      else FindGap(gaps[..|gaps| - 1], timeline, start, end)
  }

  /** The `prior` map of the source agrees with looking the previous gaps up by bounds. */
  ghost predicate Indexes(prior: map<string, WalGap>, gaps: seq<WalGap>) {
    forall t: U32, s: U64, e: U64 ::
      var found := FindGap(gaps, t, s, e);
      (GapIdentity(t, s, e) in prior <==> found.Some?)
      && (found.Some? ==> prior[GapIdentity(t, s, e)] == found.value)
  }

  method IndexGaps(gaps: seq<WalGap>) returns (prior: map<string, WalGap>)
    ensures Indexes(prior, gaps)
  {
    prior := map[];
    for k := 0 to |gaps|
      invariant Indexes(prior, gaps[..k])
    {
      var gap := gaps[k];
      ghost var before := prior;
      prior := prior[GapIdentity(gap.timeline, gap.start, gap.end) := gap];
      assert gaps[..k + 1][..k] == gaps[..k] && gaps[..k + 1][k] == gap;
      forall t: U32, s: U64, e: U64
        ensures var found := FindGap(gaps[..k + 1], t, s, e);
                (GapIdentity(t, s, e) in prior <==> found.Some?)
                && (found.Some? ==> prior[GapIdentity(t, s, e)] == found.value)
      {
        GapIdentityInjective(t, s, e, gap.timeline, gap.start, gap.end);
        hide GapIdentity;
      }
    }
    assert gaps[..|gaps|] == gaps;
  }

  // ---------------------------------------------------------------- the gaps of one catalog

  /** Two neighbouring ranges of one timeline with something missing between them. */
  predicate Gapped(left: WalRange, right: WalRange) {
    left.timeline == right.timeline && left.end != MAX_UINT64 && left.end + 1 < right.start
  }

  function GapBetween(left: WalRange, right: WalRange, previous: seq<WalGap>, size: int, generation: U64): WalGap
    requires Gapped(left, right)
  {
    var start, end: U64 := left.end + 1, right.start - 1;
    var known := FindGap(previous, left.timeline, start, end);
    WalGap(left.timeline, start, end, Span(start, end), NameOr(left.timeline, start, size), NameOr(left.timeline, end, size),
           if known.Some? then Confirmed else Candidate,
           if known.Some? then known.value.firstObserved else generation, generation)
  }

  function GapsOf(ranges: seq<WalRange>, previous: seq<WalGap>, size: int, generation: U64): (gaps: seq<WalGap>)
    ensures |gaps| <= |ranges|
  {
    if |ranges| <= 1 then []
    else
      var n := |ranges| - 1;
      var front := GapsOf(ranges[..n], previous, size, generation);
      if Gapped(ranges[n - 1], ranges[n])
      then front + [GapBetween(ranges[n - 1], ranges[n], previous, size, generation)]
      else front
  }

  /** One gap, confirmed when the indexed previous gaps already had it. */
  method MakeGap(left: WalRange, right: WalRange, prior: map<string, WalGap>, ghost previous: seq<WalGap>, size: int,
                 generation: U64)
    returns (gap: WalGap)
    requires Gapped(left, right) && Indexes(prior, previous)
    ensures gap == GapBetween(left, right, previous, size, generation)
  {
    hide FindGap, GapIdentity, NameOr, Span;
    var start, end: U64 := left.end + 1, right.start - 1;
    gap := WalGap(left.timeline, start, end, Span(start, end), NameOr(left.timeline, start, size),
                  NameOr(left.timeline, end, size), Candidate, generation, generation);
    var identity := GapIdentity(gap.timeline, gap.start, gap.end);
    if identity in prior {
      gap := gap.(firstObserved := prior[identity].firstObserved, status := Confirmed);
    }
  }

  method GapsForRanges(ranges: seq<WalRange>, previous: seq<WalGap>, size: int, generation: U64)
    returns (result: seq<WalGap>)
    ensures result == GapsOf(ranges, previous, size, generation)
  {
    var prior := IndexGaps(previous);
    result := [];
    if ranges == [] {
      return;
    }
    hide Indexes, GapBetween;
    for index := 1 to |ranges|
      invariant result == GapsOf(ranges[..index], previous, size, generation)
    {
      var left, right := ranges[index - 1], ranges[index];
      assert ranges[..index + 1][..index] == ranges[..index];
      if left.timeline != right.timeline || left.end == MAX_UINT64 || left.end + 1 >= right.start {
        continue;
      }
      var gap := MakeGap(left, right, prior, previous, size, generation);
      result := result + [gap];
    }
    assert ranges[..|ranges|] == ranges;
  }

  // ---------------------------------------------------------------- ranges and gaps partition each timeline

  ghost predicate InGap(g: WalGap, timeline: U32, position: int) {
    g.timeline == timeline && g.start <= position <= g.end
  }

  ghost predicate Missing(gaps: seq<WalGap>, timeline: U32, position: int) {
    exists k :: 0 <= k < |gaps| && InGap(gaps[k], timeline, position)
  }

  /** Strictly inside the observed extent of a timeline. */
  ghost predicate Enclosed(ranges: seq<WalRange>, timeline: U32, position: int) {
    exists i, j :: 0 <= i < j < |ranges| && ranges[i].timeline == timeline == ranges[j].timeline
                   && ranges[i].end < position < ranges[j].start
  }

  /** A gap of the result is the one between two neighbouring ranges. */
  ghost predicate FromNeighbours(g: WalGap, ranges: seq<WalRange>, i: int, previous: seq<WalGap>, size: int, generation: U64) {
    1 <= i < |ranges| && Gapped(ranges[i - 1], ranges[i])
    && g == GapBetween(ranges[i - 1], ranges[i], previous, size, generation)
  }

  /** Every gap is one between gapped neighbours. */
  lemma {:induction false} GapHasNeighbours(ranges: seq<WalRange>, previous: seq<WalGap>, size: int, generation: U64, k: nat)
    returns (i: int)
    requires k < |GapsOf(ranges, previous, size, generation)|
    ensures FromNeighbours(GapsOf(ranges, previous, size, generation)[k], ranges, i, previous, size, generation)
  {
    hide GapBetween;
    var n := |ranges| - 1;
    if k < |GapsOf(ranges[..n], previous, size, generation)| {
      i := GapHasNeighbours(ranges[..n], previous, size, generation, k);
      assert ranges[..n][i - 1] == ranges[i - 1] && ranges[..n][i] == ranges[i];
    } else {
      i := n;
    }
  }

  /** And every pair of gapped neighbours has its gap. */
  lemma {:induction false} NeighboursHaveGap(ranges: seq<WalRange>, previous: seq<WalGap>, size: int, generation: U64, i: int)
    returns (k: nat)
    requires 1 <= i < |ranges| && Gapped(ranges[i - 1], ranges[i])
    ensures k < |GapsOf(ranges, previous, size, generation)|
    ensures GapsOf(ranges, previous, size, generation)[k] == GapBetween(ranges[i - 1], ranges[i], previous, size, generation)
  {
    hide GapBetween;
    var n := |ranges| - 1;
    if i < n {
      assert ranges[..n][i - 1] == ranges[i - 1] && ranges[..n][i] == ranges[i];
      k := NeighboursHaveGap(ranges[..n], previous, size, generation, i);
    } else {
      k := |GapsOf(ranges[..n], previous, size, generation)|;
    }
  }

  /** Neighbours on one timeline of a canonical list always have a gap between them. */
  lemma NeighboursGapped(ranges: seq<WalRange>, i: int)
    requires Canonical(ranges) && 1 <= i < |ranges| && ranges[i - 1].timeline == ranges[i].timeline
    ensures Gapped(ranges[i - 1], ranges[i])
  {
    assert RangeBefore(ranges[i - 1], ranges[i]);
  }

  /** The k-th range and its predecessor enclose the position. */
  ghost predicate Between(ranges: seq<WalRange>, timeline: U32, position: int, k: int) {
    && 1 <= k < |ranges| && ranges[k - 1].timeline == timeline == ranges[k].timeline
    && ranges[k - 1].end < position < ranges[k].start
  }

  /** A position strictly between two ranges is in a range or between two neighbours. */
  lemma {:induction false} Bracket(ranges: seq<WalRange>, timeline: U32, position: int, i: int, j: int)
    requires Canonical(ranges) && 0 <= i < j < |ranges|
    requires ranges[i].timeline == timeline == ranges[j].timeline
    requires ranges[i].end < position < ranges[j].start
    ensures Observed(ranges, timeline, position) || exists k :: Between(ranges, timeline, position, k)
    decreases j - i
  {
    if i + 1 < j {
      assert RangeBefore(ranges[i], ranges[i + 1]) && RangeBefore(ranges[i + 1], ranges[j]);
      var m := ranges[i + 1];
      if m.end < position {
        Bracket(ranges, timeline, position, i + 1, j);
      } else if m.start <= position {
        assert InRange(m, timeline, position);
      } else {
        assert Between(ranges, timeline, position, i + 1);
      }
    } else {
      assert Between(ranges, timeline, position, j);
    }
  }

  /** No position lies both in a range and between two neighbours. */
  lemma NotObservedBetween(ranges: seq<WalRange>, timeline: U32, position: int, k: int)
    requires Canonical(ranges) && Between(ranges, timeline, position, k)
    ensures !Observed(ranges, timeline, position)
  {
    forall m | 0 <= m < |ranges| ensures !InRange(ranges[m], timeline, position) {
      if m < k - 1 {
        assert RangeBefore(ranges[m], ranges[k - 1]);
      } else if m > k {
        assert RangeBefore(ranges[k], ranges[m]);
      }
    }
  }

  lemma MissingIsEnclosed(ranges: seq<WalRange>, previous: seq<WalGap>, size: int, generation: U64, timeline: U32, position: int)
    requires Canonical(ranges) && Missing(GapsOf(ranges, previous, size, generation), timeline, position)
    ensures Enclosed(ranges, timeline, position) && !Observed(ranges, timeline, position)
  {
    hide GapsOf, NameOr, Span, FindGap, Canonical, Observed;
    var gaps := GapsOf(ranges, previous, size, generation);
    var k :| 0 <= k < |gaps| && InGap(gaps[k], timeline, position);
    var i := GapHasNeighbours(ranges, previous, size, generation, k);
    NotObservedBetween(ranges, timeline, position, i);
  }

  lemma EnclosedIsMissing(ranges: seq<WalRange>, previous: seq<WalGap>, size: int, generation: U64, timeline: U32, position: int)
    requires Canonical(ranges) && Enclosed(ranges, timeline, position) && !Observed(ranges, timeline, position)
    ensures Missing(GapsOf(ranges, previous, size, generation), timeline, position)
  {
    hide GapsOf, NameOr, Span, FindGap, Canonical, Observed;
    var i, j :| 0 <= i < j < |ranges| && ranges[i].timeline == timeline == ranges[j].timeline
                && ranges[i].end < position < ranges[j].start;
    Bracket(ranges, timeline, position, i, j);
    var k :| Between(ranges, timeline, position, k);
    NeighboursGapped(ranges, k);
    var m := NeighboursHaveGap(ranges, previous, size, generation, k);
    assert InGap(GapsOf(ranges, previous, size, generation)[m], timeline, position);
  }

  /** Ranges and gaps split the extent of every timeline: an enclosed position is in one or the other, never both. */
  lemma GapsPartition(ranges: seq<WalRange>, previous: seq<WalGap>, size: int, generation: U64, timeline: U32, position: int)
    requires Canonical(ranges)
    ensures Missing(GapsOf(ranges, previous, size, generation), timeline, position)
            <==> Enclosed(ranges, timeline, position) && !Observed(ranges, timeline, position)
  {
    hide GapsOf, Missing, Enclosed, Observed, Canonical;
    if Missing(GapsOf(ranges, previous, size, generation), timeline, position) {
      MissingIsEnclosed(ranges, previous, size, generation, timeline, position);
    }
    if Enclosed(ranges, timeline, position) && !Observed(ranges, timeline, position) {
      EnclosedIsMissing(ranges, previous, size, generation, timeline, position);
    }
  }
}
