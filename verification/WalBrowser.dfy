// One page of the WAL browser (internal/web/wal.go).
module WalBrowser {
  import opened Results
  import opened Text
  import opened WalNames
  import opened WalClassify
  import opened WalCollector
  import opened WalRanges
  import opened WalGaps
  import opened WalCatalog
  import Evidence
  import Sorting

  datatype Status = OfState(state: Evidence.State) | OfGap(gap: GapStatus) | OfDiagnostic

  datatype Row = Row(
    server: string, kind: string, timeline: U32, first: string, last: string, count: U64, status: Status,
    receipt: Option<Time>, key: string, start: U64, end: U64, placed: bool)

  datatype Filter = Filter(server: string, kind: string, timeline: Option<U32>, start: string, end: string)

  // ---------------------------------------------------------------- the rows of one server

  function KindText(kind: WalClass): string {
    match kind
    case Segment => "segment"
    case Partial => "partial"
    case History => "history"
    case BackupHistory => "backup-history"
    case UnknownClass => "unknown"
    case Duplicate => "duplicate"
  }

  function RangeRow(server: ServerWal, r: WalRange): Row {
    Row(server.server, "segment", r.timeline, r.first, r.last, r.count, OfState(server.state), Some(r.latestReceipt), "",
        r.start, r.end, true)
  }

  function GapRow(server: ServerWal, g: WalGap): Row {
    Row(server.server, "gap", g.timeline, g.first, g.last, g.count, OfGap(g.status), None, "", g.start, g.end, true)
  }

  /** A diagnostic is placed where its name says, if the name begins with one and the context is known. */
  function DiagnosticRow(server: ServerWal, d: Diagnostic): Row {
    var row := Row(server.server, KindText(d.kind), d.timeline, d.name, d.name, 1, OfDiagnostic, Some(d.lastModified), d.key, 0, 0, false);
    if |d.name| >= 24 && server.segmentSize > 0 then
      var parsed := ParseWalName(d.name[..24], server.segmentSize);
      if parsed.Ok?
      then row.(timeline := parsed.value.timeline, start := parsed.value.position, end := parsed.value.position, placed := true)
      else row
    else row
  }

  /** The position of a filter bound; 0 where it does not parse for this server. */
  function BoundAt(name: string, size: int): U64 {
    var parsed := ParseWalName(name, size);
    if parsed.Ok? then parsed.value.position else 0
  }

  /** `includeWALRow`. */
  predicate Included(row: Row, server: ServerWal, f: Filter) {
    && (f.kind == "all" || f.kind == row.kind)
    && (f.timeline.Some? ==> f.timeline.value == row.timeline)
    && (f.start != "" || f.end != "" ==> row.placed)
    && (f.start != "" ==> row.end >= BoundAt(f.start, server.segmentSize))
    && (f.end != "" ==> row.start <= BoundAt(f.end, server.segmentSize))
  }

  predicate RowBefore(a: Row, b: Row) {
    if a.timeline != b.timeline then a.timeline < b.timeline
    else if a.placed != b.placed then a.placed
    else if a.start != b.start then a.start < b.start
    else if a.kind != b.kind then Less(a.kind, b.kind)
    else Less(a.key, b.key)
  }

  function RangeRows(server: ServerWal, f: Filter, ranges: seq<WalRange>): seq<Row> {
    if ranges == [] then []
    else
      var front, row := RangeRows(server, f, ranges[..|ranges| - 1]), RangeRow(server, ranges[|ranges| - 1]);
      if Included(row, server, f) then front + [row] else front
  }

  function GapRows(server: ServerWal, f: Filter, gaps: seq<WalGap>): seq<Row> {
    if gaps == [] then []
    else
      var front, row := GapRows(server, f, gaps[..|gaps| - 1]), GapRow(server, gaps[|gaps| - 1]);
      if Included(row, server, f) then front + [row] else front
  }

  function DiagnosticRows(server: ServerWal, f: Filter, diagnostics: seq<Diagnostic>): seq<Row> {
    if diagnostics == [] then []
    else
      var front, row := DiagnosticRows(server, f, diagnostics[..|diagnostics| - 1]), DiagnosticRow(server, diagnostics[|diagnostics| - 1]);
      if Included(row, server, f) then front + [row] else front
  }

  function ServerRows(server: ServerWal, f: Filter): seq<Row> {
    Sorting.Sort(RowBefore, RangeRows(server, f, server.ranges) + GapRows(server, f, server.gaps)
                            + DiagnosticRows(server, f, server.diagnostics))
  }

  predicate Shown(server: ServerWal, f: Filter) {
    f.server == "" || f.server == server.server
  }

  /** The simple form: every matching row of every server, server by server. */
  function AllRows(servers: seq<ServerWal>, f: Filter): seq<Row> {
    if servers == [] then []
    else
      var front, last := AllRows(servers[..|servers| - 1], f), servers[|servers| - 1];
      if Shown(last, f) then front + ServerRows(last, f) else front
  }

  lemma RowBeforeIsOrder()
    ensures Sorting.StrictWeakOrder(RowBefore)
  {
    forall a: Row, b: Row | RowBefore(a, b) ensures !RowBefore(b, a) {
      RowAsymmetric(a, b);
    }
    forall a: Row, b: Row, c: Row | !RowBefore(b, a) && !RowBefore(c, b) ensures !RowBefore(c, a) {
      RowTransitive(a, b, c);
    }
  }

  lemma RowAsymmetric(a: Row, b: Row)
    requires RowBefore(a, b)
    ensures !RowBefore(b, a)
  {
    if Less(a.kind, b.kind) { LessAsymmetric(a.kind, b.kind); }
    if Less(a.key, b.key) { LessAsymmetric(a.key, b.key); }
  }

  lemma RowTransitive(a: Row, b: Row, c: Row)
    requires !RowBefore(b, a) && !RowBefore(c, b)
    ensures !RowBefore(c, a)
  {
    LessTotal(a.kind, b.kind);
    LessTotal(b.kind, c.kind);
    if !Less(b.kind, a.kind) && !Less(c.kind, b.kind) {
      NotLessTransitive(a.kind, b.kind, c.kind);
    }
    if !Less(b.key, a.key) && !Less(c.key, b.key) {
      NotLessTransitive(a.key, b.key, c.key);
    }
    if a.kind == c.kind && a.kind != b.kind && Less(a.kind, b.kind) && Less(b.kind, c.kind) {
      LessAsymmetric(a.kind, b.kind);
    }
  }

  /** Each server's rows are its matching ranges, gaps and diagnostics in browsing order. */
  lemma ServerRowsSorted(server: ServerWal, f: Filter)
    ensures Sorting.Sorted(RowBefore, ServerRows(server, f))
    ensures multiset(ServerRows(server, f))
            == multiset(RangeRows(server, f, server.ranges)) + multiset(GapRows(server, f, server.gaps))
               + multiset(DiagnosticRows(server, f, server.diagnostics))
  {
    RowBeforeIsOrder();
    hide RowBefore;
    Sorting.SortCorrect(RowBefore, RangeRows(server, f, server.ranges) + GapRows(server, f, server.gaps)
                                   + DiagnosticRows(server, f, server.diagnostics));
  }

  /** The rows of one server, as the loops collect and sort them. */
  method CollectRows(server: ServerWal, f: Filter) returns (rows: seq<Row>)
    ensures rows == ServerRows(server, f)
  {
    hide Included;
    var ranges, gaps, diagnostics := [], [], [];
    for k := 0 to |server.ranges|
      invariant ranges == RangeRows(server, f, server.ranges[..k])
    {
      assert server.ranges[..k + 1][..k] == server.ranges[..k];
      var row := RangeRow(server, server.ranges[k]);
      if Included(row, server, f) {
        ranges := ranges + [row];
      }
    }
    for k := 0 to |server.gaps|
      invariant gaps == GapRows(server, f, server.gaps[..k])
    {
      assert server.gaps[..k + 1][..k] == server.gaps[..k];
      var row := GapRow(server, server.gaps[k]);
      if Included(row, server, f) {
        gaps := gaps + [row];
      }
    }
    for k := 0 to |server.diagnostics|
      invariant diagnostics == DiagnosticRows(server, f, server.diagnostics[..k])
    {
      assert server.diagnostics[..k + 1][..k] == server.diagnostics[..k];
      var row := DiagnosticRow(server, server.diagnostics[k]);
      if Included(row, server, f) {
        diagnostics := diagnostics + [row];
      }
    }
    assert server.ranges[..|server.ranges|] == server.ranges && server.gaps[..|server.gaps|] == server.gaps
           && server.diagnostics[..|server.diagnostics|] == server.diagnostics;
    rows := Sorting.Sort(RowBefore, ranges + gaps + diagnostics);
  }

  // ---------------------------------------------------------------- one page of all of them

  function Within(k: int, lower: int, upper: int): int {
    if k < lower then lower else if k > upper then upper else k
  }

  /** The part of a list that lies on the page; empty beyond its end. */
  function OnPage(rows: seq<Row>, pageStart: nat, pageSize: nat): seq<Row> {
    rows[Within(pageStart, 0, |rows|)..Within(pageStart + pageSize, 0, |rows|)]
  }

  predicate Truncated(servers: seq<ServerWal>, f: Filter) {
    exists k :: 0 <= k < |servers| && Shown(servers[k], f) && (servers[k].diagnosticsTruncated || servers[k].rangesTruncated)
  }

  /** Appending one server's rows to those before appends its overlap with the page. */
  lemma PageGrows(before: seq<Row>, more: seq<Row>, pageStart: nat, pageSize: nat)
    ensures var from, to := Within(pageStart - |before|, 0, |more|), Within(pageStart + pageSize - |before|, 0, |more|);
            && from <= to
            && OnPage(before + more, pageStart, pageSize) == OnPage(before, pageStart, pageSize) + more[from..to]
            && (|before| + |more| > pageStart && |before| < pageStart + pageSize ==>
                  from == (if pageStart - |before| > 0 then pageStart - |before| else 0)
                  && to == (if pageStart + pageSize - |before| < |more| then pageStart + pageSize - |before| else |more|))
            && (!(|before| + |more| > pageStart && |before| < pageStart + pageSize) ==> more[from..to] == [])
  {
    var n := |before|;
    var low, high := Within(pageStart, 0, n + |more|), Within(pageStart + pageSize, 0, n + |more|);
    SliceOfConcat(before, more, low, high);
  }

  lemma SliceOfConcat(a: seq<Row>, b: seq<Row>, low: nat, high: nat)
    requires low <= high <= |a| + |b|
    ensures (a + b)[low..high]
            == a[Within(low, 0, |a|)..Within(high, 0, |a|)] + b[Within(low - |a|, 0, |b|)..Within(high - |a|, 0, |b|)]
  {
    if high <= |a| {
      assert (a + b)[low..high] == a[low..high];
    } else if low >= |a| {
      assert (a + b)[low..high] == b[low - |a|..high - |a|];
    } else {
      assert (a + b)[low..high] == a[low..] + b[..high - |a|];
    }
  }

  /**
   * `filterWALRows`: the page it retains is the page of all matching rows, and the total is their number, although no
   * more than one server's rows are ever at hand.
   */
  method FilterRows(servers: seq<ServerWal>, f: Filter, pageStart: nat, pageSize: nat)
    returns (result: seq<Row>, total: nat, truncated: bool)
    ensures result == OnPage(AllRows(servers, f), pageStart, pageSize) && |result| <= pageSize
    ensures total == |AllRows(servers, f)|
    ensures truncated <==> Truncated(servers, f)
  {
    hide ServerRows, OnPage, Truncated, Within;
    NoRows(servers, f, pageStart, pageSize);
    result, total, truncated := [], 0, false;
    for k := 0 to |servers|
      invariant result == OnPage(AllRows(servers[..k], f), pageStart, pageSize)
      invariant total == |AllRows(servers[..k], f)|
      invariant truncated <==> Truncated(servers[..k], f)
    {
      var server := servers[k];
      assert servers[..k + 1][..k] == servers[..k];
      TruncatedMore(servers, f, k);
      if !Shown(server, f) {
        continue;
      }
      truncated := truncated || server.diagnosticsTruncated || server.rangesTruncated;
      var rows := CollectRows(server, f);
      var serverStart, serverEnd := total, total + |rows|;
      var pageEnd := pageStart + pageSize;
      PageGrows(AllRows(servers[..k], f), rows, pageStart, pageSize);
      if serverEnd > pageStart && serverStart < pageEnd {
        var from := if pageStart - serverStart > 0 then pageStart - serverStart else 0;
        var to := if pageEnd - serverStart < |rows| then pageEnd - serverStart else |rows|;
        result := result + rows[from..to];
      }
      total := serverEnd;
    }
    assert servers[..|servers|] == servers;
    PageIsBounded(AllRows(servers, f), pageStart, pageSize);
  }

  lemma NoRows(servers: seq<ServerWal>, f: Filter, pageStart: nat, pageSize: nat)
    ensures OnPage([], pageStart, pageSize) == [] && !Truncated(servers[..0], f)
  {
  }

  lemma PageIsBounded(rows: seq<Row>, pageStart: nat, pageSize: nat)
    ensures |OnPage(rows, pageStart, pageSize)| <= pageSize
  {
  }

  lemma TruncatedMore(servers: seq<ServerWal>, f: Filter, k: nat)
    requires k < |servers|
    ensures Truncated(servers[..k + 1], f) <==>
              Truncated(servers[..k], f) || (Shown(servers[k], f) && (servers[k].diagnosticsTruncated || servers[k].rangesTruncated))
  {
    var all := servers[..k + 1];
    assert all[k] == servers[k];
    if Truncated(servers[..k], f) {
      var i :| 0 <= i < k && Shown(servers[..k][i], f) && (servers[..k][i].diagnosticsTruncated || servers[..k][i].rangesTruncated);
      assert all[i] == servers[..k][i];
    }
  }

  // ---------------------------------------------------------------- consecutive pages

  /** The first `n` pages, one after another. */
  function FirstPages(rows: seq<Row>, pageSize: nat, n: nat): seq<Row> {
    if n == 0 then [] else FirstPages(rows, pageSize, n - 1) + OnPage(rows, (n - 1) * pageSize, pageSize)
  }

  lemma NextPage(rows: seq<Row>, pageSize: nat, start: nat)
    ensures rows[..Within(start, 0, |rows|)] + OnPage(rows, start, pageSize) == rows[..Within(start + pageSize, 0, |rows|)]
  {
  }

  /** Consecutive pages show each matching row once, in order, and nothing else. */
  lemma {:induction false} PagesPartition(rows: seq<Row>, pageSize: nat, n: nat)
    ensures FirstPages(rows, pageSize, n) == rows[..Within(n * pageSize, 0, |rows|)]
    ensures n * pageSize >= |rows| ==> FirstPages(rows, pageSize, n) == rows
  {
    hide OnPage;
    if n > 0 {
      PagesPartition(rows, pageSize, n - 1);
      NextPage(rows, pageSize, (n - 1) * pageSize);
      assert n * pageSize == (n - 1) * pageSize + pageSize;
    }
  }
}
