// The finished WAL evidence of a complete scan: context, state per server, and its invariants (wal.go).
module WalCatalog {
  import opened Results
  import opened Store
  import opened Text
  import opened WalNames
  import opened WalCollector
  import opened WalRanges
  import opened WalGaps
  import opened Backups
  import Evidence
  import Sorting

  datatype WalReason =
    | UnsupportedContext | ConflictingContext | MissingContext
    | RangeLimit | DiagnosticLimit | IncompatibleOrder | InvalidForSegmentSize
    | DuplicatesPresent | UnrecognizedPresent | NoSegments
    | ConfirmedGaps | CandidateGaps | NoGaps

  datatype ServerWal = ServerWal(
    server: string, state: Evidence.State, reason: WalReason, postgresVersion: int, segmentSize: int,
    counts: Counts, ranges: seq<WalRange>, gaps: seq<WalGap>, diagnostics: seq<Diagnostic>,
    diagnosticsTruncated: bool, rangesTruncated: bool, latestArchiveReceipt: Time)

  datatype Catalog = Catalog(servers: seq<ServerWal>)

  // ---------------------------------------------------------------- arithmetic context from backup metadata

  const MIN_POSTGRES_VERSION := 90300

  datatype Context = Pending | Known(version: int, size: int) | Rejected(reason: WalReason)

  /** A backup of this server that carries both a version and a segment size. */
  predicate Informs(backup: Backup, server: string) {
    backup.server == server && backup.postgresVersion != 0 && backup.segmentSize != 0
  }

  predicate Supported(backup: Backup) {
    backup.postgresVersion >= MIN_POSTGRES_VERSION && ValidSegmentSize(backup.segmentSize)
  }

  function ContextAfter(backups: seq<Backup>, server: string): Context {
    if backups == [] then Pending
    else
      var front, last := ContextAfter(backups[..|backups| - 1], server), backups[|backups| - 1];
      if front.Rejected? || !Informs(last, server) then front
      else if !Supported(last) then Rejected(UnsupportedContext)
      else if front.Pending? then Known(last.postgresVersion, last.segmentSize)
      else if front != Known(last.postgresVersion, last.segmentSize) then Rejected(ConflictingContext)
      else front
  }

  function ContextOf(backups: seq<Backup>, server: string): (r: Context)
    ensures !r.Pending?
  {
    var context := ContextAfter(backups, server);
    if context.Pending? then Rejected(MissingContext) else context
  }

  method WalContext(backups: seq<Backup>, server: string) returns (context: Context)
    ensures context == ContextOf(backups, server)
  {
    var version, segmentSize := 0, 0;
    for k := 0 to |backups|
      invariant ContextAfter(backups[..k], server) == if version == 0 then Pending else Known(version, segmentSize)
    {
      hide ValidSegmentSize;
      var backup := backups[k];
      assert backups[..k + 1][..k] == backups[..k] && backups[..k + 1][k] == backup;
      if backup.server != server || backup.postgresVersion == 0 || backup.segmentSize == 0 {
        continue;
      }
      if backup.postgresVersion < MIN_POSTGRES_VERSION || !ValidSegmentSize(backup.segmentSize) {
        RejectedStays(backups, server, k + 1);
        return Rejected(UnsupportedContext);
      }
      if version == 0 {
        version, segmentSize := backup.postgresVersion, backup.segmentSize;
        continue;
      }
      if version != backup.postgresVersion || segmentSize != backup.segmentSize {
        RejectedStays(backups, server, k + 1);
        return Rejected(ConflictingContext);
      }
    }
    assert backups[..|backups|] == backups;
    return if version == 0 then Rejected(MissingContext) else Known(version, segmentSize);
  }

  lemma {:induction false} RejectedStays(backups: seq<Backup>, server: string, n: nat)
    requires n <= |backups| && ContextAfter(backups[..n], server).Rejected?
    ensures ContextAfter(backups, server) == ContextAfter(backups[..n], server)
  {
    if n < |backups| {
      var m := |backups| - 1;
      assert backups[..m][..n] == backups[..n];
      RejectedStays(backups[..m], server, n);
    } else {
      assert backups[..n] == backups;
    }
  }

  /** A context is known exactly when some backup informs and all that inform are supported and agree. */
  lemma {:induction false} ContextKnownIff(backups: seq<Backup>, server: string)
    ensures var context := ContextAfter(backups, server);
            && (context.Pending? <==> forall k :: 0 <= k < |backups| ==> !Informs(backups[k], server))
            && (context.Known? ==>
                  (exists k :: 0 <= k < |backups| && Informs(backups[k], server))
                  && forall k :: 0 <= k < |backups| && Informs(backups[k], server) ==>
                       Supported(backups[k])
                       && (backups[k].postgresVersion, backups[k].segmentSize) == (context.version, context.size))
            && (context.Rejected? ==>
                  exists j, k :: 0 <= j <= k < |backups| && Informs(backups[j], server) && Informs(backups[k], server)
                                 && (!Supported(backups[k]) || backups[j].postgresVersion != backups[k].postgresVersion
                                     || backups[j].segmentSize != backups[k].segmentSize))
  {
    if backups != [] {
      hide Informs, Supported;
      var n := |backups| - 1;
      ContextKnownIff(backups[..n], server);
      assert forall k :: 0 <= k < n ==> backups[..n][k] == backups[k];
    }
  }

  // ---------------------------------------------------------------- one server

  function LatestOf(ranges: seq<WalRange>): Time {
    if ranges == [] then 0 else Later(LatestOf(ranges[..|ranges| - 1]), ranges[|ranges| - 1].latestReceipt)
  }

  /** The latest receipt is the greatest of the ranges, or the zero time. */
  lemma {:induction false} LatestIsGreatest(ranges: seq<WalRange>)
    ensures forall k :: 0 <= k < |ranges| ==> ranges[k].latestReceipt <= LatestOf(ranges)
    ensures LatestOf(ranges) == 0 || exists k :: 0 <= k < |ranges| && ranges[k].latestReceipt == LatestOf(ranges)
  {
    if ranges != [] {
      var n := |ranges| - 1;
      LatestIsGreatest(ranges[..n]);
      if LatestOf(ranges) != ranges[n].latestReceipt && LatestOf(ranges) != 0 {
        var k :| 0 <= k < n && ranges[..n][k].latestReceipt == LatestOf(ranges[..n]);
        assert ranges[k].latestReceipt == LatestOf(ranges);
      }
    }
  }

  predicate HasStatus(gaps: seq<WalGap>, status: GapStatus) {
    exists k :: 0 <= k < |gaps| && gaps[k].status == status
  }

  datatype Verdict = Verdict(state: Evidence.State, reason: WalReason)

  /** The state switch of Finish, most severe doubt first. */
  function VerdictOf(facts: ServerFacts, invalid: bool, ranges: seq<WalRange>, gaps: seq<WalGap>): Verdict {
    if facts.rangesTruncated then Verdict(Evidence.Unknown, RangeLimit)
    else if facts.diagnosticsTruncated then Verdict(Evidence.Unknown, DiagnosticLimit)
    else if facts.outOfOrder then Verdict(Evidence.Unknown, IncompatibleOrder)
    else if invalid then Verdict(Evidence.Unknown, InvalidForSegmentSize)
    else if facts.counts.duplicates > 0 then Verdict(Evidence.Unknown, DuplicatesPresent)
    else if facts.counts.unknown > 0 then Verdict(Evidence.Unknown, UnrecognizedPresent)
    else if ranges == [] then Verdict(Evidence.Unknown, NoSegments)
    else if HasStatus(gaps, Confirmed) then Verdict(Evidence.Unhealthy, ConfirmedGaps)
    else if HasStatus(gaps, Candidate) then Verdict(Evidence.Warning, CandidateGaps)
    else Verdict(Evidence.Healthy, NoGaps)
  }

  predicate AnyMisplaced(raws: seq<RawRange>, size: int) {
    exists k :: 0 <= k < |raws| && !Placeable(raws[k], size)
  }

  function ServerResult(server: string, facts: ServerFacts, context: Context, previous: seq<WalGap>, generation: U64): ServerWal
    requires !context.Pending?
  {
    if context.Rejected? then
      ServerWal(server, Evidence.Unknown, context.reason, 0, 0, facts.counts, [], [], facts.diagnostics,
                facts.diagnosticsTruncated, facts.rangesTruncated, 0)
    else
      var ranges := Merged(facts.ranges, context.size);
      var gaps := GapsOf(ranges, previous, context.size, generation);
      var verdict := VerdictOf(facts, AnyMisplaced(facts.ranges, context.size), ranges, gaps);
      ServerWal(server, verdict.state, verdict.reason, context.version, context.size, facts.counts, ranges, gaps,
                facts.diagnostics, facts.diagnosticsTruncated, facts.rangesTruncated, LatestOf(ranges))
  }

  method FinishServer(server: string, facts: ServerFacts, backups: seq<Backup>, previous: seq<WalGap>, generation: U64)
    returns (value: ServerWal)
    ensures value == ServerResult(server, facts, ContextOf(backups, server), previous, generation)
  {
    var context := WalContext(backups, server);
    value := ServerWal(server, Evidence.Unknown, MissingContext, 0, 0, facts.counts, [], [], facts.diagnostics,
                       facts.diagnosticsTruncated, facts.rangesTruncated, 0);
    if context.Rejected? {
      return value.(reason := context.reason);
    }
    hide Merged, GapsOf, VerdictOf, Placeable;
    var ranges, invalid := MergeRanges(facts.ranges, context.size);
    var latest := 0;
    for k := 0 to |ranges|
      invariant latest == LatestOf(ranges[..k])
    {
      assert ranges[..k + 1][..k] == ranges[..k];
      if ranges[k].latestReceipt > latest {
        latest := ranges[k].latestReceipt;
      }
    }
    assert ranges[..|ranges|] == ranges;
    var gaps := GapsForRanges(ranges, previous, context.size, generation);
    var verdict := VerdictOf(facts, invalid, ranges, gaps);
    value := value.(state := verdict.state, reason := verdict.reason, postgresVersion := context.version,
                    segmentSize := context.size, ranges := ranges, gaps := gaps, latestArchiveReceipt := latest);
  }

  // ---------------------------------------------------------------- the whole catalog

  /** `previousServer`: the first entry with this name. */
  function FindServer(catalog: Catalog, server: string): (r: Option<ServerWal>)
    ensures r.Some? ==> r.value in catalog.servers && r.value.server == server
    ensures r.None? <==> forall k :: 0 <= k < |catalog.servers| ==> catalog.servers[k].server != server
    decreases |catalog.servers|
  {
    if catalog.servers == [] then None
    else if catalog.servers[0].server == server then Some(catalog.servers[0])
    else FindServer(Catalog(catalog.servers[1..]), server)
  }

  function PreviousGaps(catalog: Catalog, server: string): seq<WalGap> {
    var found := FindServer(catalog, server);
    if found.Some? then found.value.gaps else []
  }

  predicate ServerBefore(a: ServerWal, b: ServerWal) {
    Less(a.server, b.server)
  }

  ghost predicate HasBackup(backups: seq<Backup>, server: string) {
    exists k :: 0 <= k < |backups| && backups[k].server == server
  }

  /** The names evidence is reported for: every listed server and every server with a backup. */
  ghost predicate Reported(listing: seq<Object>, backups: seq<Backup>, server: string) {
    Listed(listing, server) || (server != "" && HasBackup(backups, server))
  }

  function FinishedServer(listing: seq<Object>, backups: seq<Backup>, previous: Catalog, generation: U64, server: string): ServerWal {
    ServerResult(server, FactsOf(OfServer(listing, server)), ContextOf(backups, server), PreviousGaps(previous, server), generation)
  }

  /** What Finish returns: one entry per reported server, strictly sorted, each a function of the listing. */
  ghost predicate Finished(result: Catalog, listing: seq<Object>, backups: seq<Backup>, previous: Catalog, generation: U64) {
    && (forall i, j :: 0 <= i < j < |result.servers| ==> ServerBefore(result.servers[i], result.servers[j]))
    && (forall k :: 0 <= k < |result.servers| ==>
          Reported(listing, backups, result.servers[k].server)
          && result.servers[k] == FinishedServer(listing, backups, previous, generation, result.servers[k].server))
    && (forall s :: Reported(listing, backups, s) ==> exists k :: 0 <= k < |result.servers| && result.servers[k].server == s)
  }

  /** Every entry is the finished one of its name, and no name repeats. */
  ghost predicate Entries(values: seq<ServerWal>, names: set<string>, finish: string -> ServerWal) {
    && (forall k :: 0 <= k < |values| ==> values[k].server in names && values[k] == finish(values[k].server))
    && (forall i, j :: 0 <= i < j < |values| ==> values[i].server != values[j].server)
    && (forall s :: s in names ==> exists k :: 0 <= k < |values| && values[k].server == s)
  }

  lemma ServerBeforeIsOrder()
    ensures Sorting.StrictWeakOrder(ServerBefore)
  {
    forall a: ServerWal, b: ServerWal | ServerBefore(a, b) ensures !ServerBefore(b, a) {
      LessAsymmetric(a.server, b.server);
    }
    forall a: ServerWal, b: ServerWal, c: ServerWal | !ServerBefore(b, a) && !ServerBefore(c, b) ensures !ServerBefore(c, a) {
      NotLessTransitive(a.server, b.server, c.server);
    }
  }

  lemma NotLessTransitive(a: string, b: string, c: string)
    requires !Less(b, a) && !Less(c, b)
    ensures !Less(c, a)
  {
    if Less(c, a) {
      LessTotal(a, b);
      if Less(a, b) {
        LessTransitive(c, a, b);
      }
    }
  }

  /** Sorting distinct names gives a strictly sorted list of the same entries. */
  lemma SortedEntries(values: seq<ServerWal>, names: set<string>, finish: string -> ServerWal) returns (sorted: seq<ServerWal>)
    requires Entries(values, names, finish)
    ensures sorted == Sorting.Sort(ServerBefore, values)
    ensures Entries(sorted, names, finish)
    ensures forall i, j :: 0 <= i < j < |sorted| ==> ServerBefore(sorted[i], sorted[j])
  {
    ServerBeforeIsOrder();
    Sorting.SortCorrect(ServerBefore, values);
    Sorting.PermutationDistinct(values, Sorting.Sort(ServerBefore, values));
    sorted := Sorting.Sort(ServerBefore, values);
    forall k | 0 <= k < |sorted| ensures sorted[k] in values {
      assert sorted[k] in multiset(sorted);
    }
    forall k | 0 <= k < |values| ensures values[k] in sorted {
      assert values[k] in multiset(values);
    }
    forall i, j | 0 <= i < j < |sorted| ensures ServerBefore(sorted[i], sorted[j]) {
      assert sorted[i] != sorted[j] && sorted[i] in values && sorted[j] in values;
      LessTotal(sorted[i].server, sorted[j].server);
      assert !ServerBefore(sorted[j], sorted[i]);
    }
    forall i, j | 0 <= i < j < |sorted| ensures sorted[i].server != sorted[j].server {
      LessIrreflexive(sorted[i].server);
      assert ServerBefore(sorted[i], sorted[j]);
    }
    forall s | s in names ensures exists k :: 0 <= k < |sorted| && sorted[k].server == s {
      var k :| 0 <= k < |values| && values[k].server == s;
      assert values[k] in sorted;
    }
  }

  /** Servers known only from the backup catalog get an empty builder. */
  method OpenBackupServers(c: Collector, backups: seq<Backup>)
    requires c.Valid()
    modifies c`servers, c`parts
    ensures c.Shares(c.listing)
    ensures forall s :: s in c.servers <==> Reported(c.listing, backups, s)
  {
    hide OfServer, Collector.Shares, Collector.Histories;
    for k := 0 to |backups|
      invariant c.Shares(c.listing)
      invariant forall s :: s in c.servers <==> Reported(c.listing, backups[..k], s)
    {
      var server := backups[k].server;
      assert backups[..k + 1] == backups[..k] + [backups[k]];
      assert forall s :: HasBackup(backups[..k + 1], s) <==> HasBackup(backups[..k], s) || s == server by {
        BackupSnoc(backups[..k], backups[k]);
      }
      if server != "" && server !in c.servers {
        c.Open(server, c.listing);
      }
    }
    assert backups[..|backups|] == backups;
  }

  lemma BackupSnoc(backups: seq<Backup>, backup: Backup)
    ensures forall s :: HasBackup(backups + [backup], s) <==> HasBackup(backups, s) || s == backup.server
  {
    var t := backups + [backup];
    assert t[|backups|] == backup;
    forall s | HasBackup(backups, s) ensures HasBackup(t, s) {
      var k :| 0 <= k < |backups| && backups[k].server == s;
      assert t[k] == backups[k];
    }
  }

  lemma ServerFactsOf(c: Collector, server: string)
    requires c.Shares(c.listing) && server in c.servers
    ensures c.servers[server].Facts() == FactsOf(OfServer(c.listing, server))
  {
    hide FactsOf, OfServer;
  }

  method FinishOne(c: Collector, server: string, backups: seq<Backup>, previous: Catalog, generation: U64)
    returns (value: ServerWal)
    requires c.Shares(c.listing) && server in c.servers
    ensures value == FinishedServer(c.listing, backups, previous, generation, server)
    ensures value.server == server
  {
    ServerFactsOf(c, server);
    hide ServerBuilder.Valid, FactsOf, OfServer, ServerResult, FindServer, ContextOf, Collector.Shares;
    value := FinishServer(server, c.servers[server].Facts(), backups, PreviousGaps(previous, server), generation);
    ResultServer(server, c.servers[server].Facts(), ContextOf(backups, server), PreviousGaps(previous, server), generation);
  }

  method FinishAll(c: Collector, backups: seq<Backup>, previous: Catalog, generation: U64, ghost finish: string -> ServerWal)
    returns (values: seq<ServerWal>)
    requires c.Shares(c.listing)
    requires forall s :: s in c.servers ==> finish(s) == FinishedServer(c.listing, backups, previous, generation, s)
    ensures Entries(values, c.servers.Keys, finish)
  {
    hide Entries, FinishedServer, Collector.Shares;
    values := [];
    var todo := c.servers.Keys;
    NoEntries(c.servers.Keys - todo, finish);
    while todo != {}
      invariant todo <= c.servers.Keys
      invariant Entries(values, c.servers.Keys - todo, finish)
    {
      var server :| server in todo;
      var value := FinishOne(c, server, backups, previous, generation);
      EntriesMore(values, c.servers.Keys - todo, finish, server);
      values := values + [value];
      assert c.servers.Keys - (todo - {server}) == c.servers.Keys - todo + {server};
      todo := todo - {server};
    }
    assert c.servers.Keys - todo == c.servers.Keys;
  }

  lemma ResultServer(server: string, facts: ServerFacts, context: Context, previous: seq<WalGap>, generation: U64)
    requires !context.Pending?
    ensures ServerResult(server, facts, context, previous, generation).server == server
  {
    hide Merged, GapsOf, VerdictOf;
  }

  lemma NoEntries(names: set<string>, finish: string -> ServerWal)
    requires names == {}
    ensures Entries([], names, finish)
  {
  }

  lemma EntriesMore(values: seq<ServerWal>, names: set<string>, finish: string -> ServerWal, server: string)
    requires Entries(values, names, finish) && server !in names && finish(server).server == server
    ensures Entries(values + [finish(server)], names + {server}, finish)
  {
    var t := values + [finish(server)];
    assert t[|values|].server == server;
    forall s | s in names ensures exists k :: 0 <= k < |t| && t[k].server == s {
      var k :| 0 <= k < |values| && values[k].server == s;
      assert t[k] == values[k];
    }
  }

  lemma EntriesFinish(result: Catalog, names: set<string>, finish: string -> ServerWal, listing: seq<Object>,
                      backups: seq<Backup>, previous: Catalog, generation: U64)
    requires Entries(result.servers, names, finish)
    requires forall i, j :: 0 <= i < j < |result.servers| ==> ServerBefore(result.servers[i], result.servers[j])
    requires forall s :: s in names <==> Reported(listing, backups, s)
    requires forall s :: finish(s) == FinishedServer(listing, backups, previous, generation, s)
    ensures Finished(result, listing, backups, previous, generation)
  {
    hide FinishedServer, Reported, ServerBefore;
  }

  /** `WALCollector.Finish`. */
  method Finish(c: Collector, backups: seq<Backup>, previous: Catalog, generation: U64) returns (result: Catalog)
    requires c.Valid()
    modifies c`servers, c`parts
    ensures Finished(result, c.listing, backups, previous, generation)
  {
    OpenBackupServers(c, backups);
    ghost var listing := c.listing;
    ghost var finish := (s: string) => FinishedServer(listing, backups, previous, generation, s);
    var values := FinishAll(c, backups, previous, generation, finish);
    hide FinishedServer, Collector.Shares, Reported, Entries, Finished;
    ghost var sorted := SortedEntries(values, c.servers.Keys, finish);
    result := Catalog(Sorting.Sort(ServerBefore, values));
    EntriesFinish(result, c.servers.Keys, finish, listing, backups, previous, generation);
  }
}
