// One complete scan as a whole, and what its listing makes of the WAL of a server (scanner.go with wal.go).
module ScanRuns {
  import opened Results
  import opened Store
  import opened WalNames
  import opened WalClassify
  import opened WalCollector
  import opened WalRanges
  import opened WalGaps
  import opened WalCatalog
  import opened WalEvidence
  import opened WalValidation
  import opened RecoveryCatalogs
  import opened RecoveryValidation
  import opened RecoveryValidity
  import opened Inventory
  import opened InventoryBuilder
  import opened InventoryCompletion
  import opened ScanEvidence
  import opened Scanning
  import opened ScanOutcomes
  import opened ScanValidity
  import opened Backups
  import EndToEnd

  /** A complete Barman scan: its snapshot, and everything it was taken from. */
  datatype ScanRun = ScanRun(
    s: Snapshot, env: Environment, st: Settings, configured: seq<string>, walked: Walked, previous: Catalog, generation: U64)

  ghost predicate Plain(r: ScanRun) {
    PlainScan(r.s, r.env, r.st, r.configured, r.walked, r.previous, r.generation)
  }

  function MatchedOf(r: ScanRun): seq<Object> {
    Matched(BarmanMatcher(r.configured), r.walked.listing)
  }

  function InputOf(r: ScanRun): RecoveryInput {
    RecoveryInputOf(r.s, MatchedOf(r), r.env, r.st)
  }

  lemma PlainParts(r: ScanRun)
    requires Plain(r)
    ensures SaneInput(InputOf(r)) && Recovered(r.s.recovery, InputOf(r))
    ensures Finished(r.s.wal, MatchedOf(r), r.s.backups, r.previous, r.generation)
  {
    var names := ScanNames(r.s, r.env, r.st, r.configured, r.walked, r.previous, r.generation);
    RecoveryInputIsSane(r.s, r.env, r.st, r.configured, r.walked, r.previous, r.generation, names);
    hide Walk, SaneInput, ValidName, ObservedBefore, ScopeNames, Inventoried, Concluded, ValidSettings, Matched, Finished, Recovered,
         SaneBackups, BarmanMatcher, HistoryRefs;
  }

  lemma UnacceptableEntry(recovery: RecoveryCatalog, i: RecoveryInput, server: string)
    requires Recovered(recovery, i) && SaneInput(i) && server in NamesOf(i)
    requires forall histories :: HistoriesFor(histories, i, server) ==> !AcceptableWith(i, server, histories)
    ensures !ValidRecovery(recovery)
  {
    hide RecoveredServer, SaneInput, ValidRecoveryServer, AcceptableWith, HistoriesFor, NamesOf;
    var e :| e in recovery.servers && e.server == server;
    RecoveryValidity.EntryValidIff(e, i);
    var k :| 0 <= k < |recovery.servers| && recovery.servers[k] == e;
  }

  lemma InvalidRecovery(s: Snapshot)
    requires !ValidRecovery(s.recovery)
    ensures !ValidSnapshot(s)
  {
    hide ValidEnvelope, ValidCatalog, ValidListing, ValidScopes, ValidRecovery;
  }

  /** One server whose input is not acceptable keeps the whole scan from being published. */
  lemma UnacceptableIsRefused(r: ScanRun, server: string)
    requires Plain(r) && server in NamesOf(InputOf(r))
    requires forall histories :: HistoriesFor(histories, InputOf(r), server) ==> !AcceptableWith(InputOf(r), server, histories)
    ensures !ValidSnapshot(r.s)
  {
    hide Plain, SaneInput, Recovered, AcceptableWith, HistoriesFor, NamesOf, InputOf, MatchedOf, Finished, ValidSnapshot, ValidRecovery;
    PlainParts(r);
    UnacceptableEntry(r.s.recovery, InputOf(r), server);
    InvalidRecovery(r.s);
  }

  /** So does one key that cannot be quoted. */
  lemma UnprintableIsRefused(r: ScanRun, server: string, k: nat)
    requires Plain(r) && k < |OfServer(MatchedOf(r), server)| && Unprintable(OfServer(MatchedOf(r), server)[k])
    requires |Findings(OfServer(MatchedOf(r), server)[..k])| < MAX_WAL_DIAGNOSTICS
    ensures !ValidSnapshot(r.s)
  {
    CompletedValidIff(r.s, r.env, r.st, r.configured, r.walked, r.previous, r.generation);
    hide PlainScan, Matched, ValidSnapshot, NamesOf, Acceptable, Findings, Unprintable, OfServer;
    assert !PlainReports(OfServer(MatchedOf(r), server));
  }

  // ---------------------------------------------------------------- an orderly listing

  /** Segments in increasing order, each with a position, and few enough to keep a range for each. */
  ghost predicate Orderly(objects: seq<Classified>, size: int) {
    var segments := SegmentsIn(objects);
    Increasing(segments) && AllPlaced(segments, size) && |segments| <= MAX_WAL_RANGES
  }

  lemma {:induction false} FewRanges(segments: seq<Classified>)
    ensures |Run(segments).ranges| <= |segments| && (Run(segments).truncated ==> |segments| > MAX_WAL_RANGES)
  {
    if segments != [] {
      FewRanges(segments[..|segments| - 1]);
    }
  }

  lemma OrderlyIsObserved(objects: seq<Classified>, size: int)
    requires WellKinded(objects) && Orderly(objects, size) && ValidSegmentSize(size)
    ensures forall t, p :: Observed(Merged(FactsOf(objects).ranges, size), t, p) <==> At(SegmentsIn(objects), size, t, p)
  {
    var segments := SegmentsIn(objects);
    var c := Run(segments);
    SegmentsWellKinded(objects);
    RunCompacts(segments);
    FewRanges(segments);
    IncreasingIsNonDecreasing(segments);
    MisplacedIff(c, segments, size);
    hide Compacts, Merged, SegmentsIn, Run, Findings, CountKind, At, Observed, AnyMisplaced, AllPlaced, Increasing;
    ObservedIffListed(c, segments, size);
  }

  lemma FinishedObserves(wal: Catalog, listing: seq<Object>, backups: seq<Backup>, previous: Catalog, generation: U64, server: string)
    requires Finished(wal, listing, backups, previous, generation)
    requires Listed(listing, server) && ContextOf(backups, server).Known?
    requires Orderly(OfServer(listing, server), ContextOf(backups, server).size)
    ensures var w, size, segments := WalFor(wal, server), ContextOf(backups, server).size, SegmentsIn(OfServer(listing, server));
            && w == FinishedServer(listing, backups, previous, generation, server)
            && ValidSegmentSize(size) && w.segmentSize == size && Canonical(w.ranges)
            && forall t, p :: Observed(w.ranges, t, p) <==> At(segments, size, t, p)
  {
    EndToEnd.KnownContextIsValid(backups, server);
    ListedWellKinded(listing, server);
    hide OfServer, ContextOf, PreviousGaps, Orderly, Canonical, Observed, At, Merged, GapsOf, VerdictOf, AnyMisplaced, LatestOf,
         WellKinded, SegmentsIn, Findings, CountKind, Run, ValidSegmentSize;
    assert Reported(listing, backups, server);
    var k :| 0 <= k < |wal.servers| && wal.servers[k].server == server;
    EndToEnd.FinishedCanonical(listing, backups, previous, generation, server);
    OrderlyIsObserved(OfServer(listing, server), ContextOf(backups, server).size);
  }
}
