// Rolling Barman evidence up into the snapshot envelope (scanner.go, applyBarman*Evidence).
module ScanEvidence {
  import opened WalCatalog
  import opened RecoveryCatalogs
  import opened Inventory
  import opened Backups
  import opened Evidence

  function BackupState(b: Backup): State { b.state }
  function WalState(s: ServerWal): State { s.state }
  function TimelinesState(e: Recovery): State { e.timelines }
  function CoverageState(e: Recovery): State { e.coverage }
  function RetentionOf(e: Recovery): State { e.retention.state }

  function WithCatalog(e: Envelope, backups: seq<Backup>): Envelope {
    var state := JoinOf(backups, BackupState);
    e.(state := state, capabilities := Prove(e.capabilities, {CatalogListing, StructuralValidation}, state))
  }

  function WithWal(e: Envelope, wal: Catalog): Envelope {
    var state := JoinOf(wal.servers, WalState);
    e.(state := Conservative(e.state, state), capabilities := Prove(e.capabilities, {WalContinuity}, state))
  }

  function WithRecovery(e: Envelope, recovery: RecoveryCatalog): Envelope {
    var timelines, coverage, retention := JoinOf(recovery.servers, TimelinesState), JoinOf(recovery.servers, CoverageState),
                                          JoinOf(recovery.servers, RetentionOf);
    e.(state := Conservative(e.state, Conservative(timelines, Conservative(coverage, retention))),
       capabilities := Prove(Prove(Prove(e.capabilities, {TimelineTraversal}, timelines), {RecoveryCoverage}, coverage),
                             {RetentionExpectation}, retention))
  }

  /** The envelope of a complete scan whose Barman semantics were evaluated. */
  function Concluded(e: Envelope, backups: seq<Backup>, wal: Catalog, recovery: RecoveryCatalog): Envelope {
    WithRecovery(WithWal(WithCatalog(e, backups), wal), recovery)
  }

  /** `applyBarmanEvidence`; its switch never lets a milder state replace a more cautious one. */
  method ApplyCatalog(e: Envelope, backups: seq<Backup>) returns (r: Envelope)
    ensures r == WithCatalog(e, backups)
  {
    var state := Healthy;
    if |backups| == 0 {
      state := State.Unknown;
    } else {
      for k := 0 to |backups|
        invariant state == JoinFrom(backups[..k], BackupState)
      {
        assert backups[..k + 1][..k] == backups[..k];
        match backups[k].state {
          case Unknown => state := State.Unknown;
          case Unhealthy => if state != State.Unknown { state := Unhealthy; }
          case Warning => if state == Healthy { state := Warning; }
          case Healthy =>
        }
      }
      assert backups[..|backups|] == backups;
    }
    var capabilities := SetCapabilities(e.capabilities, {CatalogListing, StructuralValidation}, state);
    r := e.(capabilities := capabilities, state := state);
  }

  /** `applyBarmanWALEvidence`. */
  method ApplyWal(e: Envelope, wal: Catalog) returns (r: Envelope)
    ensures r == WithWal(e, wal)
  {
    var state := Join(wal.servers, WalState);
    var capabilities := SetCapabilities(e.capabilities, {WalContinuity}, state);
    r := e.(capabilities := capabilities, state := Conservative(e.state, state));
  }

  /** `applyBarmanRecoveryEvidence`. */
  method ApplyRecovery(e: Envelope, recovery: RecoveryCatalog) returns (r: Envelope)
    ensures r == WithRecovery(e, recovery)
  {
    var timelines := Join(recovery.servers, TimelinesState);
    var coverage := Join(recovery.servers, CoverageState);
    var retention := Join(recovery.servers, RetentionOf);
    var capabilities := SetCapabilities(e.capabilities, {TimelineTraversal}, timelines);
    capabilities := SetCapabilities(capabilities, {RecoveryCoverage}, coverage);
    capabilities := SetCapabilities(capabilities, {RetentionExpectation}, retention);
    r := e.(capabilities := capabilities, state := Conservative(e.state, Conservative(timelines, Conservative(coverage, retention))));
  }

  /**
   * A complete scan is healthy exactly when there are backups, WAL servers and recovery entries, and each of them is
   * healthy in every respect.
   */
  lemma ConcludedHealthyIff(e: Envelope, backups: seq<Backup>, wal: Catalog, recovery: RecoveryCatalog)
    ensures Concluded(e, backups, wal, recovery).state == Healthy <==>
              && backups != [] && wal.servers != [] && recovery.servers != []
              && (forall b :: b in backups ==> b.state == Healthy)
              && (forall s :: s in wal.servers ==> s.state == Healthy)
              && (forall x :: x in recovery.servers ==>
                    x.timelines == Healthy && x.coverage == Healthy && x.retention.state == Healthy)
  {
    hide JoinOf, Prove;
    JoinHealthyIff(backups, BackupState);
    JoinHealthyIff(wal.servers, WalState);
    JoinHealthyIff(recovery.servers, TimelinesState);
    JoinHealthyIff(recovery.servers, CoverageState);
    JoinHealthyIff(recovery.servers, RetentionOf);
  }

  /** What proving leaves valid: no capability is added, renamed, or left with a state it has no support for. */
  ghost predicate SoundCapabilities(list: seq<Capability>) {
    && (forall k :: 0 <= k < |list| ==> (list[k].support != Supported ==> list[k].state == State.Unknown))
    && forall i, j :: 0 <= i < j < |list| ==> list[i].id != list[j].id
  }

  lemma ProveSound(list: seq<Capability>, ids: set<CapabilityId>, state: State)
    requires SoundCapabilities(list)
    ensures SoundCapabilities(Prove(list, ids, state))
  {
    hide Prove;
  }

  lemma ConcludedIsValid(e: Envelope, backups: seq<Backup>, wal: Catalog, recovery: RecoveryCatalog)
    requires ValidEnvelope(e) && e.completeness == Complete
    ensures ValidEnvelope(Concluded(e, backups, wal, recovery)) && Concluded(e, backups, wal, recovery).completeness == Complete
  {
    hide Prove, JoinOf, ValidText;
    var a, b := WithCatalog(e, backups), WithWal(WithCatalog(e, backups), wal);
    ProveSound(e.capabilities, {CatalogListing, StructuralValidation}, JoinOf(backups, BackupState));
    ProveSound(a.capabilities, {WalContinuity}, JoinOf(wal.servers, WalState));
    var timelines, coverage, retention := JoinOf(recovery.servers, TimelinesState), JoinOf(recovery.servers, CoverageState),
                                          JoinOf(recovery.servers, RetentionOf);
    var c := Prove(b.capabilities, {TimelineTraversal}, timelines);
    var d := Prove(c, {RecoveryCoverage}, coverage);
    ProveSound(b.capabilities, {TimelineTraversal}, timelines);
    ProveSound(c, {RecoveryCoverage}, coverage);
    ProveSound(d, {RetentionExpectation}, retention);
  }
}
