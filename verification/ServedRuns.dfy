// What the sidecar serves over a whole run of its scanner (application.go with scanner.go and engine.go).
module ServedRuns {
  import opened Inventory
  import opened Publications
  import opened EvidenceEngine
  import opened Sidecar
  import opened GapLifecycle
  import opened Scanning
  import opened Scanner
  import EndToEnd
  import Evidence

  /** A snapshot published by the scanner, and the recorded scan whose listing proves it. */
  ghost predicate Behind(p: Publication, published: seq<Snapshot>, scans: seq<CompleteScan>, o: ProjectOptions, i: int, j: int) {
    ProjectionAt(p, published, o, i) && ProvenBy(published[i], scans, j) && scans[j].generation == p.snapshot.revision
  }

  /**
   * Whatever healthy publication the engine ever served in a run of the scanner, the scan of that very revision is on
   * record, and the listing the store returned in it proves every claim.
   */
  lemma HealthyPublicationIsProven(log: seq<Publication>, published: seq<Snapshot>, scans: seq<CompleteScan>, attempts: nat, st: Settings,
                                   o: ProjectOptions, p: Publication)
    requires Truthful(published, scans, attempts, st) && Mirrors(log, published, o)
    requires p in log && p.snapshot.state == Evidence.Healthy
    ensures exists i, j :: Behind(p, published, scans, o, i, j)
  {
    hide Project, ProvenBy, ValidSnapshot, Initial, Remembers;
    assert HasSource(p, published, o);
    var i :| ProjectionAt(p, published, o, i);
    ProjectionIsFaithful(published[i], o);
    hide ValidPublication;
    var j :| ProvenBy(published[i], scans, j);
    ProvenGeneration(published[i], scans, j);
    assert Behind(p, published, scans, o, i, j);
  }

  lemma ProvenGeneration(s: Snapshot, scans: seq<CompleteScan>, j: int)
    requires ProvenBy(s, scans, j)
    ensures 0 <= j < |scans| && scans[j].generation == s.refreshGeneration
  {
    hide EndToEnd.SnapshotProven;
  }

  /** So it is with a scanner that publishes through the engine, after any number of refreshes. */
  lemma SidecarServesProven(r: RefreshScanner, p: Publication)
    requires r.Valid() && r.front != null && r.attempts < GENERATIONS
    requires p in r.front.engine.log && p.snapshot.state == Evidence.Healthy
    ensures exists i, j :: Behind(p, r.published, r.scans, r.front.engine.options, i, j)
  {
    hide Truthful, Mirrors, ValidSnapshot, Log;
    HealthyPublicationIsProven(r.front.engine.log, r.published, r.scans, r.attempts, r.settings, r.front.engine.options, p);
  }
}
