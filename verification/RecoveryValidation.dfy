// RecoveryCatalog.Validate (recovery.go).
module RecoveryValidation {
  import opened Store
  import opened WalNames
  import opened WalValidation
  import opened WalCollector
  import opened Timelines
  import opened Histories
  import opened PathCoverage
  import opened ServerRecovery
  import opened RecoveryCatalogs
  import RecoveryPaths

  predicate OptionalName(name: string) {
    name == "" || (|name| == 24 && IsHex(name))
  }

  predicate ValidEdge(e: HistoryEdge) {
    e.parent != 0 && e.child > e.parent && e.switchLsn != 0 && |e.switchWal| == 24 && IsHex(e.switchWal)
  }

  predicate ValidHistory(h: TimelineHistory, server: string) {
    && h.server == server && h.timeline >= 2 && |h.edges| <= MAX_HISTORY_ENTRIES
    && (h.key == "" || (|h.key| <= MAX_KEY_BYTES && ControlFree(h.key)))
    && forall k :: 0 <= k < |h.edges| ==> ValidEdge(h.edges[k])
  }

  predicate ValidBackupId(id: string) {
    id != "" && |id| <= 256 && ControlFree(id)
  }

  predicate ValidPath(p: RecoveryPath, server: string) {
    p.server == server && ValidBackupId(p.backupId) && OptionalName(p.startWal) && OptionalName(p.frontierWal)
  }

  predicate ValidRetention(r: Retention) {
    && r.usable <= r.visible && (!r.minimumConfigured ==> r.minimum == 0)
    && (r.oldest != 0 && r.newest != 0 ==> r.oldest <= r.newest)
  }

  predicate ValidRecoveryServer(e: Recovery) {
    && ValidName(e.server) && |e.paths| <= RecoveryPaths.MAX_RECOVERY_PATHS && |e.histories| <= MAX_HISTORY_FILES
    && (forall k :: 0 <= k < |e.histories| ==> ValidHistory(e.histories[k], e.server))
    && (forall i, j :: 0 <= i < |e.histories| && i < j < |e.histories| && j == i + 1 ==>
          HistoryBefore(e.histories[i], e.histories[j]))
    && (forall k :: 0 <= k < |e.paths| ==> ValidPath(e.paths[k], e.server))
    && (forall i, j :: 0 <= i < |e.paths| && i < j < |e.paths| && j == i + 1 ==> PathBefore(e.paths[i], e.paths[j]))
    && ValidRetention(e.retention)
  }

  predicate ValidRecovery(c: RecoveryCatalog) {
    && |c.servers| <= MAX_SERVERS
    && (forall k :: 0 <= k < |c.servers| ==> ValidRecoveryServer(c.servers[k]))
    && (forall i, j :: 0 <= i < |c.servers| && i < j < |c.servers| && j == i + 1 ==> RecoveryBefore(c.servers[i], c.servers[j]))
  }
}
