// The versioned evidence contract: items, summaries and their validators (api/evidence/v1alpha1/types.go).
module EvidenceContract {
  import opened Results
  import opened Text
  import opened WalNames
  import opened WalRanges
  import opened WalGaps
  import opened RangeWalk
  import opened Inventory
  import Evidence

  datatype PublicBackup = PublicBackup(
    server: string, backupId: string, state: Evidence.State, systemId: Option<string>, version: Option<int>,
    timeline: Option<int>, segmentSize: Option<int>, beginWal: Option<string>, endWal: Option<string>,
    endLsn: Option<string>, endAt: Option<Time>, notes: PublicNotes)

  datatype PublicNotes = PublicNotes(
    status: Option<string>, kind: Option<string>, beginLsn: Option<string>, beginAt: Option<Time>,
    compression: Option<string>, encryption: Option<string>)

  datatype PublicRange = PublicRange(
    server: string, timeline: U64, start: U64, end: U64, count: U64, first: string, last: string,
    latestReceipt: Option<Time>, endReceipt: Option<Time>)

  datatype PublicGap = PublicGap(
    server: string, timeline: U64, start: U64, end: U64, count: U64, first: string, last: string,
    status: GapStatus, firstObserved: U64, lastObserved: U64)

  datatype PublicPath = PublicPath(
    server: string, backupId: string, target: U64, state: Evidence.State, stop: Stop, lowerBound: Option<Time>,
    startTimeline: Option<int>, startPosition: Option<int>, startWal: Option<string>,
    frontierTimeline: Option<int>, frontierPosition: Option<int>, frontierWal: Option<string>, frontierReceipt: Option<Time>)

  datatype StateCounts = StateCounts(healthy: nat, warning: nat, unhealthy: nat, unknown: nat)

  /** The totals of one generation; all or none of them are published. */
  datatype GenerationCounts = GenerationCounts(
    backups: nat, ranges: nat, gaps: nat, paths: nat, usable: nat, states: StateCounts)

  datatype PublicRetention = PublicRetention(
    state: Evidence.State, oldest: Option<Time>, newest: Option<Time>, minimumConfigured: bool, minimum: Option<nat>)

  datatype Summary = Summary(
    counts: Option<GenerationCounts>, wal: Evidence.State, timelines: Evidence.State, coverage: Evidence.State,
    retention: PublicRetention, latestReceipt: Option<Time>, rangesTruncated: bool, diagnosticsTruncated: bool)

  datatype InventoryTotals = InventoryTotals(objects: nat, bytes: nat, unscoped: nat)

  datatype PublicSnapshot = PublicSnapshot(
    revision: U64, generation: U64, startedAt: Option<Time>, completedAt: Option<Time>, lastAttemptAt: Option<Time>,
    completeness: Completeness, stale: bool, state: Evidence.State, capabilities: seq<Capability>,
    known: bool, totals: Option<InventoryTotals>, failure: Option<Category>, details: Summary)

  // ---------------------------------------------------------------- items

  /** `invalidText` of the contract, which unlike that of the inventory asks for UTF-8. */
  predicate PublicText(s: string, limit: nat) {
    ValidText(s, limit) && ValidUtf8(s)
  }

  lemma AsciiIsPublic(s: string, limit: nat)
    requires Ascii(s) && s != "" && |s| <= limit
    ensures PublicText(s, limit)
  {
    AsciiIsUtf8(s);
    hide ValidUtf8;
  }

  predicate ValidPublicServer(name: string) {
    PublicText(name, 256) && name != "." && name != ".." && '/' !in name && '\\' !in name
  }

  predicate UpperHex(s: string) {
    forall k :: 0 <= k < |s| ==> '0' <= s[k] <= '9' || 'A' <= s[k] <= 'F'
  }

  predicate PublicName(name: string) {
    |name| == 24 && UpperHex(name)
  }

  predicate OptionalText(value: Option<string>, limit: nat) {
    value.Some? ==> PublicText(value.value, limit)
  }

  predicate OptionalPublicName(value: Option<string>) {
    value.Some? ==> PublicName(value.value)
  }

  predicate OptionalTime(value: Option<Time>) {
    value.Some? ==> value.value != 0
  }

  predicate Decimal(s: string) {
    s != "" && forall k :: 0 <= k < |s| ==> '0' <= s[k] <= '9'
  }

  /** One or two halves of at most eight upper-case digits, split at the first slash. */
  predicate PublicLsn(s: string) {
    exists k :: 0 <= k < |s| && s[k] == '/' && '/' !in s[..k] && 1 <= k <= 8 && 1 <= |s| - k - 1 <= 8
                && UpperHex(s[..k]) && UpperHex(s[k + 1..])
  }

  predicate ValidPublicNotes(n: PublicNotes) {
    && OptionalText(n.status, 64) && OptionalText(n.kind, 64) && OptionalText(n.beginLsn, 32)
    && OptionalText(n.compression, 64) && OptionalText(n.encryption, 64)
    && (n.beginLsn.Some? ==> PublicLsn(n.beginLsn.value)) && OptionalTime(n.beginAt)
  }

  predicate ValidPublicBackup(b: PublicBackup) {
    && ValidPublicServer(b.server) && PublicText(b.backupId, 256)
    && OptionalText(b.systemId, 64) && OptionalText(b.beginWal, 64) && OptionalText(b.endWal, 64) && OptionalText(b.endLsn, 32)
    && (b.systemId.Some? ==> Decimal(b.systemId.value))
    && (b.timeline.Some? ==> b.timeline.value != 0)
    && (b.segmentSize.Some? ==> ValidSegmentSize(b.segmentSize.value))
    && OptionalPublicName(b.beginWal) && OptionalPublicName(b.endWal)
    && (b.endLsn.Some? ==> PublicLsn(b.endLsn.value)) && OptionalTime(b.endAt)
    && ValidPublicNotes(b.notes) && (b.notes.beginAt.Some? && b.endAt.Some? ==> b.notes.beginAt.value <= b.endAt.value)
  }

  predicate ValidPublicRange(r: PublicRange) {
    && ValidPublicServer(r.server) && r.timeline != 0 && r.start <= r.end != MAX_UINT64 && r.count == Span(r.start, r.end)
    && PublicName(r.first) && PublicName(r.last) && OptionalTime(r.latestReceipt) && OptionalTime(r.endReceipt)
  }

  predicate ValidPublicGap(g: PublicGap) {
    && ValidPublicServer(g.server) && g.timeline != 0 && g.start <= g.end != MAX_UINT64 && g.count == Span(g.start, g.end)
    && PublicName(g.first) && PublicName(g.last)
    && 0 < g.firstObserved <= g.lastObserved && (g.status == Candidate <==> g.firstObserved == g.lastObserved)
  }

  predicate CompletePosition(timeline: Option<int>, position: Option<int>, name: Option<string>) {
    if timeline.None? && position.None? && name.None? then true
    else timeline.Some? && timeline.value > 0 && position.Some? && name.Some? && PublicName(name.value)
  }

  predicate ValidPublicPath(p: PublicPath) {
    && ValidPublicServer(p.server) && PublicText(p.backupId, 256) && p.target != 0
    && OptionalTime(p.lowerBound) && OptionalTime(p.frontierReceipt)
    && CompletePosition(p.startTimeline, p.startPosition, p.startWal)
    && CompletePosition(p.frontierTimeline, p.frontierPosition, p.frontierWal)
  }

  predicate BackupItemBefore(a: PublicBackup, b: PublicBackup) {
    Less(a.backupId, b.backupId) || (a.backupId == b.backupId && Less(a.server, b.server))
  }

  predicate RangeItemBefore(a: PublicRange, b: PublicRange) {
    Less(a.server, b.server) || (a.server == b.server && (a.timeline < b.timeline || (a.timeline == b.timeline && a.start < b.start)))
  }

  predicate GapItemBefore(a: PublicGap, b: PublicGap) {
    Less(a.server, b.server) || (a.server == b.server && (a.timeline < b.timeline || (a.timeline == b.timeline && a.start < b.start)))
  }

  predicate PathItemBefore(a: PublicPath, b: PublicPath) {
    Less(a.backupId, b.backupId)
    || (a.backupId == b.backupId && (a.target < b.target || (a.target == b.target && Less(a.server, b.server))))
  }

  // ---------------------------------------------------------------- the snapshot

  predicate ValidRetentionDetails(r: PublicRetention) {
    && (r.minimumConfigured <==> r.minimum.Some?) && OptionalTime(r.oldest) && OptionalTime(r.newest)
    && (r.oldest.Some? && r.newest.Some? ==> r.oldest.value <= r.newest.value)
  }

  predicate ValidDetails(s: Summary) {
    && ValidRetentionDetails(s.retention) && OptionalTime(s.latestReceipt)
    && (s.rangesTruncated || s.diagnosticsTruncated ==> s.wal == Evidence.Unknown)
    && (s.counts.Some? ==>
          var c := s.counts.value;
          c.states.healthy + c.states.warning + c.states.unhealthy + c.states.unknown == c.backups && c.usable <= c.backups)
  }

  predicate CompleteCapabilities(list: seq<Capability>) {
    && |list| == 9
    && forall k :: 0 <= k < 9 ==>
         Rank(list[k].id) == k && (list[k].support != Supported ==> list[k].state == Evidence.Unknown)
  }

  /** A public snapshot never turns missing, stale or failed evidence into healthy evidence. */
  predicate ValidPublicSnapshot(s: PublicSnapshot) {
    && s.generation <= s.revision
    && (s.completeness != Complete ==> s.state != Evidence.Healthy)
    && (s.stale ==> s.state == Evidence.Unknown)
    && (if s.generation == 0
        then s.startedAt.None? && s.completedAt.None? && s.completeness != Complete && s.state == Evidence.Unknown
        else s.completeness == Complete && s.startedAt.Some? && s.completedAt.Some? && s.startedAt.value != 0
             && s.completedAt.value != 0 && s.startedAt.value <= s.completedAt.value)
    && OptionalTime(s.lastAttemptAt)
    && CompleteCapabilities(s.capabilities)
    && (s.stale ==> forall k :: 0 <= k < |s.capabilities| ==> s.capabilities[k].state == Evidence.Unknown)
    && (s.known <==> s.totals.Some?)
    && (s.failure.Some? ==> Accepted(s.failure.value) && s.stale && s.state == Evidence.Unknown)
    && ValidDetails(s.details)
    && (s.completeness != Complete ==> s.details.counts.None?)
  }
}
