// What one scan yields, from the listing to the evaluated snapshot (scanner.go, scan).
module ScanOutcomes {
  import opened Results
  import opened Store
  import opened WalValidation
  import opened WalCollector
  import opened WalCatalog
  import opened RecoveryCatalogs
  import opened Inventory
  import opened InventoryBuilder
  import opened InventoryCompletion
  import opened ScanEvidence
  import opened Scanning
  import opened BackupCatalogs

  function InitialScopes(st: Settings): set<string> {
    set k | 0 <= k < |st.initial| :: st.initial[k]
  }

  /** Why `newBuilder` refuses the initial scopes. */
  function OpeningRefusal(st: Settings): Option<Category> {
    if |st.initial| > MAX_SCOPES then Some(SafetyLimit)
    else if (exists k :: 0 <= k < |st.initial| && !ValidName(st.initial[k]))
            || (exists i, j :: 0 <= i < |st.initial| && i < j < |st.initial| && st.initial[i] == st.initial[j])
    then Some(Incompatible)
    else None
  }

  function RecoveryInputOf(s: Snapshot, matched: seq<Object>, env: Environment, st: Settings): RecoveryInput {
    RecoveryInput(s.backups, s.wal, Keep(HistoryRefs(matched), MAX_HISTORY_FILES), |HistoryRefs(matched)| > MAX_HISTORY_FILES,
                  env.read, st.options)
  }

  /** The Barman half of a complete snapshot. */
  ghost predicate Evaluated(s: Snapshot, matcher: Matcher, l: seq<Object>, env: Environment, st: Settings, previous: Catalog,
                            generation: U64)
  {
    var matched := Matched(matcher, l);
    && CatalogOf(s.backups, CatalogObjects(matcher, l), env.backup)
    && Finished(s.wal, matched, s.backups, previous, generation)
    && Recovered(s.recovery, RecoveryInputOf(s, matched, env, st))
    && s.evidence == Concluded(CompleteEnvelope(st.descriptor, generation, env.started, env.completed), s.backups, s.wal, s.recovery)
  }

  ghost predicate NotEvaluated(s: Snapshot, env: Environment, st: Settings, generation: U64) {
    && s.backups == [] && s.wal == Catalog([]) && s.recovery == RecoveryCatalog([])
    && s.evidence == CompleteEnvelope(st.descriptor, generation, env.started, env.completed)
  }

  ghost predicate Stamped(s: Snapshot, env: Environment, generation: U64) {
    && s.refreshGeneration == generation && s.lastRefreshAt == env.completed && s.lastAttemptAt == env.started
    && s.refreshFailure.None?
  }

  /** The snapshot of a successful scan. */
  ghost predicate CompletedScan(s: Snapshot, env: Environment, st: Settings, matcher: Matcher, walked: Walked, previous: Catalog,
                                generation: U64)
  {
    && Inventoried(s, matcher, InitialScopes(st), walked.listing, st.recentLimit)
    && Stamped(s, env, generation) && s.pagesExamined == walked.pages
    && if st.analyze then Evaluated(s, matcher, walked.listing, env, st, previous, generation) else NotEvaluated(s, env, st, generation)
  }

  function WalkOf(env: Environment, st: Settings): Result<Walked, Failure>
    requires st.pageSize > 0 && st.matcher.Some?
  {
    Walk(env, st, st.matcher.value, InitialScopes(st), 0, "", [])
  }

  /** Everything a scan may return, case by case. */
  ghost predicate ScanOutcome(r: Result<Snapshot, Failure>, env: Environment, st: Settings, previous: Catalog, generation: U64) {
    if st.pageSize <= 0 then false
    else if st.matcher.None? then r == Err(Fault(UnknownFault))
    else if OpeningRefusal(st).Some? then r == Err(Fault(OpeningRefusal(st).value))
    else if WalkOf(env, st).Err? then r == Err(WalkOf(env, st).error)
    else if st.analyze && env.afterCatalog.Some? then r == Err(env.afterCatalog.value)
    else if st.analyze && env.afterRecovery.Some? then r == Err(env.afterRecovery.value)
    else r.Ok? && CompletedScan(r.value, env, st, st.matcher.value, WalkOf(env, st).value, previous, generation)
  }

  /** The scoped objects a successful scan accepted, in provider order. */
  ghost function AcceptedListing(env: Environment, st: Settings): seq<Object> {
    if st.pageSize > 0 && st.matcher.Some? && WalkOf(env, st).Ok? then Matched(st.matcher.value, WalkOf(env, st).value.listing) else []
  }

  // ---------------------------------------------------------------- the steps after the listing

  lemma CollectedHistories(c: Collector)
    requires c.Valid()
    ensures c.historyObjects == Keep(HistoryRefs(c.listing), MAX_HISTORY_FILES)
    ensures c.historyTruncated <==> |HistoryRefs(c.listing)| > MAX_HISTORY_FILES
  {
    hide Collector.Partitioned;
  }

  /** Backup catalog, WAL continuity and recovery, each rolled up into the envelope. */
  method Evaluate(b: Builder, plain: Snapshot, env: Environment, st: Settings, previous: Catalog, generation: U64)
    returns (r: Result<Snapshot, Failure>)
    requires b.Streams(b.listing) && b.analyze
    requires plain.evidence == CompleteEnvelope(st.descriptor, generation, env.started, env.completed)
    modifies b.collector`servers, b.collector`parts
    ensures if env.afterCatalog.Some? then r == Err(env.afterCatalog.value)
            else if env.afterRecovery.Some? then r == Err(env.afterRecovery.value)
            else r.Ok? && Evaluated(r.value, b.matcher, b.listing, env, st, previous, generation)
                 && r.value == plain.(backups := r.value.backups, wal := r.value.wal, recovery := r.value.recovery,
                                      evidence := r.value.evidence)
  {
    hide RecentHeap.Heap.Valid, Collector.Valid, CatalogOf, Finished, Recovered, CompleteEnvelope, Matched, CatalogObjects, HistoryRefs,
         WithCatalog, WithWal, WithRecovery;
    CollectedHistories(b.collector);
    var backups := Analyze(b.catalogObjects, env.backup);
    if env.afterCatalog.Some? {
      return Err(env.afterCatalog.value);
    }
    var e := ApplyCatalog(plain.evidence, backups);
    var wal := Finish(b.collector, backups, previous, generation);
    e := ApplyWal(e, wal);
    var recovery := AnalyzeRecovery(RecoveryInput(backups, wal, b.collector.historyObjects, b.collector.historyTruncated, env.read,
                                                  st.options));
    if env.afterRecovery.Some? {
      return Err(env.afterRecovery.value);
    }
    e := ApplyRecovery(e, recovery);
    r := Ok(plain.(backups := backups, wal := wal, recovery := recovery, evidence := e));
  }

  lemma KeepsInventory(plain: Snapshot, s: Snapshot, matcher: Matcher, initial: set<string>, l: seq<Object>, limit: nat)
    requires Inventoried(plain, matcher, initial, l, limit)
    requires s == plain.(backups := s.backups, wal := s.wal, recovery := s.recovery, evidence := s.evidence)
    ensures Inventoried(s, matcher, initial, l, limit)
  {
    hide ScopeList, Countable, Bytes, Matched, Recents, RecentHeap.Selects;
  }

  /** `scan`. */
  method Scan(env: Environment, st: Settings, previous: Catalog, generation: U64) returns (r: Result<Snapshot, Failure>)
    requires ValidSettings(st)
    ensures ScanOutcome(r, env, st, previous, generation)
  {
    hide Walk, Inventoried, Evaluated, CompleteEnvelope, ValidDescriptor, Builder.Counted, Builder.Scoped, Builder.Streams;
    if st.matcher.None? {
      return Err(Fault(UnknownFault));
    }
    if OpeningRefusal(st).Some? {
      return Err(Fault(OpeningRefusal(st).value));
    }
    hide OpeningRefusal;
    var b := new Builder(st.matcher.value, st.initial, st.recentLimit, st.analyze);
    assert b.initial == InitialScopes(st);
    hide InitialScopes;
    var error, calls := ListAll(env, st, b);
    if error.Some? {
      return Err(error.value);
    }
    var s := CompleteSnapshot(b, st.descriptor, generation, env.started, env.completed);
    if st.analyze {
      r := Evaluate(b, s, env, st, previous, generation);
      if r.Ok? {
        KeepsInventory(s, r.value, b.matcher, b.initial, b.listing, st.recentLimit);
      }
    } else {
      r := Ok(s);
    }
  }
}
