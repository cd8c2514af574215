// Recovery evidence for every server of a complete scan (recovery.go, AnalyzeRecovery).
module RecoveryCatalogs {
  import opened Results
  import opened Text
  import opened WalCollector
  import opened WalCatalog
  import opened Ancestries
  import opened Histories
  import opened PathCoverage
  import opened ServerRecovery
  import opened Backups
  import Evidence
  import Sorting
  import RecoveryPaths

  datatype RecoveryOptions = RecoveryOptions(policy: string, minimum: Option<nat>)

  datatype Retention = Retention(
    visible: nat, usable: nat, oldest: Time, newest: Time,
    minimumConfigured: bool, minimum: nat, policyConfigured: bool, state: Evidence.State)

  datatype Recovery = Recovery(
    server: string, timelines: Evidence.State, coverage: Evidence.State, histories: seq<TimelineHistory>,
    paths: seq<RecoveryPath>, retention: Retention)

  datatype RecoveryCatalog = RecoveryCatalog(servers: seq<Recovery>)

  datatype RecoveryInput = RecoveryInput(
    backups: seq<Backup>, wal: Catalog, objects: seq<HistoryObject>, truncated: bool,
    read: HistoryObject -> HistoryText, options: RecoveryOptions)

  // ---------------------------------------------------------------- the share of one server

  function BackupsFor(backups: seq<Backup>, server: string): seq<Backup> {
    if backups == [] then []
    else
      var front, last := BackupsFor(backups[..|backups| - 1], server), backups[|backups| - 1];
      if last.server == server then front + [last] else front
  }

  method SelectBackups(values: seq<Backup>, server: string) returns (result: seq<Backup>)
    ensures result == BackupsFor(values, server)
  {
    result := [];
    for k := 0 to |values|
      invariant result == BackupsFor(values[..k], server)
    {
      assert values[..k + 1][..k] == values[..k];
      if values[k].server == server {
        result := result + [values[k]];
      }
    }
    assert values[..|values|] == values;
  }

  lemma {:induction false} BackupsForMembers(backups: seq<Backup>, server: string)
    ensures forall b :: b in BackupsFor(backups, server) <==> b in backups && b.server == server
  {
    if backups != [] {
      BackupsForMembers(backups[..|backups| - 1], server);
      assert backups == backups[..|backups| - 1] + [backups[|backups| - 1]];
    }
  }

  function ObjectsFor(objects: seq<HistoryObject>, server: string): seq<HistoryObject> {
    if objects == [] then []
    else
      var front, last := ObjectsFor(objects[..|objects| - 1], server), objects[|objects| - 1];
      if last.server == server then front + [last] else front
  }

  method SelectObjects(values: seq<HistoryObject>, server: string) returns (result: seq<HistoryObject>)
    ensures result == ObjectsFor(values, server)
  {
    result := [];
    for k := 0 to |values|
      invariant result == ObjectsFor(values[..k], server)
    {
      assert values[..k + 1][..k] == values[..k];
      if values[k].server == server {
        result := result + [values[k]];
      }
    }
    assert values[..|values|] == values;
  }

  /**
   * `previousServer` with its fallback, also `walServer`. Without any WAL evidence no backup has usable anchors, so the
   * state is never looked at, and it does not matter that the source sometimes leaves it blank.
   */
  function WalFor(wal: Catalog, server: string): (r: ServerWal)
    ensures r.server == server
  {
    var found := FindServer(wal, server);
    if found.Some? then found.value
    else ServerWal(server, Evidence.Unknown, MissingContext, 0, 0, Counts(0, 0, 0, 0, 0, 0), [], [], [], false, false, 0)
  }

  // ---------------------------------------------------------------- retention

  /** The oldest completion: 0 when there is none, otherwise the least of those that have one. */
  ghost predicate OldestOf(oldest: Time, backups: seq<Backup>) {
    && (oldest == 0 || exists b :: b in backups && b.endAt == oldest)
    && (forall b :: b in backups && b.endAt != 0 ==> oldest != 0 && oldest <= b.endAt)
  }

  ghost predicate NewestOf(newest: Time, backups: seq<Backup>) {
    && (newest == 0 || exists b :: b in backups && b.endAt == newest)
    && (forall b :: b in backups ==> b.endAt <= newest) && newest >= 0
  }

  lemma CompletionsStep(oldest: Time, newest: Time, backups: seq<Backup>, b: Backup)
    requires OldestOf(oldest, backups) && NewestOf(newest, backups)
    ensures OldestOf(if b.endAt != 0 && (oldest == 0 || b.endAt < oldest) then b.endAt else oldest, backups + [b])
    ensures NewestOf(if b.endAt > newest then b.endAt else newest, backups + [b])
  {
    var all := backups + [b];
    assert b in all && forall x :: x in all <==> x in backups || x == b;
    if oldest != 0 {
      var x :| x in backups && x.endAt == oldest;
      assert x in all;
    }
    if newest != 0 {
      var x :| x in backups && x.endAt == newest;
      assert x in all;
    }
  }

  /** An uninterpreted policy is never healthy; otherwise only too few usable backups are a fault. */
  function RetentionState(usable: nat, options: RecoveryOptions): Evidence.State {
    if options.policy != "" then Evidence.Unknown
    else if options.minimum.Some? && usable < options.minimum.value then Evidence.Unhealthy
    else Evidence.Healthy
  }

  ghost predicate Retained(r: Retention, backups: seq<Backup>, options: RecoveryOptions) {
    && r.visible == |backups| && r.usable == CountHealthy(backups)
    && OldestOf(r.oldest, backups) && NewestOf(r.newest, backups)
    && r.minimumConfigured == options.minimum.Some?
    && r.minimum == (if options.minimum.Some? then options.minimum.value else 0)
    && r.policyConfigured == (options.policy != "")
    && r.state == RetentionState(r.usable, options)
  }

  method RetentionSummary(backups: seq<Backup>, options: RecoveryOptions) returns (value: Retention)
    ensures Retained(value, backups, options)
  {
    var usable: nat, oldest, newest := 0, 0, 0;
    for k := 0 to |backups|
      invariant usable == CountHealthy(backups[..k]) && OldestOf(oldest, backups[..k]) && NewestOf(newest, backups[..k])
    {
      hide OldestOf, NewestOf;
      var backup := backups[k];
      assert backups[..k + 1][..k] == backups[..k] && backups[..k + 1] == backups[..k] + [backup];
      CompletionsStep(oldest, newest, backups[..k], backup);
      if backup.state == Evidence.Healthy {
        usable := usable + 1;
      }
      if backup.endAt != 0 && (oldest == 0 || backup.endAt < oldest) {
        oldest := backup.endAt;
      }
      if backup.endAt > newest {
        newest := backup.endAt;
      }
    }
    assert backups[..|backups|] == backups;
    value := Retention(|backups|, usable, oldest, newest, false, 0, options.policy != "", Evidence.Healthy);
    if options.minimum.Some? {
      value := value.(minimumConfigured := true, minimum := options.minimum.value);
      if usable < options.minimum.value {
        value := value.(state := Evidence.Unhealthy);
      }
    }
    if value.policyConfigured {
      value := value.(state := Evidence.Unknown);
    }
  }

  // ---------------------------------------------------------------- one server

  function InputsFor(i: RecoveryInput, server: string): Inputs {
    Inputs(WalFor(i.wal, server), ObjectsFor(i.objects, server), i.read)
  }

  ghost predicate TimelinesJudged(e: Recovery, i: RecoveryInput) {
    var input := InputsFor(i, e.server);
    if i.truncated then e.histories == [] && e.timelines == Evidence.Unknown
    else
      && (exists timelines :: Analyzed(input, timelines, e.histories))
      && e.timelines in [Evidence.Healthy, Evidence.Unknown]
      && (e.timelines == Evidence.Healthy <==> !NothingObserved(input) && AllHealthy(e.histories))
  }

  /** One server's entry: judged histories, all its paths, and the states rolled up from them. */
  ghost predicate RecoveredServer(e: Recovery, i: RecoveryInput) {
    var wal, backups := WalFor(i.wal, e.server), BackupsFor(i.backups, e.server);
    && TimelinesJudged(e, i)
    && (exists known :: Coherent(e.histories, known, wal))
    && AllPaths(e.paths, backups, wal, e.histories)
    && |e.paths| <= RecoveryPaths.MAX_RECOVERY_PATHS + |backups|
    && (DistinctIds(backups) ==> Sorting.StrictlySorted(PathBefore, e.paths))
    && e.coverage == Coverage(e.paths)
    && Retained(e.retention, backups, i.options)
  }

  /** Analyzed histories agree with one forest. */
  lemma AnalyzedCoherent(input: Inputs, timelines: seq<U32>, histories: seq<TimelineHistory>) returns (known: ParentMap)
    requires Analyzed(input, timelines, histories)
    ensures Coherent(histories, known, input.wal) && Forest(known)
  {
    hide RequiresHistory, ObjectTimelines, Sorting.StrictlySorted, Forest;
    JudgedFormForest(input, timelines);
    hide JudgeAll;
    var all := JudgeAll(input, timelines);
    known := all.known;
    forall k | 0 <= k < |histories| ensures Histories.Sound(histories[k], known, input.wal) {
      assert histories[k] in histories;
      if histories[k] in all.histories {
        var j :| 0 <= j < |all.histories| && all.histories[j] == histories[k];
      }
    }
  }

  method AnalyzeServer(server: string, i: RecoveryInput) returns (e: Recovery)
    ensures e.server == server && RecoveredServer(e, i)
  {
    hide Analyzed, NothingObserved, AllHealthy, AllPaths, Retained, Coherent, DistinctIds, Sorting.StrictlySorted,
         Sorting.Sorted, BackupsFor, ObjectsFor;
    var wal := WalFor(i.wal, server);
    var backups := SelectBackups(i.backups, server);
    var objects := SelectObjects(i.objects, server);
    var histories, state, reason;
    ghost var timelines, known := [], map[];
    histories, state, reason, timelines := AnalyzeHistories(Inputs(wal, objects, i.read), i.truncated);
    if !i.truncated {
      known := AnalyzedCoherent(Inputs(wal, objects, i.read), timelines, histories);
    } else {
      NoHistories(known, wal);
    }
    var paths := RecoveryPathsOf(backups, wal, histories, known);
    var coverage := Evidence.Join(paths, PathState);
    var retention := RetentionSummary(backups, i.options);
    e := Recovery(server, state, coverage, histories, paths, retention);
  }

  lemma NoHistories(known: ParentMap, wal: ServerWal)
    ensures Coherent([], known, wal)
  {
  }

  // ---------------------------------------------------------------- every server

  predicate RecoveryBefore(a: Recovery, b: Recovery) {
    Less(a.server, b.server)
  }

  function NamesOf(i: RecoveryInput): set<string> {
    (set k | 0 <= k < |i.wal.servers| :: i.wal.servers[k].server)
    + (set k | 0 <= k < |i.backups| :: i.backups[k].server)
    + (set k | 0 <= k < |i.objects| :: i.objects[k].server)
  }

  /** Exactly one recovered entry per name. */
  ghost predicate RecoveredNames(values: seq<Recovery>, i: RecoveryInput, names: set<string>) {
    && (forall e :: e in values ==> e.server in names && RecoveredServer(e, i))
    && (forall s :: s in names ==> exists e :: e in values && e.server == s)
  }

  ghost predicate Recovered(result: RecoveryCatalog, i: RecoveryInput) {
    RecoveredNames(result.servers, i, NamesOf(i)) && Sorting.StrictlySorted(RecoveryBefore, result.servers)
  }

  lemma RecoveryBeforeIsOrder()
    ensures Sorting.StrictWeakOrder(RecoveryBefore)
  {
    forall a: Recovery, b: Recovery | RecoveryBefore(a, b) ensures !RecoveryBefore(b, a) {
      LessAsymmetric(a.server, b.server);
    }
    forall a: Recovery, b: Recovery, c: Recovery | !RecoveryBefore(b, a) && !RecoveryBefore(c, b) ensures !RecoveryBefore(c, a) {
      NotLessTransitive(a.server, b.server, c.server);
    }
  }

  lemma AddRecovered(values: seq<Recovery>, i: RecoveryInput, names: set<string>, e: Recovery)
    requires RecoveredNames(values, i, names) && Sorting.Comparable(RecoveryBefore, values)
    requires RecoveredServer(e, i) && e.server !in names
    ensures RecoveredNames(values + [e], i, names + {e.server}) && Sorting.Comparable(RecoveryBefore, values + [e])
  {
    hide RecoveredServer;
    forall x, y | x in values && y in [e] ensures RecoveryBefore(x, y) || RecoveryBefore(y, x) {
      LessTotal(x.server, y.server);
    }
    hide RecoveryBefore;
    Sorting.ComparableConcat(RecoveryBefore, values, [e]);
    forall s | s in names ensures exists v :: v in values + [e] && v.server == s {
      var v :| v in values && v.server == s;
      assert v in values + [e];
    }
    assert e in values + [e];
  }

  /** `AnalyzeRecovery`. */
  method AnalyzeRecovery(i: RecoveryInput) returns (result: RecoveryCatalog)
    ensures Recovered(result, i)
  {
    hide RecoveredServer, RecoveryBefore, Sorting.Comparable, Sorting.StrictlySorted, Sorting.Sort, NamesOf;
    var names := NamesOf(i);
    var todo, values := names, [];
    assert Sorting.Comparable(RecoveryBefore, []) by {
      NothingComparable();
    }
    while todo != {}
      invariant todo <= names
      invariant RecoveredNames(values, i, names - todo) && Sorting.Comparable(RecoveryBefore, values)
    {
      hide RecoveredNames;
      var server :| server in todo;
      var e := AnalyzeServer(server, i);
      AddRecovered(values, i, names - todo, e);
      assert names - (todo - {server}) == names - todo + {server};
      values, todo := values + [e], todo - {server};
    }
    assert names - todo == names;
    RecoveryBeforeIsOrder();
    Sorting.SortStrict(RecoveryBefore, values);
    result := RecoveryCatalog(Sorting.Sort(RecoveryBefore, values));
  }

  lemma NothingComparable()
    ensures Sorting.Comparable(RecoveryBefore, [])
  {
  }
}
