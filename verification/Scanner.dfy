// The refresh state machine over a published cache (scanner.go, Refresh and publishFailure).
module Scanner {
  import opened Results
  import opened WalValidation
  import opened WalCatalog
  import opened GapLifecycle
  import opened RecoveryCatalogs
  import opened RecoveryValidation
  import opened Inventory
  import opened InventoryBuilder
  import opened InventoryCompletion
  import opened ScanEvidence
  import opened Scanning
  import opened ScanOutcomes
  import opened EndToEnd
  import opened Publications
  import opened EvidenceEngine
  import opened Sidecar
  import Evidence
  import Sorting

  // ---------------------------------------------------------------- what a failed refresh publishes

  /** Supported capabilities become unknown. */
  function Doubt(list: seq<Capability>): (r: seq<Capability>)
    ensures |r| == |list|
    ensures forall k :: 0 <= k < |r| ==>
              r[k] == if list[k].support == Supported then list[k].(state := Evidence.Unknown) else list[k]
  {
    seq(|list|, k requires 0 <= k < |list| => if list[k].support == Supported then list[k].(state := Evidence.Unknown) else list[k])
  }

  method DoubtAll(list: seq<Capability>) returns (r: seq<Capability>)
    ensures r == Doubt(list)
  {
    r := list;
    for index := 0 to |list|
      invariant |r| == |list|
      invariant forall k :: 0 <= k < index ==> r[k] == Doubt(list)[k]
      invariant forall k :: index <= k < |r| ==> r[k] == list[k]
    {
      if r[index].support == Supported {
        r := r[index := r[index].(state := Evidence.Unknown)];
      }
    }
  }

  function Stale(e: Envelope): Envelope {
    e.(stale := true, state := Evidence.Unknown, capabilities := Doubt(e.capabilities))
  }

  function FailedFirst(d: Descriptor, generation: U64, started: Time): Envelope {
    Initial(d).evidence.(generation := generation, startedAt := started, completeness := Incomplete, stale := true)
  }

  function FailedSnapshot(previous: Snapshot, d: Descriptor, generation: U64, started: Time, now: Time, category: Category): Snapshot {
    (if previous.totalsKnown then previous.(evidence := Stale(previous.evidence))
     else Initial(d).(evidence := FailedFirst(d, generation, started)))
    .(refreshGeneration := generation, lastRefreshAt := now, lastAttemptAt := started, refreshFailure := Some(category))
  }

  /** A failure leaves totals and catalogs alone, and everything it could overstate becomes unknown. */
  lemma FailureNeverOverstates(previous: Snapshot, d: Descriptor, generation: U64, started: Time, now: Time, category: Category)
    requires ValidDescriptor(d) && ValidEnvelope(previous.evidence)
    ensures var f := FailedSnapshot(previous, d, generation, started, now, category);
            && f.evidence.state == Evidence.Unknown && f.evidence.stale && f.totalsKnown == previous.totalsKnown
            && (forall c :: c in f.evidence.capabilities ==> c.state == Evidence.Unknown)
            && (previous.totalsKnown ==>
                  (f.objectCount, f.storedBytes, f.unscoped, f.scopes, f.recent, f.backups, f.wal, f.recovery)
                  == (previous.objectCount, previous.storedBytes, previous.unscoped, previous.scopes, previous.recent,
                      previous.backups, previous.wal, previous.recovery))
            && (!previous.totalsKnown ==> f.evidence.completeness == Incomplete && f.wal == Catalog([]))
  {
    InitialCapabilities(d);
    assert forall k :: 0 <= k < |InitialEnvelope(d).capabilities| ==> InitialEnvelope(d).capabilities[k] in InitialEnvelope(d).capabilities;
    hide InitialEnvelope, ValidText, Rank;
  }

  lemma FailedEnvelopeIsValid(previous: Envelope, d: Descriptor, generation: U64, started: Time)
    requires ValidDescriptor(d) && ValidEnvelope(previous)
    ensures ValidEnvelope(Stale(previous)) && ValidEnvelope(FailedFirst(d, generation, started))
  {
    InitialEnvelopeIsValid(d);
    hide InitialEnvelope, ValidText, Prove;
  }

  /** A failure is published exactly when its category is an accepted one, not `unknown`, and the clock did not run backwards. */
  lemma FailurePublishedIff(previous: Snapshot, d: Descriptor, generation: U64, started: Time, now: Time, category: Category)
    requires ValidDescriptor(d) && ValidSnapshot(previous)
    ensures ValidSnapshot(FailedSnapshot(previous, d, generation, started, now, category)) <==>
            Accepted(category) && TimesAscend(started, now)
  {
    FailedEnvelopeIsValid(previous.evidence, d, generation, started);
    InitialIsValid(d);
    hide Stale, FailedFirst, InitialEnvelope, ValidEnvelope, ValidCatalog, ValidRecovery, ValidScopes, ValidRecents, Prove, ValidDescriptor;
  }

  // ---------------------------------------------------------------- every run

  const GENERATIONS := 0x1_0000_0000_0000_0000

  /** The j-th recorded scan is the one this snapshot was published from, and its listing proves the snapshot. */
  ghost predicate ProvenBy(s: Snapshot, scans: seq<CompleteScan>, j: int) {
    && 0 <= j < |scans| && scans[j].generation == s.refreshGeneration && scans[j].backups == s.backups && scans[j].wal == s.wal
    && SnapshotProven(s, scans[j].listing)
  }

  /** A snapshot that claims to be healthy has the listing of its own scan to show for it. */
  ghost predicate BorneOut(s: Snapshot, scans: seq<CompleteScan>) {
    s.evidence.state == Evidence.Healthy ==> exists j :: ProvenBy(s, scans, j)
  }

  lemma StillBorneOut(s: Snapshot, scans: seq<CompleteScan>, scans': seq<CompleteScan>)
    requires BorneOut(s, scans) && scans <= scans'
    ensures BorneOut(s, scans')
  {
    hide SnapshotProven;
    if s.evidence.state == Evidence.Healthy {
      var j :| ProvenBy(s, scans, j);
      assert ProvenBy(s, scans', j);
    }
  }

  /** What holds of everything published so far, the complete scans among it, and the number of attempts. */
  ghost predicate Truthful(published: seq<Snapshot>, scans: seq<CompleteScan>, attempts: nat, st: Settings) {
    && published != [] && published[0] == Initial(st.descriptor)
    && (forall k :: 0 <= k < |published| ==>
          ValidSnapshot(published[k]) && published[k].refreshGeneration <= attempts && BorneOut(published[k], scans))
    && (forall i, j :: 0 <= i < j < |published| ==> published[i].refreshGeneration < published[j].refreshGeneration)
    && (forall i, j :: 0 <= i < j < |published| ==> published[i].totalsKnown ==> published[j].totalsKnown)
    && Remembers(published[|published| - 1], scans, attempts, st.analyze)
  }

  /** The current snapshot holds the WAL evidence of the last complete scan that was published. */
  ghost predicate Remembers(current: Snapshot, scans: seq<CompleteScan>, attempts: nat, analyze: bool) {
    && Chain(scans) && current.wal == LastWal(scans)
    && (scans != [] ==> analyze && current.totalsKnown && scans[|scans| - 1].generation <= attempts)
  }

  lemma FirstIsTruthful(st: Settings)
    requires ValidDescriptor(st.descriptor)
    ensures Truthful([Initial(st.descriptor)], [], 0, st)
  {
    InitialIsValid(st.descriptor);
    hide ValidSnapshot, Prove, SnapshotProven, Sorting.Sort;
  }

  lemma MoreAttempts(published: seq<Snapshot>, scans: seq<CompleteScan>, attempts: nat, st: Settings)
    requires Truthful(published, scans, attempts, st)
    ensures Truthful(published, scans, attempts + 1, st)
  {
    hide ValidSnapshot, Chain, Initial, BorneOut;
  }

  /** One more snapshot in a fresh generation, with totals if there were totals before. */
  lemma PublishMore(published: seq<Snapshot>, scans: seq<CompleteScan>, scans': seq<CompleteScan>, attempts: nat, st: Settings,
                    next: Snapshot)
    requires Truthful(published, scans, attempts, st)
    requires ValidSnapshot(next) && next.refreshGeneration == attempts + 1 && BorneOut(next, scans') && scans <= scans'
    requires published[|published| - 1].totalsKnown ==> next.totalsKnown
    requires Remembers(next, scans', attempts + 1, st.analyze)
    ensures Truthful(published + [next], scans', attempts + 1, st)
  {
    hide ValidSnapshot, Initial, Remembers, BorneOut;
    var all := published + [next];
    var n := |published|;
    forall k | 0 <= k < n ensures BorneOut(published[k], scans') {
      StillBorneOut(published[k], scans, scans');
    }
    forall i, j | 0 <= i < j < |all| ensures all[i].refreshGeneration < all[j].refreshGeneration && (all[i].totalsKnown ==> all[j].totalsKnown) {
      assert i < n - 1 ==> published[i].totalsKnown ==> published[n - 1].totalsKnown;
    }
  }

  lemma ScanExtendsChain(current: Snapshot, scans: seq<CompleteScan>, attempts: nat, next: Snapshot, scan: CompleteScan)
    requires Remembers(current, scans, attempts, true) && next.totalsKnown && next.wal == scan.wal && scan.generation == attempts + 1
    requires Finished(scan.wal, scan.listing, scan.backups, current.wal, scan.generation)
    ensures Remembers(next, scans + [scan], attempts + 1, true)
  {
    hide Finished, Chain;
    ChainGrows(scans, scan);
  }

  /**
   * In every run, a cached gap is confirmed exactly when the previous published complete scan held it, and its
   * generations delimit the unbroken run: failed, refused and cancelled refreshes neither confirm nor clear it.
   */
  lemma CachedGapsFaithful(published: seq<Snapshot>, scans: seq<CompleteScan>, attempts: nat, st: Settings, server: string, k: nat)
    requires Truthful(published, scans, attempts, st)
    requires k < |PreviousGaps(published[|published| - 1].wal, server)|
    ensures scans != [] && Faithful(scans, server, PreviousGaps(published[|published| - 1].wal, server)[k])
  {
    hide ValidSnapshot, Initial, Chain, PreviousGaps, Faithful;
    if scans == [] {
      NothingBefore(server);
    } else {
      GapsAreFaithful(scans, server, k);
    }
  }

  /** And every gap the next scan inherits was first seen in an earlier generation, as validation demands. */
  lemma InheritedGapsAreOlder(published: seq<Snapshot>, scans: seq<CompleteScan>, attempts: nat, st: Settings, server: string)
    requires Truthful(published, scans, attempts, st) && attempts + 1 < GENERATIONS
    ensures ObservedBefore(PreviousGaps(published[|published| - 1].wal, server), attempts + 1)
  {
    hide ValidSnapshot, Initial, Chain, PreviousGaps, ObservedBefore;
    ChainObservedBefore(scans, server, attempts + 1);
  }

  /** What a refresh tries to publish: its snapshot, its failure, or after a cancellation nothing. */
  ghost function Proposal(current: Snapshot, outcome: Result<Snapshot, Failure>, env: Environment, d: Descriptor, generation: U64)
    : Option<Snapshot>
  {
    match outcome
    case Ok(s) => Some(s)
    case Err(ContextCanceled) => None
    case Err(Fault(c)) => Some(FailedSnapshot(current, d, generation, env.started, env.failedAt, c))
  }

  /** The chain of complete scans grows when an evaluated snapshot is published. */
  ghost function ScansAfter(scans: seq<CompleteScan>, s: Snapshot, st: Settings, env: Environment): seq<CompleteScan> {
    if s.refreshFailure.None? && st.analyze
    then scans + [CompleteScan(s.refreshGeneration, AcceptedListing(env, st), s.backups, s.wal)]
    else scans
  }

  /** One refresh keeps everything published truthful. */
  lemma ProposalRemembers(current: Snapshot, scans: seq<CompleteScan>, attempts: nat, next: Snapshot,
                           outcome: Result<Snapshot, Failure>, st: Settings, env: Environment)
    requires Remembers(current, scans, attempts, st.analyze) && attempts + 1 < GENERATIONS
    requires ScanOutcome(outcome, env, st, current.wal, attempts + 1)
    requires Proposal(current, outcome, env, st.descriptor, attempts + 1) == Some(next)
    ensures next.refreshGeneration == attempts + 1 && (current.totalsKnown ==> next.totalsKnown)
    ensures BorneOut(next, ScansAfter(scans, next, st, env)) && scans <= ScansAfter(scans, next, st, env)
    ensures Remembers(next, ScansAfter(scans, next, st, env), attempts + 1, st.analyze)
  {
    hide Walk, FailedSnapshot, Finished, Chain, Remembers, BorneOut;
    if outcome.Ok? {
      CompleteRemembers(current, scans, attempts, next, st, env);
    } else {
      FailureRemembers(current, scans, attempts, next, st, env, outcome.error.category);
    }
  }

  lemma CompleteRemembers(current: Snapshot, scans: seq<CompleteScan>, attempts: nat, next: Snapshot, st: Settings, env: Environment)
    requires Remembers(current, scans, attempts, st.analyze) && attempts + 1 < GENERATIONS
    requires ScanOutcome(Ok(next), env, st, current.wal, attempts + 1)
    ensures next.totalsKnown && next.refreshGeneration == attempts + 1 && BorneOut(next, ScansAfter(scans, next, st, env))
    ensures Remembers(next, ScansAfter(scans, next, st, env), attempts + 1, st.analyze)
  {
    hide Walk, Finished, Recovered, Concluded, CompleteEnvelope, ScopeList, Countable, Chain, SnapshotProven;
    CompletedIsWellFounded(next, env, st, st.matcher.value, WalkOf(env, st).value, current.wal, attempts + 1);
    if st.analyze {
      ScanExtendsChain(current, scans, attempts, next,
                       CompleteScan(attempts + 1, AcceptedListing(env, st), next.backups, next.wal));
      if next.evidence.state == Evidence.Healthy {
        assert ProvenBy(next, ScansAfter(scans, next, st, env), |scans|);
      }
    }
  }

  lemma FailureRemembers(current: Snapshot, scans: seq<CompleteScan>, attempts: nat, next: Snapshot, st: Settings, env: Environment,
                         category: Category)
    requires Remembers(current, scans, attempts, st.analyze) && attempts + 1 < GENERATIONS
    requires next == FailedSnapshot(current, st.descriptor, attempts + 1, env.started, env.failedAt, category)
    ensures next.refreshGeneration == attempts + 1 && (current.totalsKnown ==> next.totalsKnown)
    ensures Remembers(next, scans, attempts + 1, st.analyze)
    ensures next.refreshFailure.Some? && BorneOut(next, scans)
  {
    hide Chain, Prove, SnapshotProven;
  }

  datatype RefreshError = InvalidSnapshot | ScanFailed(failure: Failure)

  /** The scanner, over the cache alone or, in the sidecar, over the publishing cache in front of it. */
  class RefreshScanner {
    const settings: Settings
    const cache: Cache
    const front: EvidencePublishingCache?
    var generation: U64
    ghost var attempts: nat
    ghost var published: seq<Snapshot>       // every snapshot that was ever current
    ghost var scans: seq<CompleteScan>       // the complete scans among them

    ghost function Owned(): set<object> {
      if front == null then {cache} else {cache, front, front.engine}
    }

    ghost predicate Coupled()
      reads Owned()
    {
      cache.Valid() && (front != null ==> front.cache == cache && front.Coherent())
    }

    ghost predicate Valid()
      reads this, Owned()
    {
      && ValidSettings(settings) && Coupled()
      && published != [] && published[|published| - 1] == cache.current
      && (front != null ==> front.published == published)
      && generation == attempts % GENERATIONS
      && (attempts < GENERATIONS ==> Truthful(published, scans, attempts, settings))
    }

    lemma CacheIsValid()
      requires Coupled()
      ensures cache.Valid()
    {
      hide ValidSnapshot, EvidencePublishingCache.Coherent;
    }

    /** Whether a snapshot would be published: by the engine, where there is one, otherwise by the cache. */
    ghost predicate Takes(s: Snapshot)
      reads Owned()
    {
      if front == null then ValidSnapshot(s) else Admits(front.engine.current, s, front.engine.options)
    }

    constructor (settings: Settings, cache: Cache, front: EvidencePublishingCache?)
      requires ValidSettings(settings) && cache.current == Initial(settings.descriptor)
      requires front != null ==> front.cache == cache && front.Coherent() && front.published == [cache.current]
      ensures Valid() && this.settings == settings && this.cache == cache && this.front == front
      ensures published == [cache.current] && attempts == 0
    {
      hide ValidDescriptor, Truthful, ValidSnapshot, Initial, Mirrors, Log;
      FirstIsTruthful(settings);
      InitialIsValid(settings.descriptor);
      this.settings, this.cache, this.front := settings, cache, front;
      generation, attempts, published, scans := 0, 0, [cache.current], [];
    }

    method Publish(s: Snapshot) returns (done: bool)
      requires Coupled()
      modifies Owned()
      ensures Coupled() && cache.Valid() && (done <==> old(Takes(s)))
      ensures cache.current == if done then s else old(cache.current)
      ensures front != null ==> front.published == if done then old(front.published) + [s] else old(front.published)
    {
      hide ValidSnapshot, Mirrors, Log, Project, Admits;
      if front == null {
        done := cache.Publish(s);
      } else {
        done := front.Publish(s);
      }
    }

    /** `publishFailure`; whether it was accepted is ignored. */
    method PublishFailure(env: Environment, category: Category)
      requires Coupled()
      modifies Owned()
      ensures Coupled() && cache.Valid()
      ensures var f := FailedSnapshot(old(cache.current), settings.descriptor, generation, env.started, env.failedAt, category);
              && cache.current == (if old(Takes(f)) then f else old(cache.current))
              && (front != null ==> front.published == if old(Takes(f)) then old(front.published) + [f] else old(front.published))
    {
      hide ValidSnapshot, InitialEnvelope, Prove, Coupled, Takes;
      var previous := cache.Load();
      var failed;
      if previous.totalsKnown {
        var capabilities := DoubtAll(previous.evidence.capabilities);
        failed := previous.(refreshGeneration := generation, lastRefreshAt := env.failedAt, lastAttemptAt := env.started,
                            refreshFailure := Some(category),
                            evidence := previous.evidence.(stale := true, state := Evidence.Unknown, capabilities := capabilities));
      } else {
        failed := Initial(settings.descriptor);
        failed := failed.(refreshGeneration := generation, lastRefreshAt := env.failedAt, lastAttemptAt := env.started,
                          refreshFailure := Some(category),
                          evidence := failed.evidence.(generation := generation, startedAt := env.started,
                                                       completeness := Incomplete, stale := true));
      }
      var accepted := Publish(failed);
    }

    /** The body of `Refresh`: whatever the scan yields is offered for publication. */
    method Attempt(env: Environment) returns (error: Option<RefreshError>, ghost outcome: Result<Snapshot, Failure>)
      requires ValidSettings(settings) && Coupled()
      modifies Owned()
      ensures var next := Proposal(old(cache.current), outcome, env, settings.descriptor, generation);
              var taken := next.Some? && old(Takes(next.value));
              && cache.current == (if taken then next.value else old(cache.current))
              && error == (if outcome.Err? then Some(ScanFailed(outcome.error)) else if taken then None else Some(InvalidSnapshot))
              && (front != null ==> front.published == if taken then old(front.published) + [next.value] else old(front.published))
      ensures Coupled() && cache.Valid()
      ensures ScanOutcome(outcome, env, settings, old(cache.current.wal), generation)
    {
      hide ValidSnapshot, ValidSettings, ScanOutcome, Initial, FailedSnapshot, Coupled, Takes;
      CacheIsValid();
      var previous := cache.Load();
      var r := Scan(env, settings, previous.wal, generation);
      outcome := r;
      if r.Ok? {
        var accepted := Publish(r.value);
        return if accepted then None else Some(InvalidSnapshot), outcome;
      }
      error := Some(ScanFailed(r.error));
      if r.error.ContextCanceled? {
        return;
      }
      PublishFailure(env, Categorize(r.error));
    }

    /**
     * `Refresh`, under its mutex: a successful scan is published if it is accepted, a failed one publishes its doubts if
     * they are, and a cancelled one publishes nothing.
     */
    method Refresh(env: Environment) returns (error: Option<RefreshError>, ghost outcome: Result<Snapshot, Failure>)
      requires Valid()
      modifies this, Owned()
      ensures attempts == old(attempts) + 1 && generation == (old(generation) + 1) % GENERATIONS
      ensures var next := Proposal(old(cache.current), outcome, env, settings.descriptor, generation);
              var taken := next.Some? && old(Takes(next.value));
              && cache.current == (if taken then next.value else old(cache.current))
              && error == (if outcome.Err? then Some(ScanFailed(outcome.error)) else if taken then None else Some(InvalidSnapshot))
              && published == (if taken then old(published) + [next.value] else old(published))
              && scans == (if taken then ScansAfter(old(scans), next.value, settings, env) else old(scans))
      ensures ScanOutcome(outcome, env, settings, old(cache.current.wal), generation)
      ensures Valid()
    {
      hide ValidSnapshot, Truthful, ValidSettings, ScanOutcome, Proposal, Takes, Initial, Remembers, Coupled;
      ghost var before := cache.current;
      attempts := attempts + 1;
      generation := (generation + 1) % GENERATIONS;
      error, outcome := Attempt(env);
      ghost var next := Proposal(before, outcome, env, settings.descriptor, generation);
      ghost var taken := next.Some? && old(Takes(next.value));
      if attempts < GENERATIONS {
        RunContinues(published, scans, attempts - 1, before, outcome, settings, env, taken);
      }
      if taken {
        published := published + [next.value];
        scans := ScansAfter(scans, next.value, settings, env);
      }
    }
  }

  /** One more attempt in a run, and what its scan came to. */
  ghost predicate Attempted(published: seq<Snapshot>, scans: seq<CompleteScan>, attempts: nat, current: Snapshot,
                            outcome: Result<Snapshot, Failure>, st: Settings, env: Environment)
  {
    && attempts + 1 < GENERATIONS && Truthful(published, scans, attempts, st) && current == published[|published| - 1]
    && ScanOutcome(outcome, env, st, current.wal, attempts + 1)
  }

  lemma RunContinues(published: seq<Snapshot>, scans: seq<CompleteScan>, attempts: nat, current: Snapshot,
                     outcome: Result<Snapshot, Failure>, st: Settings, env: Environment, taken: bool)
    requires Attempted(published, scans, attempts, current, outcome, st, env)
    requires taken ==> var next := Proposal(current, outcome, env, st.descriptor, attempts + 1); next.Some? && ValidSnapshot(next.value)
    ensures var next := Proposal(current, outcome, env, st.descriptor, attempts + 1);
            if taken
            then Truthful(published + [next.value], ScansAfter(scans, next.value, st, env), attempts + 1, st)
            else Truthful(published, scans, attempts + 1, st)
  {
    hide Initial, ValidSnapshot, ScanOutcome, Proposal, Remembers, BorneOut, ScansAfter;
    var next := Proposal(current, outcome, env, st.descriptor, attempts + 1);
    if taken {
      ProposalRemembers(current, scans, attempts, next.value, outcome, st, env);
      PublishMore(published, scans, ScansAfter(scans, next.value, st, env), attempts, st, next.value);
    } else {
      MoreAttempts(published, scans, attempts, st);
    }
  }
}
