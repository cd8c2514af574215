// A failed refresh always reaches the public API (scanner.go, publishFailure, with projection.go).
module ServedFailures {
  import opened Results
  import opened Inventory
  import opened EvidenceContract
  import opened Publications
  import opened RecoveryCatalogs
  import opened Scanner
  import opened Sidecar
  import Evidence
  import Sorting

  // ---------------------------------------------------------------- doubted capabilities

  lemma {:induction false} InsertDoubt(list: seq<Capability>, c: Capability, d: Capability)
    requires Doubt([c]) == [d]
    ensures Sorting.Insert(CapabilityBefore, Doubt(list), d) == Doubt(Sorting.Insert(CapabilityBefore, list, c))
  {
    assert Doubt([c])[0] == d;
    if list != [] {
      assert Doubt(list)[1..] == Doubt(list[1..]);
      if !CapabilityBefore(c, list[0]) {
        InsertDoubt(list[1..], c, d);
        var rest := Sorting.Insert(CapabilityBefore, list[1..], c);
        assert Doubt([list[0]] + rest) == [Doubt(list)[0]] + Doubt(rest);
      } else {
        assert Doubt([c] + list) == [d] + Doubt(list);
      }
    }
  }

  /** Doubting changes no identifier, so it does not matter whether it comes before or after sorting. */
  lemma {:induction false} SortDoubt(list: seq<Capability>)
    ensures Sorting.Sort(CapabilityBefore, Doubt(list)) == Doubt(Sorting.Sort(CapabilityBefore, list))
  {
    if list != [] {
      var n := |list| - 1;
      SortDoubt(list[..n]);
      assert Doubt(list)[..n] == Doubt(list[..n]);
      assert Doubt([list[n]]) == [Doubt(list)[n]];
      InsertDoubt(Sorting.Sort(CapabilityBefore, list[..n]), list[n], Doubt(list)[n]);
    }
  }

  lemma DoubtedAreComplete(list: seq<Capability>)
    requires CompleteCapabilities(list)
    ensures CompleteCapabilities(Doubt(list)) && forall k :: 0 <= k < |Doubt(list)| ==> Doubt(list)[k].state == Evidence.Unknown
  {
  }

  // ---------------------------------------------------------------- a failure after a complete scan

  predicate Counted(s: Snapshot) {
    s.objectCount >= 0 && s.storedBytes >= 0 && s.unscoped >= 0
  }

  /** The later revision, stale, in doubt and with its reason. */
  predicate StaleAt(p: PublicSnapshot, revision: U64, category: Category) {
    && p.revision == revision && p.stale && p.state == Evidence.Unknown && p.failure == Some(category)
    && forall k :: 0 <= k < |p.capabilities| ==> p.capabilities[k].state == Evidence.Unknown
  }

  /** The same public snapshot in doubt. */
  function Doubted(p: PublicSnapshot, revision: U64, started: Time, category: Category): PublicSnapshot {
    p.(revision := revision, lastAttemptAt := NonZero(started), stale := true, state := Evidence.Unknown,
       capabilities := Doubt(p.capabilities), failure := Some(category))
  }

  lemma DoubtedIsValid(p: PublicSnapshot, revision: U64, started: Time, category: Category)
    requires ValidPublicSnapshot(p) && Accepted(category) && p.revision <= revision
    ensures ValidPublicSnapshot(Doubted(p, revision, started, category)) && StaleAt(Doubted(p, revision, started, category), revision, category)
  {
    DoubtedAreComplete(p.capabilities);
    hide Doubt, CompleteCapabilities, ValidDetails;
  }

  lemma DoubtedSnapshot(previous: Snapshot, f: Snapshot, d: Descriptor, generation: U64, started: Time, now: Time, category: Category,
                        server: string, counts: Option<GenerationCounts>)
    requires previous.totalsKnown && Counted(previous)
    requires f == FailedSnapshot(previous, d, generation, started, now, category)
    ensures Counted(f) && SnapshotOf(f, server, counts) == Doubted(SnapshotOf(previous, server, counts), generation, started, category)
  {
    SortDoubt(previous.evidence.capabilities);
    hide Doubt, Sorting.Sort, WalFor, RecoveryOf, RetentionDetails;
  }

  lemma SwappedSnapshot(p: Publication, q: PublicSnapshot)
    requires ValidPublication(p) && ValidPublicSnapshot(q)
    requires q.completeness == p.snapshot.completeness && q.details == p.snapshot.details
    ensures ValidPublication(p.(snapshot := q))
  {
    hide ValidPublicBackup, ValidPublicRange, ValidPublicGap, ValidPublicPath, Publications.Ordered, ValidPublicSnapshot;
  }

  lemma PublishedSnapshot(p: Publication)
    requires ValidPublication(p)
    ensures ValidPublicSnapshot(p.snapshot)
  {
    hide ValidPublicBackup, ValidPublicRange, ValidPublicGap, ValidPublicPath, Publications.Ordered, ValidPublicSnapshot;
  }

  lemma FailureAfterTotals(previous: Snapshot, f: Snapshot, d: Descriptor, generation: U64, started: Time, now: Time, category: Category,
                           server: string)
    requires previous.totalsKnown && Counted(previous) && ValidPublication(Assembled(previous, server))
    requires f == FailedSnapshot(previous, d, generation, started, now, category)
    requires Accepted(category) && previous.refreshGeneration <= generation
    ensures Counted(f) && ValidPublication(Assembled(f, server)) && StaleAt(Assembled(f, server).snapshot, generation, category)
  {
    hide FailedSnapshot, SnapshotOf, BackupItems, RangeItems, GapItems, PathItems, Sorting.Sort, ValidPublication, ValidPublicSnapshot,
         CountsOf, CountState, WalFor, RecoveryOf, StaleAt, Doubt;
    var p := Assembled(previous, server);
    var counts := GenerationOf(previous, p.backups, p.ranges, p.gaps, p.paths);
    DoubtedSnapshot(previous, f, d, generation, started, now, category, server, counts);
    SameTotals(previous, f, d, generation, started, now, category);
    RevisionOf(previous, server, counts);
    PublishedSnapshot(p);
    DoubtedIsValid(p.snapshot, generation, started, category);
    SwappedSnapshot(p, Doubted(p.snapshot, generation, started, category));
    assert Assembled(f, server) == p.(snapshot := Doubted(p.snapshot, generation, started, category));
  }

  lemma RevisionOf(s: Snapshot, server: string, counts: Option<GenerationCounts>)
    requires Counted(s)
    ensures SnapshotOf(s, server, counts).revision == s.refreshGeneration
  {
    hide DetailsOf, Sorting.Sort;
  }

  lemma SameTotals(previous: Snapshot, f: Snapshot, d: Descriptor, generation: U64, started: Time, now: Time, category: Category)
    requires previous.totalsKnown && f == FailedSnapshot(previous, d, generation, started, now, category)
    ensures (f.totalsKnown, f.backups, f.wal, f.recovery, f.scopes) == (true, previous.backups, previous.wal, previous.recovery, previous.scopes)
    ensures f.evidence.format == previous.evidence.format && f.evidence.scopeKind == previous.evidence.scopeKind
  {
    hide Doubt;
  }

  // ---------------------------------------------------------------- a failure before the first complete scan

  /** A first failure projects like the initial snapshot, apart from the attempt it reports. */
  function FirstFailure(p: PublicSnapshot, revision: U64, started: Time, category: Category): PublicSnapshot {
    p.(revision := revision, lastAttemptAt := NonZero(started), completeness := Incomplete, stale := true, failure := Some(category))
  }

  lemma FirstFailureSnapshot(previous: Snapshot, f: Snapshot, d: Descriptor, generation: U64, started: Time, now: Time, category: Category,
                             server: string)
    requires !previous.totalsKnown && f == FailedSnapshot(previous, d, generation, started, now, category)
    ensures Counted(f) && !f.totalsKnown && f.backups == [] && f.wal.servers == [] && f.recovery.servers == []
    ensures f.evidence.format == Initial(d).evidence.format && f.evidence.scopeKind == Initial(d).evidence.scopeKind
    ensures SnapshotOf(f, server, None) == FirstFailure(SnapshotOf(Initial(d), server, None), generation, started, category)
  {
    hide InitialEnvelope, Prove, Sorting.Sort, WalFor, RecoveryOf, RetentionDetails;
  }

  lemma InitialIsInDoubt(d: Descriptor, server: string)
    requires ValidDescriptor(d)
    ensures forall k :: 0 <= k < |SnapshotOf(Initial(d), server, None).capabilities| ==>
              SnapshotOf(Initial(d), server, None).capabilities[k].state == Evidence.Unknown
  {
    InitialCapabilities(d);
    var list := Initial(d).evidence.capabilities;
    forall c | c in list ensures c.state == Evidence.Unknown {
      var k :| 0 <= k < |list| && list[k] == c;
      assert InitialEnvelope(d).capabilities[k] in InitialEnvelope(d).capabilities;
    }
    CapabilityBeforeIsOrder();
    Sorting.SortCorrect(CapabilityBefore, list);
    hide InitialEnvelope, Prove, Sorting.Sort, WalFor, RecoveryOf, RetentionDetails;
    Sorting.SameMembers(Sorting.Sort(CapabilityBefore, list), list);
    var sorted := SnapshotOf(Initial(d), server, None).capabilities;
    forall k | 0 <= k < |sorted| ensures sorted[k].state == Evidence.Unknown {
      assert sorted[k] in sorted;
    }
  }

  lemma FirstFailureIsValid(p: PublicSnapshot, revision: U64, started: Time, category: Category)
    requires ValidPublicSnapshot(p) && Accepted(category) && p.generation == 0 && p.details.counts.None?
    requires forall k :: 0 <= k < |p.capabilities| ==> p.capabilities[k].state == Evidence.Unknown
    ensures ValidPublicSnapshot(FirstFailure(p, revision, started, category))
    ensures StaleAt(FirstFailure(p, revision, started, category), revision, category)
  {
    hide CompleteCapabilities, ValidRetentionDetails;
  }

  /** Without totals nothing but the snapshot is published. */
  lemma BarePublication(s: Snapshot, server: string)
    requires Counted(s) && !s.totalsKnown && s.backups == [] && s.wal.servers == [] && s.recovery.servers == []
    ensures Assembled(s, server) == Publication(SnapshotOf(s, server, None), [], [], [], [])
  {
    hide SnapshotOf;
  }

  lemma BareIsValid(p: PublicSnapshot)
    requires p.completeness != Complete
    ensures ValidPublication(Publication(p, [], [], [], [])) <==> ValidPublicSnapshot(p)
  {
    hide ValidPublicSnapshot;
  }

  lemma InitialIsBare(d: Descriptor, server: string)
    ensures var s := Initial(d);
            && Counted(s) && !s.totalsKnown && s.backups == [] && s.wal.servers == [] && s.recovery.servers == []
            && SnapshotOf(s, server, None).completeness == Unscanned && SnapshotOf(s, server, None).generation == 0
            && SnapshotOf(s, server, None).details.counts.None?
  {
    hide InitialEnvelope, Sorting.Sort, WalFor, RecoveryOf, RetentionDetails;
    assert InitialEnvelope(d).completeness == Unscanned by {
      InitialIsUnscanned(d);
    }
  }

  lemma InitialIsUnscanned(d: Descriptor)
    ensures InitialEnvelope(d).completeness == Unscanned
  {
    hide Sorting.Sort;
  }

  lemma FailureBeforeTotals(previous: Snapshot, f: Snapshot, d: Descriptor, generation: U64, started: Time, now: Time, category: Category,
                            server: string)
    requires !previous.totalsKnown && f == FailedSnapshot(previous, d, generation, started, now, category)
    requires ValidDescriptor(d) && Accepted(category) && ValidPublication(Assembled(Initial(d), server))
    ensures Counted(f) && ValidPublication(Assembled(f, server)) && StaleAt(Assembled(f, server).snapshot, generation, category)
  {
    FirstFailureSnapshot(previous, f, d, generation, started, now, category, server);
    InitialIsBare(d, server);
    InitialIsInDoubt(d, server);
    BarePublication(Initial(d), server);
    BarePublication(f, server);
    hide FailedSnapshot, SnapshotOf, Assembled, ValidPublication, ValidPublicSnapshot, StaleAt, ValidDescriptor, Initial;
    var p := SnapshotOf(Initial(d), server, None);
    BareIsValid(p);
    FirstFailureIsValid(p, generation, started, category);
    BareIsValid(FirstFailure(p, generation, started, category));
  }

  // ---------------------------------------------------------------- both

  lemma ProjectedParts(s: Snapshot, o: ProjectOptions)
    requires Project(s, o).Some?
    ensures ValidSnapshot(s) && Counted(s) && ValidOptions(o) && o.format == s.evidence.format && s.evidence.scopeKind == "server"
    ensures Confined(s, o.server) && ValidPublication(Assembled(s, o.server)) && Project(s, o).value == Assembled(s, o.server)
  {
    ValidCounters(s);
    hide ValidSnapshot, Confined, Assembled, ValidPublication;
  }

  lemma FailureIsConfined(previous: Snapshot, f: Snapshot, d: Descriptor, generation: U64, started: Time, now: Time, category: Category,
                          server: string)
    requires f == FailedSnapshot(previous, d, generation, started, now, category) && Confined(previous, server)
    ensures Confined(f, server)
  {
    if previous.totalsKnown {
      SameTotals(previous, f, d, generation, started, now, category);
    } else {
      FirstFailureSnapshot(previous, f, d, generation, started, now, category, server);
    }
    hide FailedSnapshot;
  }

  /**
   * Once a snapshot is served, a failure replaces it exactly when the inventory itself accepts the failure: the engine then
   * takes it as a later revision, stale and unknown throughout. So nothing healthy goes on being served after that.
   */
  lemma FailureIsServed(current: Snapshot, d: Descriptor, generation: U64, started: Time, now: Time, category: Category, o: ProjectOptions)
    requires ValidDescriptor(d) && Project(Initial(d), o).Some? && Project(current, o).Some?
    requires current.refreshGeneration < generation
    ensures var f := FailedSnapshot(current, d, generation, started, now, category);
            && (Admits(Project(current, o), f, o) <==> Accepted(category) && TimesAscend(started, now))
            && (Admits(Project(current, o), f, o) ==> StaleAt(Project(f, o).value.snapshot, generation, category))
  {
    hide FailedSnapshot, Initial, ValidSnapshot, ValidDescriptor, Confined, Assembled, ValidPublication, StaleAt;
    var f := FailedSnapshot(current, d, generation, started, now, category);
    ProjectedParts(current, o);
    ProjectedParts(Initial(d), o);
    FailurePublishedIff(current, d, generation, started, now, category);
    if !Accepted(category) || !TimesAscend(started, now) {
      assert Project(f, o).None?;
      return;
    }
    FailureIsConfined(current, f, d, generation, started, now, category, o.server);
    if current.totalsKnown {
      SameTotals(current, f, d, generation, started, now, category);
      FailureAfterTotals(current, f, d, generation, started, now, category, o.server);
    } else {
      FirstFailureSnapshot(current, f, d, generation, started, now, category, o.server);
      FailureBeforeTotals(current, f, d, generation, started, now, category, o.server);
    }
    StaleRevision(Assembled(f, o.server).snapshot, generation, category);
    AssembledRevision(current, o.server);
  }

  lemma StaleRevision(p: PublicSnapshot, revision: U64, category: Category)
    requires StaleAt(p, revision, category)
    ensures p.revision == revision
  {
  }

  lemma AssembledRevision(s: Snapshot, server: string)
    requires Counted(s)
    ensures Assembled(s, server).snapshot.revision == s.refreshGeneration
  {
    hide DetailsOf, Sorting.Sort, BackupItems, RangeItems, GapItems, PathItems;
  }
}
