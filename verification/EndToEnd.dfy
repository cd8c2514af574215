// From provider listing to published state: what a healthy snapshot means (scanner.go, wal.go and recovery.go together).
module EndToEnd {
  import opened Results
  import opened Store
  import opened WalNames
  import opened WalClassify
  import opened WalCollector
  import opened WalRanges
  import opened WalGaps
  import opened WalCatalog
  import opened WalEvidence
  import opened WalValidation
  import opened RangeWalk
  import opened Ancestries
  import opened Histories
  import opened PathCoverage
  import opened SwitchCoverage
  import opened RecoveryPaths
  import opened ServerRecovery
  import opened RecoveryCatalogs
  import opened Inventory
  import opened InventoryBuilder
  import opened InventoryCompletion
  import opened ScanEvidence
  import opened Scanning
  import opened ScanOutcomes
  import opened Backups
  import opened BackupCatalogs
  import opened BarmanFormat
  import Evidence

  // ---------------------------------------------------------------- WAL

  /**
   * The listing of a server leaves no doubt: no duplicate, unrecognized, misplaced or out-of-order WAL object, nothing
   * truncated, and on every timeline one unbroken interval of segments, which is exactly what is reported as observed.
   */
  ghost predicate ServerProven(w: ServerWal, listing: seq<Object>, backups: seq<Backup>) {
    var objects, context := OfServer(listing, w.server), ContextOf(backups, w.server);
    && context.Known? && CleanListing(objects, context.size) && !Run(SegmentsIn(objects)).truncated
    && Contiguous(SegmentsIn(objects), context.size)
    && forall t, p :: Observed(w.ranges, t, p) <==> At(SegmentsIn(objects), context.size, t, p)
  }

  lemma HealthyServer(w: ServerWal, listing: seq<Object>, backups: seq<Backup>, previous: Catalog, generation: U64)
    requires w == FinishedServer(listing, backups, previous, generation, w.server) && w.state == Evidence.Healthy
    ensures ServerProven(w, listing, backups)
  {
    var server := w.server;
    var objects, context := OfServer(listing, server), ContextOf(backups, server);
    ListedWellKinded(listing, server);
    KnownContextIsValid(backups, server);
    ServerHealthyIff(server, objects, context, PreviousGaps(previous, server), generation);
    hide CleanListing, Contiguous, Merged, GapsOf, VerdictOf, OfServer, ContextOf, PreviousGaps, AnyMisplaced, SegmentsIn, At, Observed,
         Run, Findings, WellKinded, ValidSegmentSize;
    HealthyRanges(objects, context.size);
  }

  lemma KnownContextIsValid(backups: seq<Backup>, server: string)
    ensures ContextOf(backups, server).Known? ==> ValidSegmentSize(ContextOf(backups, server).size)
  {
    ContextKnownIff(backups, server);
    hide ContextAfter, ValidSegmentSize;
  }

  lemma HealthyRanges(objects: seq<Classified>, size: int)
    requires WellKinded(objects) && CleanListing(objects, size) && !Run(SegmentsIn(objects)).truncated && ValidSegmentSize(size)
    ensures forall t, p :: Observed(Merged(FactsOf(objects).ranges, size), t, p) <==> At(SegmentsIn(objects), size, t, p)
  {
    var segments := SegmentsIn(objects);
    var c := Run(segments);
    SegmentsWellKinded(objects);
    RunCompacts(segments);
    assert Increasing(segments);
    IncreasingIsNonDecreasing(segments);
    assert !c.outOfOrder;
    NoDoubtIff(objects, size);
    hide CleanListing, Compacts, Merged, SegmentsIn, Run, Findings, CountKind, At, Observed, AnyMisplaced;
    ObservedIffListed(c, segments, size);
  }

  /** The ranges reported for any server are sorted, disjoint and non-adjacent. */
  lemma WalForCanonical(wal: Catalog, listing: seq<Object>, backups: seq<Backup>, previous: Catalog, generation: U64, server: string)
    requires Finished(wal, listing, backups, previous, generation)
    ensures Canonical(WalFor(wal, server).ranges)
  {
    hide Canonical, Merged, GapsOf, VerdictOf, OfServer, ContextOf, PreviousGaps, Reported, LatestOf, AnyMisplaced, Ordered;
    var found := FindServer(wal, server);
    if found.None? {
      NothingCanonical();
    } else {
      var k :| 0 <= k < |wal.servers| && wal.servers[k] == found.value;
      FinishedCanonical(listing, backups, previous, generation, server);
    }
  }

  lemma NothingCanonical()
    ensures Canonical([])
  {
  }

  lemma FinishedCanonical(listing: seq<Object>, backups: seq<Backup>, previous: Catalog, generation: U64, server: string)
    ensures Canonical(FinishedServer(listing, backups, previous, generation, server).ranges)
  {
    var facts, context := FactsOf(OfServer(listing, server)), ContextOf(backups, server);
    ListedWellKinded(listing, server);
    CountsAreValid(OfServer(listing, server));
    hide Canonical, Merged, GapsOf, VerdictOf, OfServer, ContextOf, PreviousGaps, LatestOf, AnyMisplaced, Ordered, FactsOf, Shaped,
         EndsAt, Observed, RawObserved;
    NothingCanonical();
    if context.Known? {
      MergedCorrect(facts.ranges, context.size);
    }
  }

  /** On finished evidence no walk ever meets a discontinuity that is not a classified gap. */
  lemma FinishedNeverUnclassified(listing: seq<Object>, backups: seq<Backup>, previous: Catalog, generation: U64, server: string,
                                  timeline: U32, start: U64, required: U64)
    ensures var w := FinishedServer(listing, backups, previous, generation, server);
            && ReachPosition(w.ranges, w.gaps, timeline, start, required).reason != UnclassifiedDiscontinuity
            && ContiguousFrontier(w.ranges, w.gaps, timeline, start).reason != UnclassifiedDiscontinuity
  {
    hide Canonical, Merged, GapsOf, VerdictOf, OfServer, ContextOf, PreviousGaps, LatestOf, AnyMisplaced, FactsOf, Observed,
         ReachPosition, ContiguousFrontier, GapsClassified;
    var w, context := FinishedServer(listing, backups, previous, generation, server), ContextOf(backups, server);
    FinishedCanonical(listing, backups, previous, generation, server);
    if context.Known? {
      FinishedGapsClassify(w.ranges, PreviousGaps(previous, server), context.size, generation);
    } else {
      NothingClassified();
    }
    NeverUnclassified(w.ranges, w.gaps, timeline, start, required);
  }

  lemma NothingClassified()
    ensures GapsClassified([], [])
  {
  }

  // ---------------------------------------------------------------- recovery

  /** Every leg over the e-th edge of the k-th history is observed, up to the frontier of the target. */
  ghost predicate TargetCovered(s: Source, histories: seq<TimelineHistory>, k: int, e: int)
    requires LateEdge(histories, s, k, e)
  {
    LegsCovered(s.wal.ranges, s.anchors.timeline, s.anchors.end, Leaving(histories[k], s)[..e + 1])
  }

  /**
   * A backup is covered: its own timeline from its beginning to the greatest observed position, every leg of every
   * timeline a history connects to it with every switch segment on both timelines unless EndLSN lies before the
   * beginning, and no later timeline left unaccounted for.
   */
  ghost predicate BackupProven(b: Backup, e: Recovery, wal: ServerWal) {
    && AnchorsFor(b, wal).Some?
    && var s := Source(b, AnchorsFor(b, wal).value, wal);
       && ObservedAll(wal.ranges, s.anchors.timeline, s.anchors.begin, s.anchors.end)
       && ToFrontier(wal.ranges, s.anchors.timeline, s.anchors.end)
       && (forall k, i :: LateEdge(e.histories, s, k, i) ==>
             && TargetCovered(s, e.histories, k, i)
             && (EndLsnNotBefore(b, s.anchors.begin) ==> SwitchesObserved(s, e.histories, k, i)))
       && (forall t: U32 :: t > s.anchors.timeline && HasRange(wal.ranges, t) ==> Reached(e.histories, s, t) || Skipped(e.histories, s, t))
  }

  /** A healthy path is neither of the unknown ones. */
  lemma HealthyIsGenuine(p: RecoveryPath, b: Backup, wal: ServerWal, histories: seq<TimelineHistory>)
    requires PathOf(p, b, wal, histories) && p.state == Evidence.Healthy
    ensures AnchorsFor(b, wal).Some? && Genuine(p, histories, Source(b, AnchorsFor(b, wal).value, wal))
  {
    hide Genuine, Unconnected, BackupRange;
  }

  lemma OwnCovered(s: Source, p: RecoveryPath)
    requires Canonical(s.wal.ranges) && p == RecoveryPaths.Evaluated(s, s.anchors.timeline, []) && p.state == Evidence.Healthy
    requires s.anchors.begin <= s.anchors.end
    ensures ObservedAll(s.wal.ranges, s.anchors.timeline, s.anchors.begin, s.anchors.end)
    ensures ToFrontier(s.wal.ranges, s.anchors.timeline, s.anchors.end)
  {
    PathHealthyIff(s.backup, s.wal, s.anchors.timeline, s.anchors.begin, s.anchors.end, s.anchors.timeline, []);
    hide EvaluatePath, Observed, Canonical, ObservedAll, ToFrontier;
  }

  lemma OwnIsOwn(s: Source, histories: seq<TimelineHistory>, known: ParentMap, p: RecoveryPath)
    requires Coherent(histories, known, s.wal) && Genuine(p, histories, s) && p.target == s.anchors.timeline
    ensures p == RecoveryPaths.Evaluated(s, s.anchors.timeline, [])
  {
    hide EvaluatePath, Leaving, Coherent, BranchesEarly;
    ReachedExcludesSkipped(histories, known, s, p.target);
  }

  lemma EdgeCovered(s: Source, histories: seq<TimelineHistory>, known: ParentMap, k: int, i: int, p: RecoveryPath)
    requires Coherent(histories, known, s.wal) && Canonical(s.wal.ranges)
    requires LateEdge(histories, s, k, i) && Genuine(p, histories, s) && p.state == Evidence.Healthy
    requires p.target == Leaving(histories[k], s)[i].child
    ensures TargetCovered(s, histories, k, i) && HealthyOver(s, histories, k, i)
  {
    hide EvaluatePath, Leaving, Coherent, BranchesEarly, Canonical, LegsCovered;
    assert ReachedBy(histories, s, p.target, k, i);
    ReachedExcludesSkipped(histories, known, s, p.target);
    EvaluateKeepsTarget(s.backup, s.wal, s.anchors.timeline, s.anchors.begin, s.anchors.end, s.anchors.timeline, []);
    var j, d :| ReachedBy(histories, s, p.target, j, d) && p == RecoveryPaths.Evaluated(s, p.target, Leaving(histories[j], s)[..d + 1]);
    SameEdges(histories, known, s, j, d, k, i);
    hide ObservedAll, Observed;
    PathHealthyIff(s.backup, s.wal, s.anchors.timeline, s.anchors.begin, s.anchors.end, p.target, Leaving(histories[j], s)[..d + 1]);
  }

  /** Healthy paths for everything expected of a backup prove it. */
  lemma HealthyBackup(b: Backup, i: int, backups: seq<Backup>, e: Recovery, wal: ServerWal, known: ParentMap)
    requires Usable(backups, i) && backups[i] == b && Canonical(wal.ranges) && Coherent(e.histories, known, wal)
    requires Collected(e.paths, backups, wal, e.histories) && forall p :: p in e.paths ==> p.state == Evidence.Healthy
    ensures BackupProven(b, e, wal)
  {
    hide Coherent, Canonical, Genuine, ObservedAll, ToFrontier, BackupRange, BranchesEarly, Leaving, PathOf, TargetCovered, Belongs,
         HealthyOver, SwitchesObserved, EndLsnNotBefore;
    var anchors := AnchorsFor(b, wal);
    if anchors.None? {
      assert Expected(0, b, wal, e.histories);
      var p := HealthyPath(b, i, backups, e, wal, 0);
    } else {
      var s := Source(b, anchors.value, wal);
      AnchorsOrdered(b, wal);
      assert Expected(s.anchors.timeline, b, wal, e.histories);
      var own := HealthyPath(b, i, backups, e, wal, s.anchors.timeline);
      OwnIsOwn(s, e.histories, known, own);
      OwnCovered(s, own);
      forall k, j | LateEdge(e.histories, s, k, j)
        ensures TargetCovered(s, e.histories, k, j)
        ensures EndLsnNotBefore(b, s.anchors.begin) ==> SwitchesObserved(s, e.histories, k, j)
      {
        LateTarget(e.histories, s, k, j);
        var p := HealthyPath(b, i, backups, e, wal, Leaving(e.histories[k], s)[j].child);
        EdgeCovered(s, e.histories, known, k, j, p);
        if EndLsnNotBefore(b, s.anchors.begin) {
          LateSwitchesObserved(e.histories, known, s, k, j);
        }
      }
      forall t: U32 | t > s.anchors.timeline && HasRange(wal.ranges, t) ensures Reached(e.histories, s, t) || Skipped(e.histories, s, t) {
        if Unconnected(e.histories, s, t) {
          var p := HealthyPath(b, i, backups, e, wal, t);
          GenuineTarget(p, e.histories, s);
        }
      }
    }
  }

  lemma AnchorsOrdered(b: Backup, wal: ServerWal)
    requires AnchorsFor(b, wal).Some?
    ensures AnchorsFor(b, wal).value.begin <= AnchorsFor(b, wal).value.end && wal.segmentSize == b.segmentSize
  {
  }

  lemma LateTarget(histories: seq<TimelineHistory>, s: Source, k: int, i: int)
    requires LateEdge(histories, s, k, i)
    ensures Reached(histories, s, Leaving(histories[k], s)[i].child)
  {
    hide Leaving, BranchesEarly;
    assert ReachedBy(histories, s, Leaving(histories[k], s)[i].child, k, i);
  }

  lemma GenuineTarget(p: RecoveryPath, histories: seq<TimelineHistory>, s: Source)
    requires Genuine(p, histories, s)
    ensures p.target == s.anchors.timeline || Reached(histories, s, p.target)
  {
    hide EvaluatePath, Leaving, BranchesEarly;
    EvaluateKeepsTarget(s.backup, s.wal, s.anchors.timeline, s.anchors.begin, s.anchors.end, s.anchors.timeline, []);
  }

  lemma HealthyPath(b: Backup, i: int, backups: seq<Backup>, e: Recovery, wal: ServerWal, target: U32) returns (p: RecoveryPath)
    requires Usable(backups, i) && backups[i] == b && Expected(target, b, wal, e.histories)
    requires Collected(e.paths, backups, wal, e.histories) && forall p :: p in e.paths ==> p.state == Evidence.Healthy
    ensures p in e.paths && p.target == target && p.state == Evidence.Healthy
    ensures AnchorsFor(b, wal).Some? && Genuine(p, e.histories, Source(b, AnchorsFor(b, wal).value, wal))
  {
    hide Genuine, Expected, PathOf, Belongs;
    p :| p in e.paths && p.target == target && PathOf(p, b, wal, e.histories);
    HealthyIsGenuine(p, b, wal, e.histories);
  }

  /** The recovery entry of a backup's server proves it. */
  lemma HealthyEntry(b: Backup, e: Recovery, i: RecoveryInput)
    requires RecoveredServer(e, i) && b in i.backups && b.server == e.server && b.state == Evidence.Healthy
    requires e.coverage == Evidence.Healthy && Canonical(WalFor(i.wal, e.server).ranges)
    ensures BackupProven(b, e, WalFor(i.wal, e.server))
  {
    hide TimelinesJudged, Coherent, AllPaths, DistinctIds, Retained, Canonical, Collected, Conflicting, BackupProven,
         Evidence.JoinOf, BackupsFor;
    var wal, backups := WalFor(i.wal, e.server), BackupsFor(i.backups, e.server);
    var known :| Coherent(e.histories, known, wal);
    CoverageHealthyIff(e.paths, backups, wal, e.histories);
    BackupsForMembers(i.backups, e.server);
    var k :| 0 <= k < |backups| && backups[k] == b;
    HealthyBackup(b, k, backups, e, wal, known);
  }

  // ---------------------------------------------------------------- backup directories

  /** The backup of a directory is healthy, and its metadata was listed. */
  ghost predicate DirectoryProven(c: string, backups: seq<Backup>, listing: seq<Object>) {
    && ContainsKey(listing, InfoPath(CutComposite(c)))
    && exists b :: b in backups && b.state == Evidence.Healthy && Directory(b.server, b.id) == CutComposite(c)
  }

  /** The catalog objects are the backup objects among the matched ones. */
  lemma {:induction false} CatalogIsMatched(matcher: Matcher, l: seq<Object>)
    ensures forall o :: o in CatalogObjects(matcher, l) <==> o in Matched(matcher, l) && BackupObject(o.key)
  {
    hide BackupObject;
    if l != [] {
      CatalogIsMatched(matcher, l[..|l| - 1]);
    }
  }

  lemma {:induction false} GatheredIsListed(objects: seq<Object>, c: string)
    ensures forall o :: o in Gathered(objects, c) ==> o in objects
  {
    hide CompositeOf;
    if objects != [] {
      GatheredIsListed(objects[..|objects| - 1], c);
    }
  }

  lemma DirectoryIsCatalogued(matcher: Matcher, l: seq<Object>, c: string)
    requires HasComposite(Matched(matcher, l), c)
    ensures HasComposite(CatalogObjects(matcher, l), c)
  {
    hide Matched, CatalogObjects;
    CatalogIsMatched(matcher, l);
    var k :| 0 <= k < |Matched(matcher, l)| && CompositeOf(Matched(matcher, l)[k].key) == Some(c);
    assert Matched(matcher, l)[k] in CatalogObjects(matcher, l);
    var j :| 0 <= j < |CatalogObjects(matcher, l)| && CatalogObjects(matcher, l)[j] == Matched(matcher, l)[k];
  }

  lemma HealthyDirectory(backups: seq<Backup>, matcher: Matcher, l: seq<Object>, read: DirectoryReader, c: string)
    requires CatalogOf(backups, CatalogObjects(matcher, l), read) && HasComposite(Matched(matcher, l), c)
    requires forall b :: b in backups ==> b.state == Evidence.Healthy
    ensures DirectoryProven(c, backups, Matched(matcher, l))
  {
    hide Matched, CatalogObjects, HasComposite, Gathered, InfoPath, CutComposite;
    var objects, path := CatalogObjects(matcher, l), InfoPath(CutComposite(c));
    DirectoryIsCatalogued(matcher, l, c);
    var b := BackupAt(objects, read, c);
    assert b in backups;
    assert ContainsKey(Gathered(objects, c), path);
    var k :| 0 <= k < |Gathered(objects, c)| && Gathered(objects, c)[k].key == path;
    GatheredIsListed(objects, c);
    CatalogIsMatched(matcher, l);
    var o := Gathered(objects, c)[k];
    assert o in Gathered(objects, c);
    var j :| 0 <= j < |Matched(matcher, l)| && Matched(matcher, l)[j] == o;
  }

  // ---------------------------------------------------------------- all together

  /** Nothing in the snapshot is healthy for want of evidence. */
  ghost predicate SnapshotProven(s: Snapshot, listing: seq<Object>) {
    && s.backups != [] && s.wal.servers != [] && s.recovery.servers != []
    && (forall w :: w in s.wal.servers ==> ServerProven(w, listing, s.backups))
    && (forall b :: b in s.backups ==>
          b.state == Evidence.Healthy
          && exists e :: e in s.recovery.servers && e.server == b.server && BackupProven(b, e, WalFor(s.wal, b.server)))
    && forall c :: HasComposite(listing, c) ==> DirectoryProven(c, s.backups, listing)
  }

  lemma ServersProven(s: Snapshot, listing: seq<Object>, previous: Catalog, generation: U64)
    requires Finished(s.wal, listing, s.backups, previous, generation) && forall w :: w in s.wal.servers ==> w.state == Evidence.Healthy
    ensures forall w :: w in s.wal.servers ==> ServerProven(w, listing, s.backups)
  {
    hide ServerProven, FinishedServer, Reported;
    forall w | w in s.wal.servers ensures ServerProven(w, listing, s.backups) {
      var k :| 0 <= k < |s.wal.servers| && s.wal.servers[k] == w;
      HealthyServer(w, listing, s.backups, previous, generation);
    }
  }

  lemma CoveredBackup(s: Snapshot, listing: seq<Object>, i: RecoveryInput, previous: Catalog, generation: U64, b: Backup)
    requires Finished(s.wal, listing, s.backups, previous, generation) && Recovered(s.recovery, i)
    requires i.wal == s.wal && i.backups == s.backups && b in s.backups && b.state == Evidence.Healthy
    requires forall e :: e in s.recovery.servers ==> e.coverage == Evidence.Healthy
    ensures exists e :: e in s.recovery.servers && e.server == b.server && BackupProven(b, e, WalFor(s.wal, b.server))
  {
    hide BackupProven, FinishedServer, RecoveredServer, Reported, Canonical, Finished;
    var k :| 0 <= k < |s.backups| && s.backups[k] == b;
    assert b.server in NamesOf(i);
    var e :| e in s.recovery.servers && e.server == b.server;
    WalForCanonical(s.wal, listing, s.backups, previous, generation, b.server);
    HealthyEntry(b, e, i);
  }

  /**
   * A completed scan is healthy only if every reported server's listing leaves no doubt, every listed backup directory has
   * its metadata and a healthy backup, and every backup is covered from its beginning through each switchpoint to the
   * greatest observed position of each target timeline.
   */
  lemma HealthyMeansProven(s: Snapshot, env: Environment, st: Settings, matcher: Matcher, walked: Walked, previous: Catalog, generation: U64)
    requires CompletedScan(s, env, st, matcher, walked, previous, generation) && st.analyze
    requires s.evidence.state == Evidence.Healthy
    ensures SnapshotProven(s, Matched(matcher, walked.listing))
  {
    hide Inventoried, ServerProven, BackupProven, Matched, Finished, Recovered, CompleteEnvelope, Concluded, CatalogOf, DirectoryProven,
         HasComposite;
    var matched := Matched(matcher, walked.listing);
    var i := RecoveryInputOf(s, matched, env, st);
    ConcludedHealthyIff(CompleteEnvelope(st.descriptor, generation, env.started, env.completed), s.backups, s.wal, s.recovery);
    ServersProven(s, matched, previous, generation);
    forall b | b in s.backups
      ensures exists e :: e in s.recovery.servers && e.server == b.server && BackupProven(b, e, WalFor(s.wal, b.server))
    {
      CoveredBackup(s, matched, i, previous, generation, b);
    }
    forall c | HasComposite(matched, c) ensures DirectoryProven(c, s.backups, matched) {
      HealthyDirectory(s.backups, matcher, walked.listing, env.backup, c);
    }
  }

  /** Without Barman analysis nothing is ever healthy; with it, only what the scanned listing proves. */
  lemma CompletedIsWellFounded(s: Snapshot, env: Environment, st: Settings, matcher: Matcher, walked: Walked, previous: Catalog,
                               generation: U64)
    requires CompletedScan(s, env, st, matcher, walked, previous, generation)
    ensures s.evidence.state == Evidence.Healthy ==> st.analyze && SnapshotProven(s, Matched(matcher, walked.listing))
  {
    hide Inventoried, ScanOutcomes.Evaluated, SnapshotProven, Prove, InitialEnvelope;
    if s.evidence.state == Evidence.Healthy {
      HealthyMeansProven(s, env, st, matcher, walked, previous, generation);
    }
  }
}
