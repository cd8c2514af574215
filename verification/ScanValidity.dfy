// When the snapshot of a complete Barman scan passes validation (scanner.go with inventory.go).
module ScanValidity {
  import opened Results
  import opened Store
  import opened Text
  import opened BarmanFormat
  import opened WalClassify
  import opened WalCollector
  import opened WalCatalog
  import opened WalValidation
  import opened RecoveryCatalogs
  import opened RecoveryValidation
  import opened RecoveryValidity
  import opened ServerRecovery
  import opened Inventory
  import opened InventoryBuilder
  import opened InventoryCompletion
  import opened ScanEvidence
  import opened Scanning
  import opened ScanOutcomes
  import opened Backups
  import opened BackupCatalogs
  import RecentHeap
  import Sorting

  function BarmanMatcher(configured: seq<string>): Matcher {
    (key: string) => MatchKey(configured, key)
  }

  /** `NewScopeMatcher`. */
  function NewScopeMatcher(configured: seq<string>): Option<Matcher> {
    if ValidConfigured(configured) then Some(BarmanMatcher(configured)) else None
  }

  // ---------------------------------------------------------------- the names a scan lets through

  /** At most a thousand scopes, each with a valid name, and no more backup objects than the catalog may hold. */
  ghost predicate NamesBounded(matcher: Matcher, initial: set<string>, listing: seq<Object>) {
    && |ScopeNames(matcher, initial, listing)| <= MAX_SCOPES && (forall n :: n in ScopeNames(matcher, initial, listing) ==> ValidName(n))
    && |CatalogObjects(matcher, listing)| <= MAX_CATALOG_OBJECTS
  }

  lemma {:induction false} TakeNames(matcher: Matcher, initial: set<string>, listing: seq<Object>, objects: seq<Object>)
    requires Take(matcher, initial, listing, objects).Ok? && NamesBounded(matcher, initial, listing)
    ensures NamesBounded(matcher, initial, Take(matcher, initial, listing, objects).value)
    decreases |objects|
  {
    hide ScopeNames, ValidName, Bytes, CatalogObjects, BackupObject;
    if objects != [] {
      NameSnoc(matcher, initial, listing, objects[0]);
      ListingSnoc(matcher, listing, objects[0]);
      TakeNames(matcher, initial, listing + [objects[0]], objects[1..]);
    }
  }

  lemma {:induction false} WalkNames(env: Environment, st: Settings, matcher: Matcher, initial: set<string>, call: nat, cursor: string,
                                     listing: seq<Object>)
    requires st.pageSize > 0 && Walk(env, st, matcher, initial, call, cursor, listing).Ok? && NamesBounded(matcher, initial, listing)
    ensures NamesBounded(matcher, initial, Walk(env, st, matcher, initial, call, cursor, listing).value.listing)
    decreases MaxPages(st) - call
  {
    hide Take, NamesBounded, MaxPages;
    var page := env.list(call, cursor, Limit(st, listing)).page;
    TakeNames(matcher, initial, listing, page.objects);
    if page.nextCursor != "" {
      WalkNames(env, st, matcher, initial, call + 1, page.nextCursor, Take(matcher, initial, listing, page.objects).value);
    }
  }

  lemma InitialNames(st: Settings, matcher: Matcher)
    requires OpeningRefusal(st).None?
    ensures NamesBounded(matcher, InitialScopes(st), [])
  {
    hide ValidName;
    SetOfSeq(st.initial);
    assert InitialScopes(st) == set k | 0 <= k < |st.initial| :: st.initial[k];
  }

  lemma {:induction false} SetOfSeq(names: seq<string>)
    ensures |set k | 0 <= k < |names| :: names[k]| <= |names|
  {
    var all := set k | 0 <= k < |names| :: names[k];
    if names != [] {
      var n := |names| - 1;
      var front := set k | 0 <= k < n :: names[..n][k];
      SetOfSeq(names[..n]);
      assert all == front + {names[n]};
    }
  }

  /** A list without repetition is no longer than a set that holds all of it. */
  lemma {:induction false} DistinctNames(names: seq<string>, all: set<string>)
    requires forall k :: 0 <= k < |names| ==> names[k] in all
    ensures Sorting.Distinct(names) ==> |names| <= |all|
  {
    if names != [] && Sorting.Distinct(names) {
      var n := |names| - 1;
      DistinctNames(names[..n], all - {names[n]});
    }
  }

  // ---------------------------------------------------------------- where server names come from

  /** Everything reported by name belongs to a scope. */
  lemma {:induction false} ListedInScope(configured: seq<string>, initial: set<string>, listing: seq<Object>, server: string)
    requires Listed(Matched(BarmanMatcher(configured), listing), server)
    ensures server in ScopeNames(BarmanMatcher(configured), initial, listing)
  {
    hide MatchKey, Classify;
    if listing != [] {
      var n := |listing| - 1;
      var matched := Matched(BarmanMatcher(configured), listing);
      if MatchKey(configured, listing[n].key).Some? {
        assert matched[..|matched| - 1] == Matched(BarmanMatcher(configured), listing[..n]) && matched[|matched| - 1] == listing[n];
        if Classify(listing[n]).Some? && Classify(listing[n]).value.server == server {
          MatchedServer(configured, listing[n]);
        } else {
          ListedInScope(configured, initial, listing[..n], server);
        }
      } else {
        ListedInScope(configured, initial, listing[..n], server);
      }
    }
  }

  /** With one configured server there is one scope. */
  lemma {:induction false} OneScope(server: string, listing: seq<Object>)
    ensures ScopeNames(BarmanMatcher([server]), {server}, listing) == {server}
  {
    hide ValidName;
    if listing != [] {
      var n := |listing| - 1;
      OneScope(server, listing[..n]);
      if MatchKey([server], listing[n].key).Some? {
        MatchedScope([server], listing[n].key);
        hide MatchKey;
      }
    }
  }

  /** The j-th listed object is the one this history reference was taken from. */
  ghost predicate TakenFrom(o: HistoryObject, listing: seq<Object>, j: int) {
    && 0 <= j < |listing| && Classify(listing[j]).Some? && Classify(listing[j]).value.kind == History
    && HistoryRef(Classify(listing[j]).value) == o
  }

  lemma {:induction false} HistoryInListing(listing: seq<Object>)
    ensures forall k :: 0 <= k < |HistoryRefs(listing)| ==>
              Listed(listing, HistoryRefs(listing)[k].server) && exists j :: TakenFrom(HistoryRefs(listing)[k], listing, j)
  {
    hide Classify;
    if listing != [] {
      var n := |listing| - 1;
      HistoryInListing(listing[..n]);
      var front, refs := HistoryRefs(listing[..n]), HistoryRefs(listing);
      forall k | 0 <= k < |refs| ensures Listed(listing, refs[k].server) && exists j :: TakenFrom(refs[k], listing, j) {
        if k < |front| {
          var j :| TakenFrom(front[k], listing[..n], j);
          assert TakenFrom(refs[k], listing, j);
          StillListed(listing, refs[k].server);
        } else {
          assert TakenFrom(refs[k], listing, n);
        }
      }
    }
  }

  /** Its key is within bounds, and as plain as the name of its server. */
  lemma TakenIsPlain(o: HistoryObject, listing: seq<Object>, j: int)
    requires TakenFrom(o, listing, j) && BoundedKey(listing[j].key) && ControlFree(o.server)
    ensures |o.key| <= MAX_KEY_BYTES && ControlFree(o.key)
  {
    hide Classify, ControlFree;
    ClassifiedKind(listing[j]);
    RecognisedIsPlain(listing[j]);
  }

  lemma StillListed(listing: seq<Object>, server: string)
    requires listing != [] && Listed(listing[..|listing| - 1], server)
    ensures Listed(listing, server)
  {
    hide Classify;
  }

  /** Backups of known scopes, each identifier once per scope. */
  ghost predicate SaneBackups(backups: seq<Backup>, names: set<string>) {
    && |backups| <= MAX_CATALOG_OBJECTS
    && (forall b :: b in backups ==> b.server in names)
    && forall s :: DistinctIds(BackupsFor(backups, s))
  }

  // ---------------------------------------------------------------- the theorem

  /** A complete Barman scan. */
  ghost predicate PlainScan(s: Snapshot, env: Environment, st: Settings, configured: seq<string>, walked: Walked, previous: Catalog,
                            generation: U64)
  {
    && ValidSettings(st) && st.analyze && st.matcher == NewScopeMatcher(configured) && st.matcher.Some? && st.initial == configured
    && OpeningRefusal(st).None? && WalkOf(env, st) == Ok(walked)
    && CompletedScan(s, env, st, BarmanMatcher(configured), walked, previous, generation)
    && generation > 0
    && forall x :: ObservedBefore(PreviousGaps(previous, x), generation)
  }

  lemma ScanNames(s: Snapshot, env: Environment, st: Settings, configured: seq<string>, walked: Walked, previous: Catalog, generation: U64)
    returns (names: set<string>)
    requires PlainScan(s, env, st, configured, walked, previous, generation)
    ensures names == ScopeNames(BarmanMatcher(configured), InitialScopes(st), walked.listing)
    ensures |names| <= MAX_SCOPES && (forall n :: n in names ==> ValidName(n)) && SaneBackups(s.backups, names)
  {
    hide Walk, CompletedScan, ValidName, ObservedBefore, ScopeNames, ValidSettings, SaneBackups, CatalogObjects;
    names := ScopeNames(BarmanMatcher(configured), InitialScopes(st), walked.listing);
    InitialNames(st, BarmanMatcher(configured));
    assert st.pageSize > 0 by {
      PositivePages(st);
    }
    WalkNames(env, st, BarmanMatcher(configured), InitialScopes(st), 0, "", []);
    CatalogIsRead(s, env, st, BarmanMatcher(configured), walked, previous, generation);
    BackupsAreSane(s.backups, configured, InitialScopes(st), walked.listing, env.backup);
  }

  lemma CatalogIsRead(s: Snapshot, env: Environment, st: Settings, matcher: Matcher, walked: Walked, previous: Catalog, generation: U64)
    requires CompletedScan(s, env, st, matcher, walked, previous, generation) && st.analyze
    ensures CatalogOf(s.backups, CatalogObjects(matcher, walked.listing), env.backup)
  {
    hide Inventoried, Finished, Recovered, Concluded, CompleteEnvelope, CatalogOf;
  }

  /** Every backup object is matched, and so lies in a scope. */
  lemma {:induction false} CatalogInScope(configured: seq<string>, initial: set<string>, listing: seq<Object>, k: nat)
    requires k < |CatalogObjects(BarmanMatcher(configured), listing)|
    ensures var key := CatalogObjects(BarmanMatcher(configured), listing)[k].key;
            Split(key)[0] in ScopeNames(BarmanMatcher(configured), initial, listing) && ValidName(Split(key)[0])
    decreases |listing|
  {
    hide MatchKey, BackupObject, ValidName;
    var n := |listing| - 1;
    var front := CatalogObjects(BarmanMatcher(configured), listing[..n]);
    if k < |front| {
      CatalogInScope(configured, initial, listing[..n], k);
    } else {
      MatchedScope(configured, listing[n].key);
    }
  }

  /** The backups of a complete scan belong to its scopes, each identifier once, and are no more than their objects. */
  lemma BackupsAreSane(backups: seq<Backup>, configured: seq<string>, initial: set<string>, listing: seq<Object>, read: DirectoryReader)
    requires CatalogOf(backups, CatalogObjects(BarmanMatcher(configured), listing), read)
    requires |CatalogObjects(BarmanMatcher(configured), listing)| <= MAX_CATALOG_OBJECTS
    ensures SaneBackups(backups, ScopeNames(BarmanMatcher(configured), initial, listing))
  {
    hide CatalogOf, CatalogObjects, ScopeNames, BarmanMatcher, DistinctIds, BackupsFor, Split;
    var objects := CatalogObjects(BarmanMatcher(configured), listing);
    CatalogIsBounded(backups, objects, read);
    forall k | 0 <= k < |objects| ensures NUL !in Split(objects[k].key)[0] {
      CatalogInScope(configured, initial, listing, k);
      NoNul(Split(objects[k].key)[0]);
    }
    forall b | b in backups ensures b.server in ScopeNames(BarmanMatcher(configured), initial, listing) {
      var k := CatalogServer(backups, objects, read, b);
      CatalogInScope(configured, initial, listing, k);
    }
    forall s ensures DistinctIds(BackupsFor(backups, s)) {
      CatalogIsDistinct(backups, objects, read, s);
      DistinctShare(backups, s);
    }
  }

  lemma NoNul(name: string)
    requires ValidName(name)
    ensures NUL !in name
  {
    forall k | 0 <= k < |name| ensures name[k] != NUL {
      assert !ControlAt(name, k);
    }
  }

  lemma {:induction false} DistinctShare(backups: seq<Backup>, server: string)
    requires DistinctIn(backups, server)
    ensures DistinctIds(BackupsFor(backups, server))
  {
    if backups != [] {
      var n := |backups| - 1;
      assert forall k :: 0 <= k < n ==> backups[..n][k] == backups[k];
      DistinctShare(backups[..n], server);
      BackupsForMembers(backups[..n], server);
      forall b | b in BackupsFor(backups[..n], server) && backups[n].server == server ensures b.id != backups[n].id {
        var k :| 0 <= k < n && backups[..n][k] == b;
        assert backups[k].id != backups[n].id;
      }
      hide DistinctIn;
    }
  }

  lemma PositivePages(st: Settings)
    requires ValidSettings(st)
    ensures st.pageSize > 0 && st.recentLimit <= MAX_RECENT_OBJECTS && ValidDescriptor(st.descriptor)
  {
    hide ValidDescriptor;
  }

  lemma {:induction false} MatchedKeys(matcher: Matcher, listing: seq<Object>)
    requires forall k :: 0 <= k < |listing| ==> Bounded(listing[k])
    ensures forall k :: 0 <= k < |Matched(matcher, listing)| ==> BoundedKey(Matched(matcher, listing)[k].key)
  {
    if listing != [] {
      MatchedKeys(matcher, listing[..|listing| - 1]);
    }
  }

  lemma InventoriedKeys(s: Snapshot, matcher: Matcher, initial: set<string>, l: seq<Object>, limit: nat)
    requires Inventoried(s, matcher, initial, l, limit)
    ensures forall k :: 0 <= k < |Matched(matcher, l)| ==> BoundedKey(Matched(matcher, l)[k].key)
  {
    hide Matched, ScopeList, Recents, Bytes, Bounded, BoundedKey, ScopeNames;
    MatchedKeys(matcher, l);
  }

  /** The WAL catalog of such a scan passes unless it has to quote an unprintable key. */
  lemma WalValidIff(s: Snapshot, env: Environment, st: Settings, configured: seq<string>, walked: Walked, previous: Catalog,
                    generation: U64, names: set<string>)
    requires PlainScan(s, env, st, configured, walked, previous, generation) && |names| <= MAX_SCOPES
    requires names == ScopeNames(BarmanMatcher(configured), InitialScopes(st), walked.listing)
    requires (forall n :: n in names ==> ValidName(n)) && SaneBackups(s.backups, names)
    ensures ValidCatalog(s.wal) <==> Printable(Matched(BarmanMatcher(configured), walked.listing))
  {
    hide Walk, ValidName, ObservedBefore, ScopeNames, Recovered, Concluded, ScopeList, ValidSettings, Matched, Recents, Classify,
         FinishedServer, BoundedKey, Printable, CatalogOf, Inventoried, OpeningRefusal, CompleteEnvelope;
    var matched := Matched(BarmanMatcher(configured), walked.listing);
    InventoriedKeys(s, BarmanMatcher(configured), InitialScopes(st), walked.listing, st.recentLimit);
    ReportedAreNamed(s, env, st, configured, walked, previous, generation, names);
    FinishedValidIff(s.wal, matched, s.backups, previous, generation);
  }

  lemma ServersFit(wal: Catalog, listing: seq<Object>, backups: seq<Backup>, previous: Catalog, generation: U64, names: set<string>)
    requires Finished(wal, listing, backups, previous, generation) && forall x :: Reported(listing, backups, x) ==> x in names
    ensures |wal.servers| <= |names| && forall k :: 0 <= k < |wal.servers| ==> wal.servers[k].server in names
  {
    hide FinishedServer, Reported;
    var list := seq(|wal.servers|, k requires 0 <= k < |wal.servers| => wal.servers[k].server);
    forall i, j | 0 <= i < j < |list| ensures list[i] != list[j] {
      assert ServerBefore(wal.servers[i], wal.servers[j]);
      LessIrreflexive(list[i]);
    }
    DistinctNames(list, names);
  }

  /** Evidence is reported for scopes alone. */
  lemma ReportedAreNamed(s: Snapshot, env: Environment, st: Settings, configured: seq<string>, walked: Walked, previous: Catalog,
                         generation: U64, names: set<string>)
    requires PlainScan(s, env, st, configured, walked, previous, generation)
    requires names == ScopeNames(BarmanMatcher(configured), InitialScopes(st), walked.listing) && SaneBackups(s.backups, names)
    ensures forall x :: Reported(Matched(BarmanMatcher(configured), walked.listing), s.backups, x) ==> x in names
    ensures |s.wal.servers| <= |names| && forall k :: 0 <= k < |s.wal.servers| ==> s.wal.servers[k].server in names
  {
    hide WalkOf, ValidName, ObservedBefore, ScopeNames, Recovered, Concluded, Inventoried, ValidSettings, Matched, Classify, Finished,
         CatalogOf, OpeningRefusal, CompleteEnvelope, DistinctIds, BackupsFor, BarmanMatcher, OfServer;
    var matched := Matched(BarmanMatcher(configured), walked.listing);
    forall x | Reported(matched, s.backups, x) ensures x in names {
      if WalCollector.Listed(matched, x) {
        ListedInScope(configured, InitialScopes(st), walked.listing, x);
      } else {
        var k :| 0 <= k < |s.backups| && s.backups[k].server == x;
        assert s.backups[k] in s.backups;
      }
    }
    ServersFit(s.wal, matched, s.backups, previous, generation, names);
  }

  lemma RecoveriesFit(recovery: RecoveryCatalog, i: RecoveryInput, names: set<string>)
    requires Recovered(recovery, i) && NamesOf(i) <= names
    ensures |recovery.servers| <= |names|
  {
    hide RecoveredServer, NamesOf;
    var list := seq(|recovery.servers|, k requires 0 <= k < |recovery.servers| => recovery.servers[k].server);
    forall k | 0 <= k < |list| ensures list[k] in names {
      assert recovery.servers[k] in recovery.servers;
    }
    forall a, b | 0 <= a < b < |list| ensures list[a] != list[b] {
      assert RecoveryBefore(recovery.servers[a], recovery.servers[b]);
      LessIrreflexive(list[a]);
    }
    DistinctNames(list, names);
  }

  /** Nor does recovery mention any other name. */
  lemma RecoveryInputIsSane(s: Snapshot, env: Environment, st: Settings, configured: seq<string>, walked: Walked, previous: Catalog,
                            generation: U64, names: set<string>)
    requires PlainScan(s, env, st, configured, walked, previous, generation) && |names| <= MAX_SCOPES
    requires names == ScopeNames(BarmanMatcher(configured), InitialScopes(st), walked.listing)
    requires (forall n :: n in names ==> ValidName(n)) && SaneBackups(s.backups, names)
    ensures var i := RecoveryInputOf(s, Matched(BarmanMatcher(configured), walked.listing), env, st);
            SaneInput(i) && NamesOf(i) <= names
  {
    hide Walk, ValidName, ObservedBefore, ScopeNames, Recovered, Concluded, ScopeList, ValidSettings, Matched, Recents, Classify,
         FinishedServer, BoundedKey, DistinctIds, HistoryRefs, TakenFrom, ControlFree, CatalogOf, Inventoried, OpeningRefusal,
         CompleteEnvelope, BackupsFor;
    var matched := Matched(BarmanMatcher(configured), walked.listing);
    var i := RecoveryInputOf(s, matched, env, st);
    InventoriedKeys(s, BarmanMatcher(configured), InitialScopes(st), walked.listing, st.recentLimit);
    HistoryInListing(matched);
    ReportedAreNamed(s, env, st, configured, walked, previous, generation, names);
    forall k | 0 <= k < |i.objects|
      ensures i.objects[k].server in names && |i.objects[k].key| <= MAX_KEY_BYTES && ControlFree(i.objects[k].key)
    {
      assert i.objects[k] == HistoryRefs(matched)[k];
      ListedInScope(configured, InitialScopes(st), walked.listing, i.objects[k].server);
      ScopeIsPlain(i.objects[k].server);
      var j :| TakenFrom(i.objects[k], matched, j);
      TakenWithin(i.objects[k], matched, j);
      TakenIsPlain(i.objects[k], matched, j);
    }
  }

  lemma ScopeIsPlain(name: string)
    requires ValidName(name)
    ensures ControlFree(name)
  {
  }

  lemma TakenWithin(o: HistoryObject, listing: seq<Object>, j: int)
    requires TakenFrom(o, listing, j)
    ensures 0 <= j < |listing|
  {
    hide Classify;
  }

  /** Everything but the times and the WAL and recovery catalogs is in order. */
  ghost predicate RestValid(s: Snapshot) {
    ValidTimes(s) && ValidCatalog(s.wal) && ValidRecovery(s.recovery) ==> ValidSnapshot(s)
  }

  lemma ScopesFit(s: Snapshot, matcher: Matcher, initial: set<string>, l: seq<Object>, limit: nat)
    requires Inventoried(s, matcher, initial, l, limit)
    ensures |s.scopes| <= |ScopeNames(matcher, initial, l)|
  {
    hide ScopeNames, ScopeOf, Recents, Matched, Bytes, Countable;
    NamesCover(s.scopes, matcher, initial, l);
    forall k | 0 <= k < |s.scopes| ensures Names(s.scopes)[k] in ScopeNames(matcher, initial, l) {
      assert s.scopes[k] in s.scopes;
    }
    DistinctNames(Names(s.scopes), ScopeNames(matcher, initial, l));
  }

  /** The counters and lists of a complete inventory. */
  ghost predicate TotalsValid(s: Snapshot) {
    && s.totalsKnown && ValidScopes(s.scopes) && ValidListing(s) && |s.scopes| <= MAX_SCOPES && |s.recent| <= MAX_RECENT_OBJECTS
    && s.objectsExamined >= 0 && s.objectCount >= 0 && s.storedBytes >= 0 && s.unscoped >= 0
    && s.unscoped == s.objectCount - ScopedObjects(s.scopes) && ScopedObjects(s.scopes) <= s.objectCount
    && ScopedBytes(s.scopes) <= s.storedBytes
  }

  lemma TotalsAreValid(s: Snapshot, matcher: Matcher, initial: set<string>, l: seq<Object>, limit: nat)
    requires Inventoried(s, matcher, initial, l, limit) && limit <= MAX_RECENT_OBJECTS
    requires |ScopeNames(matcher, initial, l)| <= MAX_SCOPES && forall n :: n in ScopeNames(matcher, initial, l) ==> ValidName(n)
    ensures TotalsValid(s)
  {
    NamesNotEmpty(ScopeNames(matcher, initial, l));
    RecentsAreValid(s, matcher, initial, l, limit);
    ScopesAreValid(s, matcher, initial, l, limit);
    CountersConserved(s, matcher, initial, l, limit);
    ScopesFit(s, matcher, initial, l, limit);
    hide ValidName, ScopeNames, ScopeList, Recents, Matched, Bytes, Countable, RecentHeap.Selects, ValidListing, ValidScopes,
         ScopedObjects, ScopedBytes;
  }

  lemma AllValid(s: Snapshot)
    requires TotalsValid(s) && ValidEnvelope(s.evidence) && s.evidence.completeness == Complete
    requires |s.backups| <= MAX_CATALOG_OBJECTS && s.pagesExamined >= 0 && s.refreshFailure.None?
    ensures RestValid(s)
  {
    hide ValidEnvelope, ValidCatalog, ValidRecovery, ValidListing, ValidScopes, ScopedObjects, ScopedBytes, ValidTimes;
  }

  lemma RestIsValid(s: Snapshot, env: Environment, st: Settings, configured: seq<string>, walked: Walked, previous: Catalog, generation: U64,
                    names: set<string>)
    requires PlainScan(s, env, st, configured, walked, previous, generation) && |names| <= MAX_SCOPES
    requires names == ScopeNames(BarmanMatcher(configured), InitialScopes(st), walked.listing)
    requires (forall n :: n in names ==> ValidName(n)) && SaneBackups(s.backups, names)
    ensures RestValid(s)
  {
    hide WalkOf, ValidName, ObservedBefore, ScopeNames, Inventoried, Evaluated, ValidSettings, ValidEnvelope, ValidCatalog, BarmanMatcher,
         RestValid, TotalsValid, OpeningRefusal, InitialScopes, NewScopeMatcher;
    PositivePages(st);
    ScanEnvelopeIsValid(s, env, st, BarmanMatcher(configured), walked.listing, previous, generation);
    TotalsAreValid(s, BarmanMatcher(configured), InitialScopes(st), walked.listing, st.recentLimit);
    AllValid(s);
  }

  lemma NamesNotEmpty(names: set<string>)
    requires forall n :: n in names ==> ValidName(n)
    ensures forall n :: n in names ==> n != ""
  {
  }

  lemma ScanEnvelopeIsValid(s: Snapshot, env: Environment, st: Settings, matcher: Matcher, l: seq<Object>, previous: Catalog, generation: U64)
    requires Evaluated(s, matcher, l, env, st, previous, generation) && ValidSettings(st)
    ensures ValidEnvelope(s.evidence) && s.evidence.completeness == Complete
  {
    hide Finished, Recovered, ValidDescriptor, WithCatalog, WithWal, WithRecovery, InitialEnvelope, Prove, Concluded, ValidEnvelope;
    CompleteEnvelopeIsValid(st.descriptor, generation, env.started, env.completed);
    ConcludedIsValid(CompleteEnvelope(st.descriptor, generation, env.started, env.completed), s.backups, s.wal, s.recovery);
  }

  lemma PlainOutcome(s: Snapshot, env: Environment, st: Settings, configured: seq<string>, walked: Walked, previous: Catalog,
                     generation: U64)
    requires PlainScan(s, env, st, configured, walked, previous, generation)
    ensures Recovered(s.recovery, RecoveryInputOf(s, Matched(BarmanMatcher(configured), walked.listing), env, st))
    ensures ValidTimes(s) <==> TimesAscend(env.started, env.completed)
  {
    hide WalkOf, ValidName, ObservedBefore, Recovered, Concluded, Inventoried, Matched, Finished, ValidSettings, CatalogOf, OpeningRefusal,
         BarmanMatcher, CompleteEnvelope, InitialScopes, HistoryRefs;
  }

  lemma PartsDecide(s: Snapshot)
    requires RestValid(s)
    ensures ValidSnapshot(s) <==> ValidTimes(s) && ValidCatalog(s.wal) && ValidRecovery(s.recovery)
  {
    hide ValidCatalog, ValidRecovery, ValidEnvelope, ValidListing, ValidScopes, ValidTimes;
  }

  /**
   * A complete scan is publishable exactly when the clock did not run backwards, its WAL findings can be quoted, and the
   * recovery input of every server is acceptable: its paths do not overrun the ceiling, the identifiers that reach a path
   * are valid, and its histories are few enough and all of later timelines. Otherwise the cache keeps what it has.
   */
  lemma CompletedValidIff(s: Snapshot, env: Environment, st: Settings, configured: seq<string>, walked: Walked, previous: Catalog,
                          generation: U64)
    requires PlainScan(s, env, st, configured, walked, previous, generation)
    ensures var matched := Matched(BarmanMatcher(configured), walked.listing);
            var i := RecoveryInputOf(s, matched, env, st);
            ValidSnapshot(s) <==>
              TimesAscend(env.started, env.completed) && Printable(matched) && forall server :: server in NamesOf(i) ==> Acceptable(i, server)
  {
    hide PlainScan, Matched, ValidSnapshot, ValidCatalog, ValidRecovery, ValidTimes, TimesAscend, Recovered, SaneBackups, SaneInput, NamesOf,
         Acceptable, BarmanMatcher, Printable, RestValid, ValidName, ScopeNames, InitialScopes;
    var i := RecoveryInputOf(s, Matched(BarmanMatcher(configured), walked.listing), env, st);
    var names := ScanNames(s, env, st, configured, walked, previous, generation);
    RestIsValid(s, env, st, configured, walked, previous, generation, names);
    WalValidIff(s, env, st, configured, walked, previous, generation, names);
    RecoveryInputIsSane(s, env, st, configured, walked, previous, generation, names);
    PlainOutcome(s, env, st, configured, walked, previous, generation);
    RecoveriesFit(s.recovery, i, names);
    RecoveryValidIff(s.recovery, i);
    PartsDecide(s);
  }
}
