// Stores whose complete scans Validate refuses: what ScanRefusals rules out does occur (scanner.go).
module ScanStores {
  import opened Results
  import opened Store
  import opened Text
  import opened BarmanFormat
  import opened WalNames
  import opened WalClassify
  import opened WalCollector
  import opened WalCatalog
  import opened WalValidation
  import opened Histories
  import opened ServerRecovery
  import opened RecoveryCatalogs
  import opened RecoveryValidity
  import opened Inventory
  import opened InventoryBuilder
  import opened InventoryCompletion
  import opened Scanning
  import opened ScanOutcomes
  import opened ScanValidity
  import opened ScanRuns
  import opened ScanRefusals
  import opened Backups
  import opened BackupCatalogs
  import ScanEvidence
  import WalRanges

  const CONFIGURED := [SERVER]
  const CAPABILITIES := [CatalogListing, DependencyValidation, EncryptedMetadata, ObjectInventory, RecoveryCoverage,
                         RetentionExpectation, StructuralValidation, TimelineTraversal, WalContinuity]

  // ---------------------------------------------------------------- a store that lists one object a page

  function CursorAfter(n: nat): string {
    if n % 2 == 0 then "a" else "b"
  }

  function PageAt(objects: seq<Object>, n: nat): Reply {
    if n < |objects| then Replied(Page([objects[n]], if n + 1 < |objects| then CursorAfter(n) else ""))
    else Failed(Fault(NotFound))
  }

  function StoreOf(objects: seq<Object>, backup: DirectoryReader, read: HistoryObject -> HistoryText): Environment {
    Environment((n: nat, cursor: string, limit: int) => PageAt(objects, n), n => None, None, None, backup, read, 1, 1, 1)
  }

  function OneServer(): Settings {
    Settings(Descriptor("barman-cloud", "server", CAPABILITIES), NewScopeMatcher(CONFIGURED), CONFIGURED, true, 10_000, 1, 1,
             RecoveryOptions("", None))
  }

  /** An object of the configured server, one byte long. */
  predicate Stored(entry: Object) {
    Bounded(entry) && entry.size == 1 && MatchKey(CONFIGURED, entry.key).Some?
  }

  ghost predicate AllStored(objects: seq<Object>) {
    |objects| < 10_000 && forall k :: 0 <= k < |objects| ==> Stored(objects[k])
  }

  lemma StoredMatch(entry: Object)
    requires Stored(entry)
    ensures MatchKey(CONFIGURED, entry.key).Some? && MatchKey(CONFIGURED, entry.key).value.name == SERVER
  {
    MatchedScope(CONFIGURED, entry.key);
    hide MatchKey, ValidName;
  }

  lemma NothingStored()
    ensures Matched(BarmanMatcher(CONFIGURED), []) == [] && Bytes([]) == 0 && CatalogObjects(BarmanMatcher(CONFIGURED), []) == []
    ensures ScopeNames(BarmanMatcher(CONFIGURED), {SERVER}, []) == {SERVER}
  {
  }

  lemma {:induction false} StoredAreMatched(objects: seq<Object>)
    requires AllStored(objects)
    ensures Matched(BarmanMatcher(CONFIGURED), objects) == objects && Bytes(objects) == |objects|
    ensures ScopeNames(BarmanMatcher(CONFIGURED), {SERVER}, objects) == {SERVER}
    ensures |CatalogObjects(BarmanMatcher(CONFIGURED), objects)| <= |objects|
  {
    hide MatchKey, BackupObject, ValidName, Matched, Bytes, ScopeNames, CatalogObjects, Recents;
    NothingStored();
    if objects != [] {
      var n := |objects| - 1;
      StoredAreMatched(objects[..n]);
      StoredMatch(objects[n]);
      ListingSnoc(BarmanMatcher(CONFIGURED), objects[..n], objects[n]);
      NameSnoc(BarmanMatcher(CONFIGURED), {SERVER}, objects[..n], objects[n]);
      assert objects == objects[..n] + [objects[n]];
    }
  }

  lemma NotRefused(listing: seq<Object>, entry: Object)
    requires AllStored(listing) && Stored(entry)
    ensures Refusal(BarmanMatcher(CONFIGURED), {SERVER}, listing, entry).None?
  {
    StoredAreMatched(listing);
    StoredMatch(entry);
    ServerIsValid();
    hide MatchKey, BackupObject, ValidName, Bytes, ScopeNames, CatalogObjects;
  }

  lemma TakesOne(listing: seq<Object>, entry: Object)
    requires AllStored(listing) && Stored(entry)
    ensures Take(BarmanMatcher(CONFIGURED), {SERVER}, listing, [entry]) == Ok(listing + [entry])
  {
    hide Refusal, Stored;
    NotRefused(listing, entry);
    assert [entry][1..] == [];
    assert Take(BarmanMatcher(CONFIGURED), {SERVER}, listing + [entry], []) == Ok(listing + [entry]);
  }

  function CursorBefore(n: nat): string {
    if n == 0 then "" else CursorAfter(n - 1)
  }

  /** From page n on, the walk takes in whatever is left. */
  lemma {:induction false} WalkOfStore(objects: seq<Object>, backup: DirectoryReader, read: HistoryObject -> HistoryText, n: nat)
    requires AllStored(objects) && n < |objects|
    ensures Walk(StoreOf(objects, backup, read), OneServer(), BarmanMatcher(CONFIGURED), {SERVER}, n, CursorBefore(n), objects[..n])
            == Ok(Walked(objects, |objects|))
    decreases |objects| - n
  {
    hide Take, Stored;
    TakesOne(objects[..n], objects[n]);
    assert objects[..n] + [objects[n]] == objects[..n + 1];
    if n + 1 < |objects| {
      WalkOfStore(objects, backup, read, n + 1);
    } else {
      assert objects[..n + 1] == objects;
    }
  }

  lemma SettingsAreValid()
    ensures ValidSettings(OneServer()) && OneServer().matcher == Some(BarmanMatcher(CONFIGURED))
    ensures OpeningRefusal(OneServer()).None?
  {
    ServerIsValid();
    hide ValidName;
  }

  lemma OneInitial()
    ensures InitialScopes(OneServer()) == {SERVER}
  {
    assert OneServer().initial == [SERVER];
    assert [SERVER][0] == SERVER;
    hide OneServer;
  }

  lemma NothingObservedBefore(server: string)
    ensures ObservedBefore(PreviousGaps(Catalog([]), server), 1)
  {
  }

  /** What the store makes of the outcome of a scan. */
  lemma StoreCompletes(objects: seq<Object>, backup: DirectoryReader, read: HistoryObject -> HistoryText, outcome: Result<Snapshot, Failure>)
    requires objects != [] && AllStored(objects)
    requires ScanOutcome(outcome, StoreOf(objects, backup, read), OneServer(), Catalog([]), 1)
    ensures outcome.Ok? && WalkOf(StoreOf(objects, backup, read), OneServer()) == Ok(Walked(objects, |objects|))
    ensures CompletedScan(outcome.value, StoreOf(objects, backup, read), OneServer(), BarmanMatcher(CONFIGURED), Walked(objects, |objects|),
                          Catalog([]), 1)
  {
    hide Walk, CompletedScan, ValidSettings, OpeningRefusal, AllStored, BarmanMatcher, InitialScopes;
    SettingsAreValid();
    OneInitial();
    WalkOfStore(objects, backup, read, 0);
    assert objects[..0] == [];
  }

  lemma BackupsRead(s: Snapshot, env: Environment, st: Settings, matcher: Matcher, walked: Walked, previous: Catalog, generation: U64)
    requires CompletedScan(s, env, st, matcher, walked, previous, generation) && st.analyze
    ensures CatalogOf(s.backups, CatalogObjects(matcher, walked.listing), env.backup)
  {
    hide Inventoried, Finished, Recovered, ScanEvidence.Concluded, CompleteEnvelope, CatalogOf;
  }

  /** These are the backups the catalog reader makes of the listing. */
  ghost predicate Catalogued(backups: seq<Backup>, objects: seq<Object>, backup: DirectoryReader) {
    CatalogOf(backups, CatalogObjects(BarmanMatcher(CONFIGURED), objects), backup)
  }

  lemma ScanIsPlain(objects: seq<Object>, backups: seq<Backup>, backup: DirectoryReader, read: HistoryObject -> HistoryText, r: ScanRun)
    requires objects != [] && AllStored(objects) && Catalogued(backups, objects, backup)
    requires r == ScanRun(r.s, StoreOf(objects, backup, read), OneServer(), CONFIGURED, Walked(objects, |objects|), Catalog([]), 1)
    requires ScanOutcome(Ok(r.s), r.env, r.st, r.previous, r.generation)
    ensures Plain(r) && MatchedOf(r) == objects && r.s.backups == backups
  {
    hide WalkOf, CompletedScan, ValidSettings, OpeningRefusal, AllStored, Matched, CatalogOf, CatalogObjects, ScopeNames, BarmanMatcher,
         ScanOutcome, ObservedBefore, PreviousGaps, InitialScopes;
    StoreCompletes(objects, backup, read, Ok(r.s));
    BackupsRead(r.s, r.env, r.st, BarmanMatcher(CONFIGURED), r.walked, r.previous, r.generation);
    CatalogUnique(r.s.backups, backups, CatalogObjects(BarmanMatcher(CONFIGURED), objects), backup);
    SettingsAreValid();
    OneInitial();
    StoredAreMatched(objects);
    forall x { NothingObservedBefore(x); }
  }

  /** Scanning such a store for the first time completes, with exactly its objects and the backups the catalog reader finds. */
  method ScanStore(objects: seq<Object>, ghost backups: seq<Backup>, backup: DirectoryReader, read: HistoryObject -> HistoryText)
    returns (r: ScanRun)
    requires objects != [] && AllStored(objects) && Catalogued(backups, objects, backup)
    ensures Plain(r) && MatchedOf(r) == objects && r.s.backups == backups
    ensures r.env == StoreOf(objects, backup, read) && r.st == OneServer() && r.configured == CONFIGURED
  {
    hide ScanOutcome, AllStored, Catalogued, Plain, MatchedOf, ValidSettings;
    var env, st := StoreOf(objects, backup, read), OneServer();
    SettingsAreValid();
    var result := Scan(env, st, Catalog([]), 1);
    StoreCompletes(objects, backup, read, result);
    r := ScanRun(result.value, env, st, CONFIGURED, Walked(objects, |objects|), Catalog([]), 1);
    ScanIsPlain(objects, backups, backup, read, r);
  }

  /** Evidence of the one server only. */
  lemma OnlyServer(r: ScanRun)
    requires Plain(r) && r.configured == CONFIGURED
    ensures forall server :: server in NamesOf(InputOf(r)) ==> server == SERVER
  {
    hide Walk, ValidName, ObservedBefore, ScopeNames, CompletedScan, ValidSettings, SaneBackups, SaneInput, NamesOf, BarmanMatcher,
         OpeningRefusal, HistoryRefs, Matched;
    var names := ScanNames(r.s, r.env, r.st, r.configured, r.walked, r.previous, r.generation);
    assert InitialScopes(r.st) == {SERVER} by {
      assert r.st.initial == [SERVER] && [SERVER][0] == SERVER;
    }
    OneScope(SERVER, r.walked.listing);
    RecoveryInputIsSane(r.s, r.env, r.st, r.configured, r.walked, r.previous, r.generation, names);
  }

  // ---------------------------------------------------------------- its objects

  lemma OwnKeyIsMatched(key: string)
    requires |Split(key)| >= 2 && Split(key)[0] == SERVER
    ensures MatchKey(CONFIGURED, key).Some?
  {
    ServerIsValid();
    hide Split, ValidName;
  }

  function SegmentName(timeline: U32, segment: U32): string {
    Hex(timeline, 8) + Hex(0, 8) + Hex(segment, 8)
  }

  /** A segment of log 0 on the given timeline. */
  function SegmentObject(timeline: U32, segment: U32): Object {
    var name := SegmentName(timeline, segment);
    Object("s" + "/" + ("wals" + "/" + (Hex(timeline, 8) + Hex(0, 8) + "/" + name)), 1, 1)
  }

  lemma SegmentNameParses(timeline: U32, segment: U32)
    ensures var name := SegmentName(timeline, segment);
            && |name| == 24 && AllHex(name) && Components(name) == (timeline, 0, segment)
            && name[..16] == Hex(timeline, 8) + Hex(0, 8)
  {
    Widths();
    ValueOfHex(timeline, 8);
    ValueOfHex(0, 8);
    ValueOfHex(segment, 8);
    hide Hex, HexValue;
    ThreeParts(Hex(timeline, 8), Hex(0, 8), Hex(segment, 8));
  }

  lemma SegmentIsListed(timeline: U32, segment: U32)
    requires timeline != 0
    ensures Classify(SegmentObject(timeline, segment)).Some? && Stored(SegmentObject(timeline, segment))
    ensures var c := Classify(SegmentObject(timeline, segment)).value;
            c.server == SERVER && c.kind == Segment && IdOf(c) == SegmentId(timeline, 0, segment)
  {
    var name, key := SegmentName(timeline, segment), SegmentObject(timeline, segment).key;
    SegmentNameParses(timeline, segment);
    hide SegmentName, Classify, Components, Split, MatchKey;
    assert name + "" == name;
    SegmentKeyClassifies(SegmentObject(timeline, segment), SERVER, name[..16], name, "");
    NoSlash(name, "");
    NoSlash(name[..16], "");
    assert name[..16] + "" == name[..16];
    FourParts(key, SERVER, "wals", name[..16], name);
    OwnKeyIsMatched(key);
  }

  function InfoObject(id: string): Object {
    Object(InfoKey(id), 1, 1)
  }

  lemma InfoIsListed(id: string)
    requires '/' !in id && |id| <= 1_000
    ensures Classify(InfoObject(id)).None? && Stored(InfoObject(id))
  {
    hide Split, MatchKey;
    InfoParts(id);
    OwnKeyIsMatched(InfoKey(id));
  }

  /** The metadata of some backups, then one segment on each of the timelines 1 to n. */
  function Listing(backups: seq<Backup>, n: U32): seq<Object>
    decreases n, |backups|
  {
    if n > 0 then Listing(backups, n - 1) + [SegmentObject(n, 1)]
    else if backups == [] then []
    else Listing(backups[..|backups| - 1], 0) + [InfoObject(backups[|backups| - 1].id)]
  }

  /** Identifiers that fit a key. */
  ghost predicate Keyed(backups: seq<Backup>) {
    forall k :: 0 <= k < |backups| ==> '/' !in backups[k].id && 0 < |backups[k].id| <= 1_000
  }

  lemma LastKeyed(backups: seq<Backup>)
    requires Keyed(backups) && backups != []
    ensures Keyed(backups[..|backups| - 1])
    ensures var id := backups[|backups| - 1].id; '/' !in id && 0 < |id| <= 1_000
  {
  }

  lemma {:induction false} ListingLength(backups: seq<Backup>, n: U32)
    ensures |Listing(backups, n)| == |backups| + n
    decreases n, |backups|
  {
    hide InfoObject, SegmentObject;
    if n > 0 {
      ListingLength(backups, n - 1);
    } else if backups != [] {
      ListingLength(backups[..|backups| - 1], 0);
    }
  }

  lemma {:induction false} ListingStored(backups: seq<Backup>, n: U32)
    requires Keyed(backups)
    ensures forall o :: o in Listing(backups, n) ==> Stored(o)
    decreases n, |backups|
  {
    hide InfoObject, SegmentObject, Stored, Keyed, Classify;
    if n > 0 {
      ListingStored(backups, n - 1);
      SegmentIsListed(n, 1);
    } else if backups != [] {
      LastKeyed(backups);
      ListingStored(backups[..|backups| - 1], 0);
      InfoIsListed(backups[|backups| - 1].id);
    }
  }

  lemma ListingAllStored(backups: seq<Backup>, n: U32)
    requires Keyed(backups) && |backups| + n < 10_000
    ensures AllStored(Listing(backups, n))
  {
    hide Listing, Stored, Keyed;
    ListingLength(backups, n);
    ListingStored(backups, n);
  }

  lemma NothingCollectedYet()
    ensures OfServer([], SERVER) == [] && HistoryRefs([]) == []
  {
  }

  lemma CollectOne(listing: seq<Object>, entry: Object)
    ensures var fact, all := Classify(entry), listing + [entry];
            && (fact.None? ==> OfServer(all, SERVER) == OfServer(listing, SERVER) && HistoryRefs(all) == HistoryRefs(listing))
            && (fact.Some? && fact.value.server == SERVER ==>
                  && OfServer(all, SERVER) == OfServer(listing, SERVER) + [fact.value]
                  && HistoryRefs(all) == HistoryRefs(listing) + if fact.value.kind == History then [HistoryRef(fact.value)] else [])
  {
    hide Classify;
    ListOneMore(listing, entry);
    hide OfServer, HistoryRefs;
  }

  lemma OneMoreEach(objects: seq<Classified>, c: Classified, n: U32)
    requires OneEach(objects, n) && n < MAX_UINT32 && c.kind == Segment && IdOf(c) == SegmentId(n + 1, 0, 1)
    ensures OneEach(objects + [c], n + 1)
  {
  }

  /** One segment each is what the collector makes of it. */
  lemma {:induction false} ListingCollected(backups: seq<Backup>, n: U32)
    requires Keyed(backups)
    ensures OneEach(OfServer(Listing(backups, n), SERVER), n) && HistoryRefs(Listing(backups, n)) == []
    decreases n, |backups|
  {
    hide InfoObject, SegmentObject, Classify, OneEach, OfServer, HistoryRefs, Keyed, Stored;
    if n > 0 {
      ListingCollected(backups, n - 1);
      SegmentIsListed(n, 1);
      CollectOne(Listing(backups, n - 1), SegmentObject(n, 1));
      OneMoreEach(OfServer(Listing(backups, n - 1), SERVER), Classify(SegmentObject(n, 1)).value, n - 1);
    } else if backups != [] {
      LastKeyed(backups);
      var front, id := backups[..|backups| - 1], backups[|backups| - 1].id;
      ListingCollected(front, 0);
      InfoIsListed(id);
      CollectOne(Listing(front, 0), InfoObject(id));
    } else {
      NothingCollectedYet();
      NothingEach();
    }
  }

  lemma NothingEach()
    ensures OneEach([], 0)
  {
  }

  // ---------------------------------------------------------------- its backups

  /** The reader reports these backups of the server, in the order of their identifiers. */
  ghost predicate ReadsAs(backup: DirectoryReader, backups: seq<Backup>) {
    && (forall k :: 0 <= k < |backups| ==>
          backups[k].server == SERVER && '/' !in backups[k].id && backups[k].id != ""
          && forall listed :: backup(SERVER, backups[k].id, listed) == backups[k])
    && forall i, j :: 0 <= i < j < |backups| ==> Less(backups[i].id, backups[j].id)
  }

  function OwnDirectory(id: string): Directory {
    Directory(SERVER, id)
  }

  lemma InfoComposite(id: string)
    requires '/' !in id && id != ""
    ensures CompositeOf(InfoKey(id)) == Some(Composite(OwnDirectory(id))) && CutComposite(Composite(OwnDirectory(id))) == OwnDirectory(id)
    ensures InfoPath(OwnDirectory(id)) == InfoKey(id)
  {
    InfoParts(id);
    hide Split, CutComposite;
    CutOfComposite(OwnDirectory(id));
    assert "s" + "/base/" == "s" + ("/" + ("base" + "/"));
    assert "/backup.info" == "/" + "backup.info";
  }

  lemma {:induction false} GatheredMember(objects: seq<Object>, k: nat, c: string)
    requires k < |objects| && CompositeOf(objects[k].key) == Some(c)
    ensures objects[k] in Gathered(objects, c)
    decreases |objects|
  {
    hide CompositeOf;
    if k < |objects| - 1 {
      GatheredMember(objects[..|objects| - 1], k, c);
    }
  }

  lemma InfoIsRead(infos: seq<Object>, backups: seq<Backup>, backup: DirectoryReader, k: nat)
    requires ReadsAs(backup, backups) && |infos| == |backups| && k < |infos| && infos[k] == InfoObject(backups[k].id)
    ensures CompositeOf(infos[k].key) == Some(Composite(OwnDirectory(backups[k].id)))
    ensures BackupAt(infos, backup, Composite(OwnDirectory(backups[k].id))) == backups[k]
  {
    hide CompositeOf, Composite, CutComposite, InfoKey, InfoPath, Gathered;
    var c := Composite(OwnDirectory(backups[k].id));
    InfoComposite(backups[k].id);
    GatheredMember(infos, k, c);
    var j :| 0 <= j < |Gathered(infos, c)| && Gathered(infos, c)[j] == infos[k];
  }

  /** A listing of metadata objects alone is read as exactly those backups. */
  lemma InfosCatalogued(infos: seq<Object>, backups: seq<Backup>, backup: DirectoryReader)
    requires ReadsAs(backup, backups) && |infos| == |backups| && forall k :: 0 <= k < |infos| ==> infos[k] == InfoObject(backups[k].id)
    ensures CatalogOf(backups, infos, backup)
  {
    hide CompositeOf, Composite, BackupAt, InfoObject, Less;
    forall k | 0 <= k < |infos|
      ensures CompositeOf(infos[k].key) == Some(Composite(OwnDirectory(backups[k].id)))
              && BackupAt(infos, backup, Composite(OwnDirectory(backups[k].id))) == backups[k]
    {
      InfoIsRead(infos, backups, backup, k);
    }
    forall b | b in backups ensures exists c :: HasComposite(infos, c) && b == BackupAt(infos, backup, c) {
      var k :| 0 <= k < |backups| && backups[k] == b;
      assert CompositeOf(infos[k].key) == Some(Composite(OwnDirectory(backups[k].id)));
      assert HasComposite(infos, Composite(OwnDirectory(backups[k].id)));
    }
    forall c | HasComposite(infos, c) ensures BackupAt(infos, backup, c) in backups {
      var k :| 0 <= k < |infos| && CompositeOf(infos[k].key) == Some(c);
      assert backups[k] in backups;
    }
  }

  /** Its metadata objects, and only those, belong to backups. */
  lemma {:induction false} ListingCatalogObjects(backups: seq<Backup>, n: U32)
    requires Keyed(backups)
    ensures CatalogObjects(BarmanMatcher(CONFIGURED), Listing(backups, n)) == Listing(backups, 0)
    decreases n, |backups|
  {
    hide InfoObject, SegmentObject, MatchKey, BackupObject, CatalogObjects, Matched, Recents, Bytes, Keyed;
    if n > 0 {
      ListingCatalogObjects(backups, n - 1);
      SegmentIsNoBackup(n, 1);
      ListingSnoc(BarmanMatcher(CONFIGURED), Listing(backups, n - 1), SegmentObject(n, 1));
    } else if backups != [] {
      LastKeyed(backups);
      var front, id := backups[..|backups| - 1], backups[|backups| - 1].id;
      ListingCatalogObjects(front, 0);
      InfoIsBackup(id);
      ListingSnoc(BarmanMatcher(CONFIGURED), Listing(front, 0), InfoObject(id));
    } else {
      NothingStored();
    }
  }

  lemma {:induction false} InfosAt(backups: seq<Backup>)
    ensures |Listing(backups, 0)| == |backups|
    ensures forall k :: 0 <= k < |backups| ==> Listing(backups, 0)[k] == InfoObject(backups[k].id)
  {
    hide InfoObject;
    if backups != [] {
      InfosAt(backups[..|backups| - 1]);
    }
  }

  /** So exactly those backups are read from it. */
  lemma ListingCatalogued(backups: seq<Backup>, n: U32, backup: DirectoryReader)
    requires Keyed(backups) && ReadsAs(backup, backups)
    ensures Catalogued(backups, Listing(backups, n), backup)
  {
    hide Listing, Keyed, ReadsAs, InfoObject, CatalogOf;
    ListingCatalogObjects(backups, n);
    InfosAt(backups);
    InfosCatalogued(Listing(backups, 0), backups, backup);
  }

  lemma SegmentIsNoBackup(timeline: U32, segment: U32)
    ensures !BackupObject(SegmentObject(timeline, segment).key)
  {
    var name, key := SegmentName(timeline, segment), SegmentObject(timeline, segment).key;
    SegmentNameParses(timeline, segment);
    hide SegmentName, Components, Split;
    NoSlash(name, "");
    NoSlash(name[..16], "");
    assert name + "" == name && name[..16] + "" == name[..16];
    FourParts(key, SERVER, "wals", name[..16], name);
  }

  lemma InfoIsBackup(id: string)
    requires '/' !in id && id != ""
    ensures BackupObject(InfoObject(id).key) && MatchKey(CONFIGURED, InfoObject(id).key).Some?
  {
    hide Split, MatchKey;
    InfoParts(id);
    OwnKeyIsMatched(InfoKey(id));
  }

  // ---------------------------------------------------------------- the refused stores

  /** A reader for stores without backups. */
  function NoBackup(server: string, id: string, listed: seq<Object>): Backup {
    MissingMetadata(Directory(server, id))
  }

  lemma NoneCatalogued(entry: Object)
    requires !BackupObject(entry.key)
    ensures Catalogued([], [entry], NoBackup)
  {
    hide BackupObject, MatchKey;
    assert [entry][..0] == [];
    assert CatalogObjects(BarmanMatcher(CONFIGURED), []) == [];
    assert CatalogObjects(BarmanMatcher(CONFIGURED), [entry]) == [];
  }

  lemma OneStored(entry: Object)
    requires Stored(entry)
    ensures AllStored([entry])
  {
    hide Stored;
  }

  lemma OnlyListed(entry: Object)
    requires Classify(entry).Some? && Classify(entry).value.server == SERVER
    ensures OfServer([entry], SERVER) == [Classify(entry).value]
    ensures HistoryRefs([entry]) == if Classify(entry).value.kind == History then [HistoryRef(Classify(entry).value)] else []
  {
    hide Classify;
    assert [entry][..0] == [];
    assert OfServer([], SERVER) == [] && HistoryRefs([]) == [];
  }

  lemma ControlKeyIsStored()
    ensures Stored(Object(ControlKey(), 1, 1))
  {
    hide Split, MatchKey, ControlKey;
    ControlKeyIsUnprintable();
    OwnKeyIsMatched(ControlKey());
  }

  /** A store with one object whose key ends in a control character. */
  method ControlKeyStore() returns (r: ScanRun)
    ensures Plain(r) && MatchedOf(r) == [Object(ControlKey(), 1, 1)] && !ValidSnapshot(r.s)
  {
    hide Plain, MatchedOf, ControlKey, Classify, AllStored, Catalogued, ValidSnapshot, Unprintable, Findings, Stored, BackupObject;
    var entry := Object(ControlKey(), 1, 1);
    ControlKeyIsListed(1);
    ControlKeyIsStored();
    OneStored(entry);
    ControlKeyIsNoBackup();
    NoneCatalogued(entry);
    OnlyListed(entry);
    r := ScanStore([entry], [], NoBackup, o => Unreadable);
    NothingFound();
    assert OfServer(MatchedOf(r), SERVER)[..0] == [];
    UnprintableIsRefused(r, SERVER, 0);
  }

  lemma ControlKeyIsNoBackup()
    ensures !BackupObject(ControlKey())
  {
    hide Split, ControlKey;
    ControlKeyIsUnprintable();
  }

  lemma NothingFound()
    ensures Findings([]) == []
  {
  }

  lemma HistoryKeyParts(timeline: U32)
    ensures Split(HistoryKey(timeline)) == [SERVER, "wals", Hex(timeline, 8) + ".history"] && |HistoryKey(timeline)| == 23
  {
    hide Split, Hex;
    var digits := Hex(timeline, 8);
    Widths();
    ValueOfHex(timeline, 8);
    NoSlash(digits, "");
    assert digits + "" == digits;
    HistoryParts(HistoryKey(timeline), SERVER, digits + ".history");
  }

  lemma HistoryIsStored(timeline: U32)
    ensures Stored(Object(HistoryKey(timeline), 1, 1))
  {
    hide Split, MatchKey, HistoryKey;
    HistoryKeyParts(timeline);
    OwnKeyIsMatched(HistoryKey(timeline));
  }

  lemma HistoryIsNoBackup(timeline: U32)
    ensures !BackupObject(HistoryKey(timeline))
  {
    hide Split, HistoryKey;
    HistoryKeyParts(timeline);
  }

  /** A store with one history of timeline 1. */
  method EarlyHistoryStore() returns (r: ScanRun)
    ensures Plain(r) && MatchedOf(r) == [Object(HistoryKey(1), 1, 1)] && !ValidSnapshot(r.s)
  {
    hide Plain, MatchedOf, HistoryKey, Classify, AllStored, Catalogued, ValidSnapshot, Stored, BackupObject;
    var entry := Object(HistoryKey(1), 1, 1);
    HistoryIsListed(1, 1);
    HistoryIsStored(1);
    OneStored(entry);
    HistoryIsNoBackup(1);
    NoneCatalogued(entry);
    OnlyListed(entry);
    r := ScanStore([entry], [], NoBackup, o => Unreadable);
    EarlyHistoryIsRefused(r, 0);
  }

  function LongReader(server: string, id: string, listed: seq<Object>): Backup {
    LongBackup()
  }

  lemma OneListed(b: Backup, backup: DirectoryReader)
    requires ReadsAs(backup, [b]) && |b.id| <= 1_000
    ensures Catalogued([b], [InfoObject(b.id)], backup)
  {
    hide InfoObject, SegmentObject, Catalogued;
    assert [b][..0] == [];
    assert Listing([], 0) == [];
    assert Listing([b], 0) == [InfoObject(b.id)];
    ListingCatalogued([b], 0, backup);
  }

  lemma LongBackupIsCatalogued()
    ensures Catalogued([LongBackup()], [InfoObject(LongId())], LongReader)
    ensures Usable(BackupsFor([LongBackup()], SERVER), 0) && |BackupsFor([LongBackup()], SERVER)[0].id| > 256
  {
    hide LongId, InfoObject, BackupsFor, Catalogued;
    LongIdIsPlain();
    OneListed(LongBackup(), LongReader);
    BackupsOfOne([LongBackup()], SERVER);
  }

  /** A store with one healthy backup under an identifier of 257 bytes. */
  method LongIdentifierStore() returns (r: ScanRun)
    ensures Plain(r) && MatchedOf(r) == [InfoObject(LongId())] && r.s.backups == [LongBackup()] && !ValidSnapshot(r.s)
  {
    hide Plain, MatchedOf, InfoObject, LongId, LongBackup, AllStored, Catalogued, ValidSnapshot, Stored, BackupsFor;
    LongIdIsPlain();
    InfoIsListed(LongId());
    OneStored(InfoObject(LongId()));
    LongBackupIsCatalogued();
    r := ScanStore([InfoObject(LongId())], [LongBackup()], LongReader, o => Unreadable);
    LongIdentifierIsRefused(r, SERVER);
  }

  function TwinReader(server: string, id: string, listed: seq<Object>): Backup {
    Twin(if |id| > 0 then |id| - 1 else 0)
  }

  lemma {:induction false} LongerIsLater(i: nat, j: nat)
    requires i < j
    ensures Less(seq(i, _ => 'a'), seq(j, _ => 'a'))
  {
    if i > 0 {
      LongerIsLater(i - 1, j - 1);
      assert seq(i, _ => 'a')[1..] == seq(i - 1, _ => 'a') && seq(j, _ => 'a')[1..] == seq(j - 1, _ => 'a');
    }
  }

  lemma TwinIdentifier(k: nat)
    ensures Twin(k).id == seq(k + 1, _ => 'a') && '/' !in Twin(k).id && |Twin(k).id| == k + 1 && Twin(k).server == SERVER
  {
    hide WalRanges.NameOr;
  }

  lemma TwinsAreRead(n: nat)
    ensures ReadsAs(TwinReader, Twins(n))
  {
    forall k | 0 <= k < n ensures Twins(n)[k] == Twin(k) && '/' !in Twin(k).id && |Twin(k).id| == k + 1 && Twin(k).server == SERVER {
      TwinIdentifier(k);
    }
    forall i, j | 0 <= i < j < n ensures Less(Twins(n)[i].id, Twins(n)[j].id) {
      TwinIdentifier(i);
      TwinIdentifier(j);
      LongerIsLater(i + 1, j + 1);
    }
    hide Twin, Less;
  }

  lemma TwinsAreKeyed(n: nat)
    requires 0 < n <= 1_000
    ensures Keyed(Twins(n)) && |Twins(n)| == n && ContextOf(Twins(n), SERVER) == Known(150_000, DEFAULT_SEGMENT_SIZE)
  {
    forall k | 0 <= k < n ensures Twins(n)[k] == Twin(k) && '/' !in Twin(k).id && |Twin(k).id| == k + 1 {
      TwinIdentifier(k);
    }
    hide Twin;
    TwinsInform(Twins(n));
    hide ContextOf;
  }

  /** The scan of a store with the metadata of some of these backups and one segment on each of n timelines. */
  method ScanListing(backups: nat, n: U32) returns (r: ScanRun)
    requires 0 < backups <= 1_000 && 1 <= n <= 5_000
    ensures SeesMany(r, n) && MatchedOf(r) == Listing(Twins(backups), n) && r.s.backups == Twins(backups)
  {
    hide Plain, MatchedOf, Listing, Twins, AllStored, Catalogued, ContextOf, OneEach, OfServer, HistoryRefs, Keyed;
    TwinsAreKeyed(backups);
    TwinsAreRead(backups);
    ListingLength(Twins(backups), n);
    ListingAllStored(Twins(backups), n);
    ListingCollected(Twins(backups), n);
    ListingCatalogued(Twins(backups), n, TwinReader);
    r := ScanStore(Listing(Twins(backups), n), Twins(backups), TwinReader, o => Unreadable);
  }

  /** A store with one backup and WAL on 1,002 timelines, without a single history. */
  method ManyHistoriesStore() returns (r: ScanRun)
    ensures Plain(r) && MatchedOf(r) == Listing(Twins(1), 1_002) && r.s.backups == Twins(1) && !ValidSnapshot(r.s)
  {
    hide SeesMany, MatchedOf, Listing, Twins, ValidSnapshot, Plain;
    r := ScanListing(1, 1_002);
    SeesPlain(r, 1_002);
    ManyHistoriesAreRefused(r, 1_002);
  }

  /** A store with 102 backups of timeline 1 and WAL on 99 timelines, without a single history. */
  method ManyPathsStore() returns (r: ScanRun)
    ensures Plain(r) && MatchedOf(r) == Listing(Twins(102), 99) && r.s.backups == Twins(102) && !ValidSnapshot(r.s)
  {
    hide SeesMany, MatchedOf, Listing, Twins, ValidSnapshot, Plain;
    r := ScanListing(102, 99);
    SeesPlain(r, 99);
    ManyPathsAreRefused(r);
  }
}
