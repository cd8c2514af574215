// WALCatalog.Validate, and that a finished catalog passes it (wal.go).
module WalValidation {
  import opened Results
  import opened Store
  import opened Text
  import opened WalNames
  import opened WalClassify
  import opened WalCollector
  import opened WalRanges
  import opened WalGaps
  import opened WalCatalog
  import opened WalEvidence
  import opened Backups
  import Evidence

  const MAX_SERVERS := 1_000

  /** A control character starts at byte `k`: below 0x20, DEL, or the two bytes of one of U+0080 to U+009F. */
  predicate ControlAt(s: string, k: nat)
    requires k < |s|
  {
    s[k] as int < 0x20 || s[k] as int == 0x7F || (s[k] as int == 0xC2 && k + 1 < |s| && 0x80 <= s[k + 1] as int <= 0x9F)
  }

  /** `strings.IndexFunc(s, unicode.IsControl) < 0`. */
  predicate ControlFree(s: string) {
    forall k :: 0 <= k < |s| ==> !ControlAt(s, k)
  }

  /** `validDiscoveredName`. */
  predicate ValidName(name: string) {
    && name != "" && name != "." && name != ".." && |name| <= 128
    && '/' !in name && '\\' !in name && ControlFree(name)
  }

  predicate ValidContext(version: int, size: int) {
    version >= MIN_POSTGRES_VERSION && ValidSegmentSize(size)
  }

  predicate ValidRange(r: WalRange, size: int) {
    && r.timeline != 0 && r.end != MAX_UINT64 && r.end >= r.start && r.count == Span(r.start, r.end)
    && WalName(r.timeline, r.start, size) == Ok(r.first) && WalName(r.timeline, r.end, size) == Ok(r.last)
  }

  predicate ValidGap(g: WalGap, size: int) {
    && g.timeline != 0 && g.end != MAX_UINT64 && g.end >= g.start && g.count == Span(g.start, g.end)
    && WalName(g.timeline, g.start, size) == Ok(g.first) && WalName(g.timeline, g.end, size) == Ok(g.last)
    && g.firstObserved != 0 && g.lastObserved >= g.firstObserved
    && (g.status == Candidate ==> g.lastObserved == g.firstObserved)
    && (g.status == Confirmed ==> g.lastObserved != g.firstObserved)
  }

  predicate ValidDiagnostic(d: Diagnostic) {
    d.key != "" && |d.key| <= MAX_KEY_BYTES && ControlFree(d.key) && |d.name| <= MAX_KEY_BYTES
  }

  predicate NonNegative(c: Counts) {
    c.segments >= 0 && c.partials >= 0 && c.history >= 0 && c.backupHistory >= 0 && c.unknown >= 0 && c.duplicates >= 0
  }

  predicate Uncertain(s: ServerWal) {
    s.rangesTruncated || s.diagnosticsTruncated || s.counts.duplicates > 0 || s.counts.unknown > 0
  }

  /** The scalar checks on one server entry. */
  predicate ValidSummary(s: ServerWal) {
    && s.postgresVersion >= 0 && s.segmentSize >= 0 && (s.postgresVersion == 0 <==> s.segmentSize == 0)
    && (s.postgresVersion != 0 ==> ValidContext(s.postgresVersion, s.segmentSize))
    && NonNegative(s.counts)
    && (s.ranges != [] || s.gaps != [] || s.state != Evidence.Unknown ==> ValidContext(s.postgresVersion, s.segmentSize))
    && (Uncertain(s) ==> s.state == Evidence.Unknown)
  }

  /** The checks on its bounded lists. */
  predicate ValidLists(s: ServerWal) {
    && |s.ranges| <= MAX_WAL_RANGES && |s.gaps| <= MAX_WAL_RANGES && |s.diagnostics| <= MAX_WAL_DIAGNOSTICS
    && (forall k :: 0 <= k < |s.ranges| ==> ValidRange(s.ranges[k], s.segmentSize))
    && (forall i, j :: 0 <= i < |s.ranges| && i < j < |s.ranges| && j == i + 1 ==>
          s.ranges[i].timeline < s.ranges[j].timeline
          || (s.ranges[i].timeline == s.ranges[j].timeline && s.ranges[i].end < s.ranges[j].start))
    && (forall g :: g in s.gaps ==> ValidGap(g, s.segmentSize))
    && (forall k :: 0 <= k < |s.diagnostics| ==> ValidDiagnostic(s.diagnostics[k]))
  }

  predicate ValidServer(s: ServerWal) {
    ValidName(s.server) && ValidSummary(s) && ValidLists(s)
  }

  predicate ValidCatalog(c: Catalog) {
    && |c.servers| <= MAX_SERVERS
    && (forall k :: 0 <= k < |c.servers| ==> ValidServer(c.servers[k]))
    && (forall i, j :: 0 <= i < |c.servers| && i < j < |c.servers| && j == i + 1 ==> Less(c.servers[i].server, c.servers[j].server))
  }

  // ---------------------------------------------------------------- a finished catalog is valid

  /** Every gap of the previous catalog was first seen in an earlier generation. */
  ghost predicate ObservedBefore(gaps: seq<WalGap>, generation: U64) {
    forall k :: 0 <= k < |gaps| ==> 0 < gaps[k].firstObserved < generation
  }

  lemma NameableBelow(p: U64, q: U64, size: int)
    requires p <= q && Nameable(q, size)
    ensures Nameable(p, size)
  {
  }

  lemma GapIsValid(left: WalRange, right: WalRange, previous: seq<WalGap>, size: int, generation: U64)
    requires Gapped(left, right) && left.timeline != 0 && Shaped(left, size) && Shaped(right, size)
    requires ObservedBefore(previous, generation) && generation > 0
    ensures ValidGap(GapBetween(left, right, previous, size, generation), size)
  {
    hide WalName, Nameable;
    NameableBelow(left.end + 1, right.start, size);
    NameableBelow(right.start - 1, right.start, size);
    NameableIffNamed(left.timeline, left.end + 1, size);
    NameableIffNamed(left.timeline, right.start - 1, size);
  }

  lemma GapsAreValid(ranges: seq<WalRange>, previous: seq<WalGap>, size: int, generation: U64)
    requires Canonical(ranges) && (forall k :: 0 <= k < |ranges| ==> Shaped(ranges[k], size))
    requires ObservedBefore(previous, generation) && generation > 0
    ensures forall g :: g in GapsOf(ranges, previous, size, generation) ==> ValidGap(g, size)
  {
    var gaps := GapsOf(ranges, previous, size, generation);
    forall k | 0 <= k < |gaps| ensures ValidGap(gaps[k], size) {
      hide GapsOf, ValidGap, Shaped;
      var i := GapHasNeighbours(ranges, previous, size, generation, k);
      GapIsValid(ranges[i - 1], ranges[i], previous, size, generation);
    }
  }

  lemma {:induction false} MergedLength(raws: seq<RawRange>, size: int)
    ensures |Merged(raws, size)| <= |raws|
  {
    if raws != [] {
      MergedLength(raws[..|raws| - 1], size);
    }
  }

  predicate BoundedKey(key: string) {
    key != "" && |key| <= MAX_KEY_BYTES
  }

  /** What the listing can hold of one server: bounded keys, with control characters in unrecognised ones alone. */
  predicate PlainlyNamed(objects: seq<Classified>) {
    forall k :: 0 <= k < |objects| ==>
      && BoundedKey(objects[k].key) && |objects[k].name| <= MAX_KEY_BYTES
      && (objects[k].kind != UnknownClass ==> ControlFree(objects[k].key))
  }

  /** An unrecognised key with a control character comes only once the diagnostics are full. */
  ghost predicate PlainReports(objects: seq<Classified>) {
    forall k :: 0 <= k < |objects| && Unprintable(objects[k]) ==> |Findings(objects[..k])| >= MAX_WAL_DIAGNOSTICS
  }

  predicate Unprintable(c: Classified) {
    c.kind == UnknownClass && !ControlFree(c.key)
  }

  predicate PlainFindings(findings: seq<Diagnostic>) {
    forall k :: 0 <= k < |findings| ==> ControlFree(findings[k].key)
  }

  lemma PlainMore(findings: seq<Diagnostic>, more: seq<Diagnostic>, limit: nat)
    requires |more| <= 1
    ensures PlainFindings(Keep(findings + more, limit)) <==>
            PlainFindings(Keep(findings, limit)) && (|findings| >= limit || PlainFindings(more))
  {
    hide ControlFree;
    var kept, all := Keep(findings, limit), Keep(findings + more, limit);
    if |findings| >= limit {
      assert all == kept;
    } else {
      assert all == findings + more && kept == findings;
      assert forall k :: 0 <= k < |findings| ==> all[k] == findings[k];
      assert forall k :: 0 <= k < |more| ==> all[|findings| + k] == more[k];
    }
  }

  lemma ReportsMore(front: seq<Classified>, c: Classified)
    ensures PlainReports(front + [c]) <==>
            PlainReports(front) && (Unprintable(c) ==> |Findings(front)| >= MAX_WAL_DIAGNOSTICS)
  {
    hide Findings, ControlFree;
    var all := front + [c];
    assert all[..|front|] == front;
    assert forall k :: 0 <= k < |front| ==> all[k] == front[k] && all[..k] == front[..k];
    assert all[|front|] == c;
  }

  /** What one more object adds to the findings. */
  function Reports(front: seq<Classified>, c: Classified): (r: seq<Diagnostic>)
    ensures |r| <= 1
  {
    if c.kind == Segment then StepFindings(Run(SegmentsIn(front)), c) else [DiagnosticOf(c)]
  }

  lemma ReportsPlainIff(front: seq<Classified>, c: Classified)
    requires c.kind != UnknownClass ==> ControlFree(c.key)
    ensures PlainFindings(Reports(front, c)) <==> !Unprintable(c)
  {
    hide ControlFree, Run, SegmentsIn;
    if Unprintable(c) {
      assert Reports(front, c)[0].key == c.key;
    }
  }

  /** The keys that are kept are plain exactly in that case. */
  lemma {:induction false} KeptArePlainIff(objects: seq<Classified>)
    requires PlainlyNamed(objects)
    ensures PlainFindings(Keep(Findings(objects), MAX_WAL_DIAGNOSTICS)) <==> PlainReports(objects)
  {
    hide PlainReports, Run, SegmentsIn, StepFindings, Unprintable, ControlFree;
    if objects != [] {
      var n := |objects| - 1;
      var front, c := objects[..n], objects[n];
      KeptArePlainIff(front);
      OneMore(front, c);
      assert objects == front + [c];
      ReportsPlainIff(front, c);
      PlainMore(Findings(front), Reports(front, c), MAX_WAL_DIAGNOSTICS);
      ReportsMore(front, c);
    } else {
      NothingReported();
    }
  }

  lemma NothingReported()
    ensures PlainReports([])
  {
  }

  lemma FindingValidIff(objects: seq<Classified>, k: nat)
    requires PlainlyNamed(objects) && k < |Findings(objects)|
    ensures ValidDiagnostic(Findings(objects)[k]) <==> ControlFree(Findings(objects)[k].key)
  {
    hide Findings, Run, ControlFree;
    FindingsQuote(objects);
    assert Quotes(Findings(objects)[k], objects);
  }

  lemma DiagnosticsValidIff(objects: seq<Classified>)
    requires PlainlyNamed(objects)
    ensures (forall k :: 0 <= k < |FactsOf(objects).diagnostics| ==> ValidDiagnostic(FactsOf(objects).diagnostics[k]))
            <==> PlainReports(objects)
  {
    hide Findings, Run, Quotes, ValidDiagnostic, SegmentsIn, CountKind, PlainReports, ControlFree, PlainlyNamed, Keep;
    KeptArePlainIff(objects);
    var findings, kept := Findings(objects), FactsOf(objects).diagnostics;
    assert kept == Keep(findings, MAX_WAL_DIAGNOSTICS);
    forall k | 0 <= k < |kept| ensures ValidDiagnostic(kept[k]) <==> ControlFree(kept[k].key) {
      assert kept[k] == findings[k];
      FindingValidIff(objects, k);
    }
  }

  lemma CountsAreValid(objects: seq<Classified>)
    requires WellKinded(objects)
    ensures NonNegative(FactsOf(objects).counts) && |FactsOf(objects).ranges| <= MAX_WAL_RANGES
    ensures Ordered(FactsOf(objects).ranges)
  {
    SegmentsWellKinded(objects);
    RunCompacts(SegmentsIn(objects));
    hide Findings, Run, SegmentsIn, Covered, Named, Keep;
  }

  lemma ContextIsValid(backups: seq<Backup>, server: string)
    ensures var context := ContextOf(backups, server);
            context.Known? ==> ValidContext(context.version, context.size)
  {
    ContextKnownIff(backups, server);
    hide ContextAfter, ValidSegmentSize;
  }

  lemma RangesAreValid(ranges: seq<WalRange>, size: int)
    requires Canonical(ranges) && forall k :: 0 <= k < |ranges| ==> Shaped(ranges[k], size)
    ensures forall k :: 0 <= k < |ranges| ==> ValidRange(ranges[k], size)
    ensures forall i, j :: 0 <= i < j < |ranges| ==>
              ranges[i].timeline < ranges[j].timeline
              || (ranges[i].timeline == ranges[j].timeline && ranges[i].end < ranges[j].start)
  {
    hide WalName, Nameable;
    forall i, j | 0 <= i < j < |ranges|
      ensures ranges[i].timeline < ranges[j].timeline
              || (ranges[i].timeline == ranges[j].timeline && ranges[i].end < ranges[j].start)
    {
      assert RangeBefore(ranges[i], ranges[j]);
    }
  }

  lemma SummaryIsValid(server: string, facts: ServerFacts, context: Context, previous: seq<WalGap>, generation: U64)
    requires NonNegative(facts.counts)
    requires !context.Pending? && (context.Known? ==> ValidContext(context.version, context.size))
    ensures ValidSummary(ServerResult(server, facts, context, previous, generation))
  {
    assert context.Known? ==> context.size > 0;
    hide Merged, GapsOf, ValidSegmentSize, HasStatus, AnyMisplaced, LatestOf, NonNegative;
  }

  lemma ListsValidIff(server: string, facts: ServerFacts, context: Context, previous: seq<WalGap>, generation: U64)
    requires !context.Pending? && Ordered(facts.ranges) && |facts.ranges| <= MAX_WAL_RANGES
    requires |facts.diagnostics| <= MAX_WAL_DIAGNOSTICS
    requires ObservedBefore(previous, generation) && generation > 0
    ensures ValidLists(ServerResult(server, facts, context, previous, generation)) <==>
            forall k :: 0 <= k < |facts.diagnostics| ==> ValidDiagnostic(facts.diagnostics[k])
  {
    hide Canonical, Shaped, EndsAt, Observed, RawObserved, Ordered, Merged, GapsOf, ValidRange, ValidGap, ObservedBefore,
         LatestOf, VerdictOf, AnyMisplaced, ValidDiagnostic;
    if context.Known? {
      var ranges := Merged(facts.ranges, context.size);
      MergedCorrect(facts.ranges, context.size);
      MergedLength(facts.ranges, context.size);
      RangesAreValid(ranges, context.size);
      GapsAreValid(ranges, previous, context.size, generation);
    }
  }

  lemma ServerValidIff(server: string, objects: seq<Classified>, context: Context, previous: seq<WalGap>, generation: U64)
    requires ValidName(server) && WellKinded(objects) && PlainlyNamed(objects)
    requires !context.Pending? && (context.Known? ==> ValidContext(context.version, context.size))
    requires ObservedBefore(previous, generation) && generation > 0
    ensures ValidServer(ServerResult(server, FactsOf(objects), context, previous, generation)) <==> PlainReports(objects)
  {
    var facts := FactsOf(objects);
    DiagnosticsValidIff(objects);
    CountsAreValid(objects);
    assert |facts.diagnostics| <= MAX_WAL_DIAGNOSTICS;
    hide FactsOf, Ordered, ValidName, NonNegative, ValidDiagnostic, ValidSummary, ValidLists, ServerResult, ObservedBefore,
         WellKinded, PlainlyNamed, ValidContext, PlainReports;
    SummaryIsValid(server, facts, context, previous, generation);
    ListsValidIff(server, facts, context, previous, generation);
    ResultServer(server, facts, context, previous, generation);
  }

  // ---------------------------------------------------------------- recognised keys are plain

  lemma AsciiIsPlain(s: string)
    requires Ascii(s)
    ensures ControlFree(s)
  {
  }

  /** A slash never completes a control character. */
  lemma SlashKeepsPlain(a: string, b: string)
    requires ControlFree(a) && ControlFree(b)
    ensures ControlFree(a + "/" + b)
  {
    var s := a + "/" + b;
    forall k | 0 <= k < |s| ensures !ControlAt(s, k) {
      if k < |a| {
        assert !ControlAt(a, k) && s[k] == a[k] && (k + 1 < |a| ==> s[k + 1] == a[k + 1]);
      } else if k > |a| {
        var j := k - |a| - 1;
        assert !ControlAt(b, j) && s[k] == b[j] && (j + 1 < |b| ==> s[k + 1] == b[j + 1]);
      }
    }
  }

  lemma {:induction false} JoinIsPlain(parts: seq<string>)
    requires |parts| > 0 && forall k :: 0 <= k < |parts| ==> ControlFree(parts[k])
    ensures ControlFree(Join(parts))
  {
    hide ControlFree;
    if |parts| > 1 {
      JoinIsPlain(parts[1..]);
      SlashKeepsPlain(parts[0], Join(parts[1..]));
    }
  }

  /** Whatever is recognised has a key of plain parts. */
  lemma RecognisedIsPlain(entry: Object)
    requires Classify(entry).Some? && Classify(entry).value.kind != UnknownClass && ControlFree(Classify(entry).value.server)
    ensures ControlFree(entry.key)
  {
    var parts := Split(entry.key);
    RecognisedParts(entry);
    JoinOfSplit(entry.key);
    forall k | 1 <= k < |parts| ensures ControlFree(parts[k]) {
      AsciiIsPlain(parts[k]);
    }
    hide Classify, ControlFree, Ascii;
    JoinIsPlain(parts);
  }

  lemma ClassifiedIsPlain(entry: Object)
    requires Classify(entry).Some? && BoundedKey(entry.key) && ControlFree(Classify(entry).value.server)
    ensures PlainlyNamed([Classify(entry).value])
  {
    hide Classify, ControlFree;
    ClassifiedKind(entry);
    if Classify(entry).value.kind != UnknownClass {
      RecognisedIsPlain(entry);
    }
  }

  lemma {:induction false} ListedPlainlyNamed(listing: seq<Object>, server: string)
    requires forall k :: 0 <= k < |listing| ==> BoundedKey(listing[k].key)
    requires ControlFree(server)
    ensures PlainlyNamed(OfServer(listing, server))
  {
    hide Classify, ControlFree, BoundedKey;
    if listing != [] {
      var n := |listing| - 1;
      assert forall k :: 0 <= k < n ==> listing[..n][k] == listing[k];
      ListedPlainlyNamed(listing[..n], server);
      var fact := Classify(listing[n]);
      if fact.Some? && fact.value.server == server {
        ClassifiedIsPlain(listing[n]);
        assert [fact.value][0] == fact.value;
      }
    }
  }

  // ---------------------------------------------------------------- the whole catalog

  /** No unrecognised key with a control character is among the first two hundred findings about its server. */
  ghost predicate Printable(listing: seq<Object>) {
    forall s :: PlainReports(OfServer(listing, s))
  }

  /**
   * The catalog of a complete scan passes Validate exactly when no unrecognised key with a control character is kept as a
   * diagnostic. Everything else Validate asks for follows from valid names, bounded keys, and inherited gaps that were
   * first seen in an earlier generation.
   */
  lemma FinishedValidIff(result: Catalog, listing: seq<Object>, backups: seq<Backup>, previous: Catalog, generation: U64)
    requires Finished(result, listing, backups, previous, generation) && generation > 0
    requires |result.servers| <= MAX_SERVERS
    requires forall s :: Reported(listing, backups, s) ==> ValidName(s)
    requires forall k :: 0 <= k < |listing| ==> BoundedKey(listing[k].key)
    requires forall s :: ObservedBefore(PreviousGaps(previous, s), generation)
    ensures ValidCatalog(result) <==> Printable(listing)
  {
    hide Finished, ValidServer, Reported, ObservedBefore, PreviousGaps, Printable, ValidName, BoundedKey;
    ServersAscend(result, listing, backups, previous, generation);
    EntriesPrintableIff(result, listing, backups, previous, generation);
    forall k | 0 <= k < |result.servers| ensures ValidServer(result.servers[k]) <==> EntryIsPlain(result, listing, k) {
      FinishedEntryValidIff(result, listing, backups, previous, generation, k);
    }
    hide EntryIsPlain;
  }

  ghost predicate EntryIsPlain(result: Catalog, listing: seq<Object>, k: int) {
    0 <= k < |result.servers| ==> PlainReports(OfServer(listing, result.servers[k].server))
  }

  /** Only reported servers have anything to print. */
  lemma EntriesPrintableIff(result: Catalog, listing: seq<Object>, backups: seq<Backup>, previous: Catalog, generation: U64)
    requires Finished(result, listing, backups, previous, generation)
    ensures Printable(listing) <==> forall k :: 0 <= k < |result.servers| ==> EntryIsPlain(result, listing, k)
  {
    hide FinishedServer, Reported, PlainReports, OfServer;
    if forall k :: 0 <= k < |result.servers| ==> EntryIsPlain(result, listing, k) {
      forall s ensures PlainReports(OfServer(listing, s)) {
        UnreportedIsPlain(listing, backups, s);
        if Reported(listing, backups, s) {
          var k :| 0 <= k < |result.servers| && result.servers[k].server == s;
          assert EntryIsPlain(result, listing, k);
        }
      }
    }
  }

  lemma UnreportedIsPlain(listing: seq<Object>, backups: seq<Backup>, server: string)
    ensures Reported(listing, backups, server) || PlainReports(OfServer(listing, server))
  {
    if !Reported(listing, backups, server) {
      assert OfServer(listing, server) == [];
    }
    hide OfServer;
  }

  lemma ServersAscend(result: Catalog, listing: seq<Object>, backups: seq<Backup>, previous: Catalog, generation: U64)
    requires Finished(result, listing, backups, previous, generation)
    ensures forall i, j :: 0 <= i < j < |result.servers| ==> Less(result.servers[i].server, result.servers[j].server)
  {
    hide FinishedServer, Reported;
    forall i, j | 0 <= i < j < |result.servers| ensures Less(result.servers[i].server, result.servers[j].server) {
      assert ServerBefore(result.servers[i], result.servers[j]);
    }
  }

  lemma FinishedEntryValidIff(result: Catalog, listing: seq<Object>, backups: seq<Backup>, previous: Catalog, generation: U64, k: nat)
    requires Finished(result, listing, backups, previous, generation) && generation > 0 && k < |result.servers|
    requires forall s :: Reported(listing, backups, s) ==> ValidName(s)
    requires forall k :: 0 <= k < |listing| ==> BoundedKey(listing[k].key)
    requires forall s :: ObservedBefore(PreviousGaps(previous, s), generation)
    ensures ValidServer(result.servers[k]) <==> EntryIsPlain(result, listing, k)
  {
    hide Reported, FactsOf, OfServer, ServerResult, ObservedBefore, PreviousGaps, PlainlyNamed, WellKinded, ValidServer,
         ValidSegmentSize, ContextOf, PlainReports, ControlFree;
    var s := result.servers[k].server;
    assert ControlFree(s);
    ListedWellKinded(listing, s);
    ListedPlainlyNamed(listing, s);
    ContextIsValid(backups, s);
    ServerValidIff(s, OfServer(listing, s), ContextOf(backups, s), PreviousGaps(previous, s), generation);
  }

  /** So a listing with nothing but plain keys always passes. */
  lemma FinishedIsValid(result: Catalog, listing: seq<Object>, backups: seq<Backup>, previous: Catalog, generation: U64)
    requires Finished(result, listing, backups, previous, generation) && generation > 0
    requires |result.servers| <= MAX_SERVERS
    requires forall s :: Reported(listing, backups, s) ==> ValidName(s)
    requires forall k :: 0 <= k < |listing| ==> BoundedKey(listing[k].key) && ControlFree(listing[k].key)
    requires forall s :: ObservedBefore(PreviousGaps(previous, s), generation)
    ensures ValidCatalog(result)
  {
    hide Finished, Reported, ValidName, ObservedBefore, PreviousGaps, ValidCatalog, OfServer, ControlFree, Findings, BoundedKey;
    FinishedValidIff(result, listing, backups, previous, generation);
    forall s ensures PlainReports(OfServer(listing, s)) {
      ListedKeys(listing, s);
    }
  }

  lemma {:induction false} ListedKeys(listing: seq<Object>, server: string)
    ensures forall c :: c in OfServer(listing, server) ==>
              exists k :: 0 <= k < |listing| && Classify(listing[k]) == Some(c) && listing[k].key == c.key
  {
    if listing != [] {
      var n := |listing| - 1;
      ListedKeys(listing[..n], server);
      if Classify(listing[n]).Some? {
        ClassifiedKind(listing[n]);
      }
      hide Classify;
      forall c | c in OfServer(listing, server)
        ensures exists k :: 0 <= k < |listing| && Classify(listing[k]) == Some(c) && listing[k].key == c.key
      {
        if c in OfServer(listing[..n], server) {
          var k :| 0 <= k < n && Classify(listing[..n][k]) == Some(c) && listing[..n][k].key == c.key;
          assert listing[k] == listing[..n][k];
        } else {
          assert Classify(listing[n]) == Some(c);
        }
      }
    }
  }
}
