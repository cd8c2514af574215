// The two-complete-scan lifecycle of a gap, over every sequence of published complete scans (wal.go, scanner.go).
module GapLifecycle {
  import opened Results
  import opened Store
  import opened WalRanges
  import opened WalGaps
  import opened WalCatalog
  import opened WalCollector
  import opened WalValidation
  import opened Backups

  /** One complete scan whose snapshot was published. */
  datatype CompleteScan = CompleteScan(generation: U64, listing: seq<Object>, backups: seq<Backup>, wal: Catalog)

  /** The catalog a scan finished against: that of the last published complete scan, empty before the first. */
  function LastWal(scans: seq<CompleteScan>): Catalog {
    if scans == [] then Catalog([]) else scans[|scans| - 1].wal
  }

  ghost predicate FinishedAt(scans: seq<CompleteScan>, k: int) {
    && 0 <= k < |scans| && scans[k].generation > 0
    && Finished(scans[k].wal, scans[k].listing, scans[k].backups, LastWal(scans[..k]), scans[k].generation)
  }

  /** Each scan finished against its predecessor, in strictly increasing generations. */
  ghost predicate Chain(scans: seq<CompleteScan>) {
    && (forall k :: 0 <= k < |scans| ==> FinishedAt(scans, k))
    && (forall i, j :: 0 <= i < j < |scans| ==> scans[i].generation < scans[j].generation)
  }

  /** A gap of one server, by timeline and bounds. */
  datatype GapKey = GapKey(server: string, timeline: U32, start: U64, end: U64)

  function KeyOf(server: string, g: WalGap): GapKey {
    GapKey(server, g.timeline, g.start, g.end)
  }

  ghost predicate Holds(wal: Catalog, key: GapKey) {
    exists k :: 0 <= k < |PreviousGaps(wal, key.server)|
                && SameGap(PreviousGaps(wal, key.server)[k], key.timeline, key.start, key.end)
  }

  /** The generation that began the unbroken run of published complete scans holding this gap. */
  ghost function RunStart(scans: seq<CompleteScan>, key: GapKey): U64
    requires scans != []
  {
    var n := |scans| - 1;
    if n > 0 && Holds(scans[n - 1].wal, key) then RunStart(scans[..n], key) else scans[n].generation
  }

  /** What one gap of the newest catalog records about the scans so far. */
  ghost predicate Faithful(scans: seq<CompleteScan>, server: string, g: WalGap)
    requires scans != []
  {
    var n := |scans| - 1;
    && (g.status == Confirmed <==> n > 0 && Holds(scans[n - 1].wal, KeyOf(server, g)))
    && g.firstObserved == RunStart(scans, KeyOf(server, g))
    && g.lastObserved == scans[n].generation
    && 0 < g.firstObserved <= g.lastObserved
    && (g.firstObserved < g.lastObserved <==> g.status == Confirmed)
  }

  /** The gaps a finished catalog holds for a server are those of its ranges against the previous catalog. */
  lemma GapsOfFinished(wal: Catalog, listing: seq<Object>, backups: seq<Backup>, previous: Catalog, generation: U64, server: string)
    returns (ranges: seq<WalRange>, size: int)
    requires Finished(wal, listing, backups, previous, generation)
    ensures PreviousGaps(wal, server) == GapsOf(ranges, PreviousGaps(previous, server), size, generation)
  {
    hide Merged, GapsOf, Reported, FactsOf, OfServer, ContextOf;
    var found := FindServer(wal, server);
    if found.None? || ContextOf(backups, server).Rejected? {
      ranges, size := [], 0;
      EmptyGaps(PreviousGaps(previous, server), generation);
    } else {
      size := ContextOf(backups, server).size;
      ranges := Merged(FactsOf(OfServer(listing, server)).ranges, size);
    }
  }

  lemma EmptyGaps(previous: seq<WalGap>, generation: U64)
    ensures GapsOf([], previous, 0, generation) == []
  {
  }

  /** One gap of a finished list, read against the previous list. */
  lemma GapStep(ranges: seq<WalRange>, previous: seq<WalGap>, size: int, generation: U64, k: nat)
    requires k < |GapsOf(ranges, previous, size, generation)|
    ensures var g := GapsOf(ranges, previous, size, generation)[k];
            var known := FindGap(previous, g.timeline, g.start, g.end);
            && (g.status == Confirmed <==> known.Some?)
            && g.firstObserved == (if known.Some? then known.value.firstObserved else generation)
            && g.lastObserved == generation
  {
    hide GapsOf;
    var i := GapHasNeighbours(ranges, previous, size, generation, k);
  }

  lemma NothingBefore(server: string)
    ensures PreviousGaps(Catalog([]), server) == []
  {
  }

  /**
   * Over every chain of published complete scans, a gap is confirmed exactly when the previous one already held it,
   * its first generation began the unbroken run, and its last generation is the newest.
   */
  lemma {:induction false} GapsAreFaithful(scans: seq<CompleteScan>, server: string, k: nat)
    requires Chain(scans) && scans != [] && k < |PreviousGaps(LastWal(scans), server)|
    ensures Faithful(scans, server, PreviousGaps(LastWal(scans), server)[k])
    decreases |scans|
  {
    hide Finished, PreviousGaps, GapsOf, FindGap;
    var n := |scans| - 1;
    var scan, previous := scans[n], LastWal(scans[..n]);
    assert FinishedAt(scans, n);
    var ranges, size := GapsOfFinished(scan.wal, scan.listing, scan.backups, previous, scan.generation, server);
    var g := PreviousGaps(scan.wal, server)[k];
    GapStep(ranges, PreviousGaps(previous, server), size, scan.generation, k);
    var known := FindGap(PreviousGaps(previous, server), g.timeline, g.start, g.end);
    if n == 0 {
      NothingBefore(server);
    } else {
      assert previous == scans[n - 1].wal;
      assert known.Some? <==> Holds(previous, KeyOf(server, g));
      if known.Some? {
        var j :| 0 <= j < |PreviousGaps(previous, server)| && PreviousGaps(previous, server)[j] == known.value;
        ChainPrefix(scans, n);
        GapsAreFaithful(scans[..n], server, j);
        assert scans[..n][n - 1] == scans[n - 1];
      }
    }
  }

  lemma ChainPrefix(scans: seq<CompleteScan>, n: nat)
    requires Chain(scans) && n <= |scans|
    ensures Chain(scans[..n])
  {
    hide Finished;
    forall k | 0 <= k < n ensures FinishedAt(scans[..n], k) {
      assert FinishedAt(scans, k) && scans[..n][..k] == scans[..k] && scans[..n][k] == scans[k];
    }
  }

  /** One more scan, finished against the last one in a later generation. */
  lemma ChainGrows(scans: seq<CompleteScan>, scan: CompleteScan)
    requires Chain(scans) && scan.generation > 0 && (scans != [] ==> scans[|scans| - 1].generation < scan.generation)
    requires Finished(scan.wal, scan.listing, scan.backups, LastWal(scans), scan.generation)
    ensures Chain(scans + [scan]) && LastWal(scans + [scan]) == scan.wal
  {
    hide Finished;
    var all, n := scans + [scan], |scans|;
    assert all[..n] == scans;
    forall k | 0 <= k < |all| ensures FinishedAt(all, k) {
      assert k < n ==> FinishedAt(scans, k) && all[..k] == scans[..k];
    }
    forall i, j | 0 <= i < j < |all| ensures all[i].generation < all[j].generation {
      assert i < n - 1 ==> scans[i].generation < scans[n - 1].generation;
    }
  }

  /** So every gap of the newest catalog was first seen no later than its generation, hence before the next one. */
  lemma ChainObservedBefore(scans: seq<CompleteScan>, server: string, generation: U64)
    requires Chain(scans) && (scans != [] ==> scans[|scans| - 1].generation < generation)
    ensures ObservedBefore(PreviousGaps(LastWal(scans), server), generation)
  {
    if scans != [] {
      forall k | 0 <= k < |PreviousGaps(LastWal(scans), server)|
        ensures 0 < PreviousGaps(LastWal(scans), server)[k].firstObserved < generation
      {
        GapsAreFaithful(scans, server, k);
        hide Chain, PreviousGaps, LastWal;
      }
    }
  }
}
