// Revision-monotone publication and generation-consistent pages (internal/evidenceapi/engine.go).
module EvidenceEngine {
  import opened Results
  import opened Text
  import opened WalValidation
  import opened Base64
  import opened CursorCodec
  import opened Inventory
  import opened EvidenceContract
  import opened Publications
  import opened Backups
  import opened PathCoverage
  import opened RecoveryCatalogs

  const DEFAULT_PAGE_SIZE := 100
  const MAXIMUM_PAGE_SIZE := 200
  const MAXIMUM_CURSOR_BYTES := 4096
  const CURSOR_VERSION := 1

  datatype EngineError = InvalidRequest | PublicationChanged | InvalidPublication

  datatype Route = Backups | WalRanges | WalGaps | RecoveryPaths

  datatype Item = OfBackup(backup: PublicBackup) | OfRange(range: PublicRange) | OfGap(gap: PublicGap) | OfPath(path: PublicPath)

  datatype PageRequest = PageRequest(revision: U64, limit: int, cursor: string)

  datatype Page = Page(revision: U64, generation: U64, total: nat, next: Option<string>, items: seq<Item>)

  // ---------------------------------------------------------------- collections

  function Length(p: Publication, route: Route): nat {
    match route
    case Backups => |p.backups|
    case WalRanges => |p.ranges|
    case WalGaps => |p.gaps|
    case RecoveryPaths => |p.paths|
  }

  /** No collection is longer than the snapshot it was projected from allows. */
  predicate Bounded(p: Publication) {
    |p.backups| <= 10_000 && |p.ranges| <= 10_000 && |p.gaps| <= 10_000 && |p.paths| <= 10_000
  }

  function ItemAt(p: Publication, route: Route, k: nat): Item
    requires k < Length(p, route)
  {
    match route
    case Backups => OfBackup(p.backups[k])
    case WalRanges => OfRange(p.ranges[k])
    case WalGaps => OfGap(p.gaps[k])
    case RecoveryPaths => OfPath(p.paths[k])
  }

  function Slice(p: Publication, route: Route, from: nat, to: nat): (r: seq<Item>)
    requires from <= to <= Length(p, route)
    ensures |r| == to - from
  {
    seq(to - from, k requires 0 <= k < to - from => ItemAt(p, route, from + k))
  }

  /** The whole collection of a route. */
  function Collection(p: Publication, route: Route): seq<Item> {
    Slice(p, route, 0, Length(p, route))
  }

  predicate ValidItem(i: Item) {
    match i
    case OfBackup(b) => ValidPublicBackup(b)
    case OfRange(r) => ValidPublicRange(r)
    case OfGap(g) => ValidPublicGap(g)
    case OfPath(p) => ValidPublicPath(p)
  }

  predicate ItemBefore(a: Item, b: Item) {
    (a.OfBackup? && b.OfBackup? && BackupItemBefore(a.backup, b.backup))
    || (a.OfRange? && b.OfRange? && RangeItemBefore(a.range, b.range))
    || (a.OfGap? && b.OfGap? && GapItemBefore(a.gap, b.gap))
    || (a.OfPath? && b.OfPath? && PathItemBefore(a.path, b.path))
  }

  /** The `Validate` of a page: header, bounds, items and contract order. */
  predicate ValidPage(p: Page) {
    && p.revision != 0 && p.generation != 0 && p.generation <= p.revision && |p.items| <= 200 && |p.items| <= p.total
    && (p.next.Some? ==> PublicText(p.next.value, MAXIMUM_CURSOR_BYTES))
    && (forall k :: 0 <= k < |p.items| ==> ValidItem(p.items[k]))
    && forall i, j :: 0 <= i < |p.items| && i < j < |p.items| && j == i + 1 ==> ItemBefore(p.items[i], p.items[j])
  }

  // ---------------------------------------------------------------- cursors

  datatype Payload = Payload(version: U64, route: Route, revision: U64, generation: U64, position: U64, limit: U64)

  /** The process-local key, and the payload encoding, both opaque. */
  datatype PageCodec = PageCodec(marshal: Payload -> seq<Byte>, unmarshal: seq<Byte> -> Option<Payload>, mac: seq<Byte> -> Digest)

  /** Unmarshalling inverts marshalling, and a payload of six bounded fields has a bounded encoding. */
  ghost predicate Lawful(c: PageCodec) {
    forall p :: c.unmarshal(c.marshal(p)) == Some(p) && 0 < |c.marshal(p)| <= 1024
  }

  function EncodePayload(c: PageCodec, p: Payload): string {
    var data := c.marshal(p);
    Encode(data) + "." + Encode(c.mac(data))
  }

  /** `strings.Cut` at the first full stop. */
  function CutDot(s: string): Option<(string, string)> {
    if s == "" then None
    else if s[0] == '.' then Some(("", s[1..]))
    else
      var rest := CutDot(s[1..]);
      if rest.None? then None else Some(([s[0]] + rest.value.0, rest.value.1))
  }

  function DecodePayload(c: PageCodec, cursor: string): Option<Payload> {
    var parts := CutDot(cursor);
    if parts.None? || parts.value.0 == "" || parts.value.1 == "" || '.' in parts.value.1 then None
    else
      var data, signature := Decode(parts.value.0), Decode(parts.value.1);
      if data.None? || signature.None? || signature.value != c.mac(data.value) then None
      else c.unmarshal(data.value)
  }

  lemma {:induction false} CutAtDot(a: string, b: string)
    requires '.' !in a
    ensures CutDot(a + "." + b) == Some((a, b))
  {
    if a == "" {
      assert a + "." + b == "." + b;
    } else {
      CutAtDot(a[1..], b);
      assert (a + "." + b)[1..] == a[1..] + "." + b;
      assert a == [a[0]] + a[1..];
    }
  }

  lemma EncodedText(b: seq<Byte>)
    ensures '.' !in Encode(b) && Ascii(Encode(b)) && (b != [] ==> Encode(b) != "")
    ensures |Encode(b)| == (4 * |b| + 2) / 3
  {
    EncodeAlphabetic(b);
    EncodeLength(b);
    hide Encode;
    forall k | 0 <= k < |Encode(b)| ensures Encode(b)[k] != '.' && 0x20 <= Encode(b)[k] as int < 0x7F {
      assert Value(Encode(b)[k]) >= 0;
    }
  }

  /** An issued cursor decodes to its payload, and is a bounded printable text. */
  lemma IssuedCursor(c: PageCodec, p: Payload)
    requires Lawful(c)
    ensures DecodePayload(c, EncodePayload(c, p)) == Some(p)
    ensures PublicText(EncodePayload(c, p), MAXIMUM_CURSOR_BYTES)
  {
    var data := c.marshal(p);
    EncodedText(data);
    EncodedText(c.mac(data));
    DecodeOfEncode(data);
    DecodeOfEncode(c.mac(data));
    hide Encode, Decode;
    assert c.unmarshal(c.marshal(p)) == Some(p) && 0 < |c.marshal(p)| <= 1024;
    CutAtDot(Encode(data), Encode(c.mac(data)));
    AsciiIsPublic(EncodePayload(c, p), MAXIMUM_CURSOR_BYTES);
    hide PublicText;
  }

  // ---------------------------------------------------------------- one page

  function EffectiveLimit(limit: int): int {
    if limit == 0 then DEFAULT_PAGE_SIZE else limit
  }

  function Min(a: int, b: int): int {
    if a <= b then a else b
  }

  /** Where a request starts, or why it is refused. */
  function StartOf(current: Option<Publication>, c: PageCodec, route: Route, q: PageRequest): Result<nat, EngineError> {
    if q.revision == 0 || |q.cursor| > MAXIMUM_CURSOR_BYTES || q.limit < 0 || q.limit > MAXIMUM_PAGE_SIZE then Err(InvalidRequest)
    else if current.None? then Err(InvalidPublication)
    else if q.revision != current.value.snapshot.revision then Err(PublicationChanged)
    else if current.value.snapshot.generation == 0 then Err(InvalidRequest)
    else if q.cursor == "" then Ok(0)
    else
      var payload := DecodePayload(c, q.cursor);
      if payload.None? || payload.value.version != CURSOR_VERSION || payload.value.route != route
         || payload.value.revision != q.revision || payload.value.generation != current.value.snapshot.generation
         || payload.value.limit != EffectiveLimit(q.limit) || payload.value.position == 0
         || payload.value.position >= Length(current.value, route)
      then Err(InvalidRequest)
      else Ok(payload.value.position)
  }

  function PayloadAt(p: Publication, route: Route, position: U64, limit: U64): Payload {
    Payload(CURSOR_VERSION, route, p.snapshot.revision, p.snapshot.generation, position, limit)
  }

  /** The page itself, and whether its cursor and its contents are acceptable. */
  function PageAt(p: Publication, c: PageCodec, route: Route, start: nat, limit: U64): Result<Page, EngineError>
    requires start <= Length(p, route) && Bounded(p)
  {
    var total := Length(p, route);
    var end := Min(start + limit, total);
    var next := if end < total then Some(EncodePayload(c, PayloadAt(p, route, end, limit))) else None;
    if next.Some? && |next.value| > MAXIMUM_CURSOR_BYTES then Err(InvalidPublication)
    else
      var page := Page(p.snapshot.revision, p.snapshot.generation, total, next, Slice(p, route, start, end));
      if ValidPage(page) then Ok(page) else Err(InvalidPublication)
  }

  lemma StartWithin(current: Option<Publication>, c: PageCodec, route: Route, q: PageRequest)
    requires StartOf(current, c, route, q).Ok?
    ensures StartOf(current, c, route, q).value <= Length(current.value, route)
    ensures 1 <= EffectiveLimit(q.limit) <= MAXIMUM_PAGE_SIZE
  {
    hide DecodePayload;
  }

  /** Everything a page request may be answered. */
  function PageOf(current: Option<Publication>, c: PageCodec, route: Route, q: PageRequest): Result<Page, EngineError>
    requires current.Some? ==> Bounded(current.value)
  {
    var start := StartOf(current, c, route, q);
    if start.Err? then Err(start.error)
    else
      StartWithin(current, c, route, q);
      PageAt(current.value, c, route, start.value, EffectiveLimit(q.limit))
  }

  lemma ItemsAreValid(p: Publication, route: Route, k: nat)
    requires ValidPublication(p) && k < Length(p, route)
    ensures ValidItem(ItemAt(p, route, k))
    ensures k + 1 < Length(p, route) ==> ItemBefore(ItemAt(p, route, k), ItemAt(p, route, k + 1))
  {
    hide ValidPublicSnapshot, ValidPublicBackup, ValidPublicRange, ValidPublicGap, ValidPublicPath,
         BackupItemBefore, RangeItemBefore, GapItemBefore, PathItemBefore;
    var next := k + 1;
  }

  /** A slice of a valid publication always makes a valid page. */
  lemma SliceIsValid(p: Publication, c: PageCodec, route: Route, start: nat, limit: U64)
    requires ValidPublication(p) && Lawful(c) && p.snapshot.revision != 0 && p.snapshot.generation != 0
    requires start <= Length(p, route) && Bounded(p) && 1 <= limit <= MAXIMUM_PAGE_SIZE
    ensures PageAt(p, c, route, start, limit).Ok?
  {
    hide EncodePayload, Lawful, ValidItem, ItemBefore, ItemAt, PublicText, ValidPublication, PayloadAt, Slice;
    var total := Length(p, route);
    var end := Min(start + limit, total);
    if end < total {
      IssuedCursor(c, PayloadAt(p, route, end, limit));
      BoundedText(EncodePayload(c, PayloadAt(p, route, end, limit)));
    }
    GenerationWithin(p);
    SliceItems(p, route, start, end);
  }

  /** The items of a slice are valid and in contract order. */
  lemma SliceItems(p: Publication, route: Route, start: nat, end: nat)
    requires ValidPublication(p) && start <= end <= Length(p, route)
    ensures var items := Slice(p, route, start, end);
            && (forall k :: 0 <= k < |items| ==> ValidItem(items[k]))
            && forall i, j :: 0 <= i < |items| && i < j < |items| && j == i + 1 ==> ItemBefore(items[i], items[j])
  {
    hide ValidItem, ItemBefore, ItemAt, ValidPublication, Length;
    var items := Slice(p, route, start, end);
    forall k | 0 <= k < |items| ensures ValidItem(items[k]) {
      ItemsAreValid(p, route, start + k);
    }
    forall i, j | 0 <= i < |items| && i < j < |items| && j == i + 1 ensures ItemBefore(items[i], items[j]) {
      ItemsAreValid(p, route, start + i);
      assert items[j] == ItemAt(p, route, start + i + 1);
    }
  }

  lemma BoundedText(s: string)
    requires PublicText(s, MAXIMUM_CURSOR_BYTES)
    ensures |s| <= MAXIMUM_CURSOR_BYTES
  {
  }

  lemma GenerationWithin(p: Publication)
    requires ValidPublication(p)
    ensures p.snapshot.generation <= p.snapshot.revision
  {
    hide ValidPublicBackup, ValidPublicRange, ValidPublicGap, ValidPublicPath, Ordered, CompleteCapabilities, ValidDetails;
  }

  // ---------------------------------------------------------------- the engine

  /** The publications so far: each valid, in strictly increasing revisions. */
  ghost predicate Log(log: seq<Publication>) {
    && (forall k :: 0 <= k < |log| ==> ValidPublication(log[k]) && Bounded(log[k]))
    && (forall i, j :: 0 <= i < j < |log| ==> log[i].snapshot.revision < log[j].snapshot.revision)
  }

  class Engine {
    const options: ProjectOptions
    const codec: PageCodec
    var current: Option<Publication>
    ghost var log: seq<Publication>       // every publication that was ever current

    ghost predicate Valid()
      reads this
    {
      && Log(log) && (current.None? <==> log == []) && (current.Some? ==> current.value == log[|log| - 1])
    }

    constructor (options: ProjectOptions, codec: PageCodec)
      ensures Valid() && current.None? && log == [] && this.options == options && this.codec == codec
    {
      this.options, this.codec, current, log := options, codec, None, [];
    }

    /**
     * `Publish`: only a later revision replaces the current publication; the same one is accepted again unchanged, and
     * a conflicting, regressive or invalid snapshot leaves everything as it was.
     */
    method Publish(source: Snapshot) returns (error: Option<EngineError>)
      requires Valid()
      modifies this
      ensures Valid()
      ensures var projected := Project(source, options);
              if projected.None? then error == Some(InvalidPublication) && log == old(log)
              else if old(current).Some? && projected.value.snapshot.revision <= old(current).value.snapshot.revision then
                && log == old(log)
                && error == (if projected == old(current) then None else Some(InvalidPublication))
              else error.None? && log == old(log) + [projected.value]
    {
      hide Project, ValidPublication;
      var projected := ProjectSnapshot(source, options);
      if projected.None? {
        return Some(InvalidPublication);
      }
      ProjectedIsValid(source, options);
      if current.Some? {
        var currentRevision, newRevision := current.value.snapshot.revision, projected.value.snapshot.revision;
        if newRevision < currentRevision {
          return Some(InvalidPublication);
        }
        if newRevision == currentRevision {
          return if current.value == projected.value then None else Some(InvalidPublication);
        }
        LogGrows(log, projected.value);
      }
      current := projected;
      log := log + [projected.value];
      error := None;
    }

    /** One page of a route: `Backups`, `WALRanges`, `WALGaps` and `RecoveryPaths` differ only in the route. */
    method GetPage(route: Route, q: PageRequest) returns (r: Result<Page, EngineError>)
      requires Valid()
      ensures r == PageOf(current, codec, route, q)
    {
      r := PageOf(current, codec, route, q);
    }
  }

  lemma ProjectedIsValid(s: Snapshot, o: ProjectOptions)
    requires Project(s, o).Some?
    ensures ValidPublication(Project(s, o).value) && Bounded(Project(s, o).value)
  {
    hide ValidSnapshot, ValidPublication, Confined, SnapshotOf, WalFor, RecoveryOf, BackupItems, PathItems;
    SourceIsBounded(s, o.server);
    FewerItems(s.backups, RecoveryOf(s.recovery, o.server).paths, o.server);
  }

  lemma {:induction false} FewerItems(backups: seq<Backup>, paths: seq<RecoveryPath>, server: string)
    ensures |BackupItems(backups, server)| <= |backups| && |PathItems(paths, server)| <= |paths|
    decreases |backups| + |paths|
  {
    if backups != [] {
      FewerItems(backups[..|backups| - 1], paths, server);
    } else if paths != [] {
      FewerItems(backups, paths[..|paths| - 1], server);
    }
  }

  lemma SourceIsBounded(s: Snapshot, server: string)
    requires ValidSnapshot(s)
    ensures |s.backups| <= 10_000 && |WalFor(s.wal, server).ranges| <= 10_000 && |WalFor(s.wal, server).gaps| <= 10_000
    ensures |RecoveryOf(s.recovery, server).paths| <= 10_000
  {
    hide ValidEnvelope, ValidScopes, ValidListing, ValidRange, ValidGap, ValidDiagnostic, WalValidation.ValidSummary;
    SelectedRecovery(s.recovery, server);
  }

  lemma {:induction false} SelectedRecovery(recovery: RecoveryCatalog, server: string)
    ensures var e := RecoveryOf(recovery, server); e in recovery.servers || e.paths == []
    decreases |recovery.servers|
  {
    if recovery.servers != [] && recovery.servers[0].server != server {
      SelectedRecovery(RecoveryCatalog(recovery.servers[1..]), server);
    }
  }

  lemma LogGrows(log: seq<Publication>, p: Publication)
    requires Log(log) && log != [] && log[|log| - 1].snapshot.revision < p.snapshot.revision
    requires ValidPublication(p) && Bounded(p)
    ensures Log(log + [p])
  {
    hide ValidPublication;
    var all := log + [p];
    forall i, j | 0 <= i < j < |all| ensures all[i].snapshot.revision < all[j].snapshot.revision {
      assert j == |log| && i < |log| - 1 ==> log[i].snapshot.revision < log[|log| - 1].snapshot.revision;
    }
  }

  /** A revision names one publication for good. */
  lemma RevisionIsUnique(log: seq<Publication>, p: Publication, q: Publication)
    requires Log(log) && p in log && q in log && p.snapshot.revision == q.snapshot.revision
    ensures p == q
  {
    hide ValidPublication;
    var i :| 0 <= i < |log| && log[i] == p;
    var j :| 0 <= j < |log| && log[j] == q;
  }
}
