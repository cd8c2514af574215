// Published inventory snapshots, their validation, and the cache that holds the current one (inventory.go, evidence.go).
module Inventory {
  import opened Results
  import opened Store
  import opened Text
  import opened RecentHeap
  import opened WalValidation
  import opened WalCatalog
  import opened RecoveryCatalogs
  import opened RecoveryValidation
  import opened Backups
  import Evidence
  import Sorting

  const MAX_SCOPES := 1_000
  const MAX_RECENT_OBJECTS := 200
  const MAX_CATALOG_OBJECTS := 10_000

  // ---------------------------------------------------------------- vocabulary

  /** `fault.Category`. */
  datatype Category =
    | UnknownFault | Canceled | Timeout | InvalidConfig | Authentication | Authorization
    | Throttled | Unavailable | NotFound | Incompatible | SafetyLimit

  /** `validFailureCategory`: everything but `unknown`. */
  predicate Accepted(c: Category) {
    c in {Canceled, Timeout, InvalidConfig, Authentication, Authorization, Throttled, Unavailable, NotFound, Incompatible,
          SafetyLimit}
  }

  datatype Support = Supported | Unsupported | SupportUnknown

  datatype Completeness = Complete | Incomplete | Unscanned

  datatype CapabilityId =
    | CatalogListing | DependencyValidation | EncryptedMetadata | ObjectInventory | RecoveryCoverage
    | RetentionExpectation | StructuralValidation | TimelineTraversal | WalContinuity

  /** The place of an identifier in the byte order of their texts. */
  function Rank(id: CapabilityId): int {
    match id
    case CatalogListing => 0
    case DependencyValidation => 1
    case EncryptedMetadata => 2
    case ObjectInventory => 3
    case RecoveryCoverage => 4
    case RetentionExpectation => 5
    case StructuralValidation => 6
    case TimelineTraversal => 7
    case WalContinuity => 8
  }

  datatype Capability = Capability(id: CapabilityId, support: Support, state: Evidence.State)

  datatype Descriptor = Descriptor(id: string, scopeKind: string, capabilities: seq<CapabilityId>)

  datatype Envelope = Envelope(
    format: string, scopeKind: string, generation: U64, startedAt: Time, completedAt: Time,
    completeness: Completeness, stale: bool, state: Evidence.State, capabilities: seq<Capability>)

  datatype Scope = Scope(name: string, recognized: bool, count: I64, bytes: I64)

  datatype Snapshot = Snapshot(
    evidence: Envelope, refreshGeneration: U64, lastRefreshAt: Time, lastAttemptAt: Time, refreshFailure: Option<Category>,
    pagesExamined: I64, objectsExamined: I64, totalsKnown: bool, objectCount: I64, storedBytes: I64, unscoped: I64,
    scopes: seq<Scope>, recent: seq<RecentObject>, backups: seq<Backup>, wal: Catalog, recovery: RecoveryCatalog)

  // ---------------------------------------------------------------- the initial envelope

  predicate CapabilityBefore(a: Capability, b: Capability) {
    Rank(a.id) < Rank(b.id)
  }

  function Unproven(ids: seq<CapabilityId>): (r: seq<Capability>)
    ensures |r| == |ids| && forall k :: 0 <= k < |ids| ==> r[k] == Capability(ids[k], SupportUnknown, Evidence.Unknown)
  {
    seq(|ids|, k requires 0 <= k < |ids| => Capability(ids[k], SupportUnknown, Evidence.Unknown))
  }

  function InitialEnvelope(d: Descriptor): Envelope {
    Envelope(d.id, d.scopeKind, 0, 0, 0, Unscanned, false, Evidence.Unknown, Sorting.Sort(CapabilityBefore, Unproven(d.capabilities)))
  }

  /** The capabilities with some of them given a proven state. */
  function Prove(capabilities: seq<Capability>, ids: set<CapabilityId>, state: Evidence.State): (r: seq<Capability>)
    ensures |r| == |capabilities|
    ensures forall k :: 0 <= k < |r| ==>
              r[k] == if capabilities[k].id in ids then Capability(capabilities[k].id, Supported, state) else capabilities[k]
  {
    seq(|capabilities|, k requires 0 <= k < |capabilities| =>
      if capabilities[k].id in ids then Capability(capabilities[k].id, Supported, state) else capabilities[k])
  }

  /** The loop that rewrites them one by one. */
  method SetCapabilities(capabilities: seq<Capability>, ids: set<CapabilityId>, state: Evidence.State) returns (r: seq<Capability>)
    ensures r == Prove(capabilities, ids, state)
  {
    r := capabilities;
    for index := 0 to |capabilities|
      invariant |r| == |capabilities|
      invariant forall k :: 0 <= k < index ==> r[k] == Prove(capabilities, ids, state)[k]
      invariant forall k :: index <= k < |r| ==> r[k] == capabilities[k]
    {
      if r[index].id in ids {
        r := r[index := r[index].(support := Supported, state := state)];
      }
    }
  }

  function Initial(d: Descriptor): Snapshot {
    var e := InitialEnvelope(d);
    Snapshot(e.(capabilities := Prove(e.capabilities, {ObjectInventory}, Evidence.Unknown)), 0, 0, 0, None, 0, 0, false, 0, 0, 0,
             [], [], [], Catalog([]), RecoveryCatalog([]))
  }

  // ---------------------------------------------------------------- validation

  predicate ValidText(s: string, limit: nat) {
    s != "" && |s| <= limit && ControlFree(s)
  }

  /** An envelope never overstates incomplete evidence or unproven capabilities. */
  predicate ValidEnvelope(e: Envelope) {
    && ValidText(e.format, 128) && ValidText(e.scopeKind, 128)
    && (e.completeness != Complete ==> e.state != Evidence.Healthy)
    && (e.completeness == Unscanned ==> e.state == Evidence.Unknown)
    && (forall k :: 0 <= k < |e.capabilities| ==>
          (e.capabilities[k].support != Supported ==> e.capabilities[k].state == Evidence.Unknown))
    && forall i, j :: 0 <= i < |e.capabilities| && i < j < |e.capabilities| ==> e.capabilities[i].id != e.capabilities[j].id
  }

  function ScopedObjects(scopes: seq<Scope>): int {
    if scopes == [] then 0 else ScopedObjects(scopes[..|scopes| - 1]) + scopes[|scopes| - 1].count
  }

  function ScopedBytes(scopes: seq<Scope>): int {
    if scopes == [] then 0 else ScopedBytes(scopes[..|scopes| - 1]) + scopes[|scopes| - 1].bytes
  }

  ghost predicate ValidScopes(scopes: seq<Scope>) {
    && (forall k :: 0 <= k < |scopes| ==> scopes[k].name != "" && scopes[k].count >= 0 && scopes[k].bytes >= 0)
    && (forall i, j :: 0 <= i < j < |scopes| && j == i + 1 ==> Less(scopes[i].name, scopes[j].name))
    && ScopedObjects(scopes) <= MAX_INT64 && ScopedBytes(scopes) <= MAX_INT64
  }

  /** The clock did not run backwards, as far as both times are known. */
  predicate TimesAscend(started: Time, finished: Time) {
    started != 0 && finished != 0 ==> started <= finished
  }

  predicate ValidTimes(s: Snapshot) {
    TimesAscend(s.lastAttemptAt, s.lastRefreshAt)
  }

  predicate ValidRecents(recent: seq<RecentObject>) {
    forall k :: 0 <= k < |recent| ==> recent[k].key != "" && |recent[k].key| <= MAX_KEY_BYTES && recent[k].size >= 0
  }

  /** The checks other than those on scope totals, in the order of the source. */
  predicate ValidHeader(s: Snapshot) {
    && ValidEnvelope(s.evidence)
    && |s.scopes| <= MAX_SCOPES && |s.recent| <= MAX_RECENT_OBJECTS && |s.backups| <= MAX_CATALOG_OBJECTS
    && ValidCatalog(s.wal) && ValidRecovery(s.recovery)
    && s.pagesExamined >= 0 && s.objectsExamined >= 0 && s.objectCount >= 0 && s.storedBytes >= 0 && s.unscoped >= 0
    && (s.refreshFailure.Some? ==> Accepted(s.refreshFailure.value))
    && ValidTimes(s)
    && (!s.totalsKnown ==> s.objectCount == 0 && s.storedBytes == 0 && s.unscoped == 0 && s.scopes == [] && s.recent == [])
    && (s.totalsKnown ==> s.evidence.completeness == Complete)
  }

  predicate ValidListing(s: Snapshot) {
    ValidRecents(s.recent) && (s.totalsKnown ==> |s.recent| <= s.objectCount)
  }

  /** A snapshot never shows partial counters as totals, and what it shows reconciles. */
  ghost predicate ValidSnapshot(s: Snapshot) {
    && ValidHeader(s) && ValidListing(s) && ValidScopes(s.scopes)
    && (s.totalsKnown ==>
          s.unscoped == s.objectCount - ScopedObjects(s.scopes) && ScopedObjects(s.scopes) <= s.objectCount
          && ScopedBytes(s.scopes) <= s.storedBytes)
  }

  lemma {:induction false} ScopedMonotone(scopes: seq<Scope>, n: nat)
    requires n <= |scopes| && forall k :: 0 <= k < |scopes| ==> scopes[k].count >= 0 && scopes[k].bytes >= 0
    ensures 0 <= ScopedObjects(scopes[..n]) <= ScopedObjects(scopes)
    ensures 0 <= ScopedBytes(scopes[..n]) <= ScopedBytes(scopes)
    decreases |scopes|
  {
    var m := |scopes| - 1;
    if n < |scopes| {
      ScopedMonotone(scopes[..m], n);
      assert scopes[..m][..n] == scopes[..n];
    } else if n > 0 {
      ScopedMonotone(scopes[..m], m);
      assert scopes[..m][..m] == scopes[..m] && scopes[..n] == scopes;
    }
  }

  /** Adds the scope counters in 64-bit integers; the overflow check is exact. */
  method SumScopes(scopes: seq<Scope>) returns (valid: bool, objects: I64, bytes: I64)
    ensures valid <==> ValidScopes(scopes)
    ensures valid ==> objects == ScopedObjects(scopes) && bytes == ScopedBytes(scopes)
  {
    objects, bytes := 0, 0;
    for index := 0 to |scopes|
      invariant 0 <= objects == ScopedObjects(scopes[..index]) && 0 <= bytes == ScopedBytes(scopes[..index])
      invariant forall k :: 0 <= k < index ==> scopes[k].name != "" && scopes[k].count >= 0 && scopes[k].bytes >= 0
      invariant forall i, j :: 0 <= i < j < index && j == i + 1 ==> Less(scopes[i].name, scopes[j].name)
    {
      hide Less;
      var scope := scopes[index];
      if scope.name == "" || scope.count < 0 || scope.bytes < 0 {
        return false, 0, 0;
      }
      if index > 0 && !Less(scopes[index - 1].name, scope.name) {
        return false, 0, 0;
      }
      assert scopes[..index + 1][..index] == scopes[..index];
      if scope.count > MAX_INT64 - objects || scope.bytes > MAX_INT64 - bytes {
        if ValidScopes(scopes) {
          ScopedMonotone(scopes, index + 1);
        }
        return false, 0, 0;
      }
      objects, bytes := objects + scope.count, bytes + scope.bytes;
    }
    assert scopes[..|scopes|] == scopes;
    valid := true;
  }

  /** `Snapshot.Validate`. */
  method Validate(s: Snapshot) returns (valid: bool)
    ensures valid <==> ValidSnapshot(s)
  {
    hide ValidHeader, ValidListing, ValidScopes;
    if !ValidHeader(s) {
      return false;
    }
    var summed, objects, bytes := SumScopes(s.scopes);
    if !summed {
      return false;
    }
    if s.totalsKnown && (objects > s.objectCount || s.unscoped != s.objectCount - objects || bytes > s.storedBytes) {
      return false;
    }
    return ValidListing(s);
  }

  // ---------------------------------------------------------------- the cache

  /** Holds the current snapshot; a refused one leaves it as it was. */
  class Cache {
    var current: Snapshot

    ghost predicate Valid()
      reads this
    {
      ValidSnapshot(current)
    }

    constructor (initial: Snapshot)
      requires ValidSnapshot(initial)
      ensures Valid() && current == initial
    {
      current := initial;
    }

    method Load() returns (s: Snapshot)
      ensures s == current
    {
      s := current;
    }

    method Publish(s: Snapshot) returns (published: bool)
      modifies this
      ensures published <==> ValidSnapshot(s)
      ensures current == if published then s else old(current)
    {
      published := Validate(s);
      if published {
        current := s;
      }
    }
  }

  // ---------------------------------------------------------------- the initial snapshot is valid

  /** What the format registry demands of a descriptor, and what the envelope demands of its texts. */
  predicate ValidDescriptor(d: Descriptor) {
    && ValidText(d.id, 128) && ValidText(d.scopeKind, 128)
    && forall i, j :: 0 <= i < |d.capabilities| && i < j < |d.capabilities| ==> d.capabilities[i] != d.capabilities[j]
  }

  lemma CapabilityBeforeIsOrder()
    ensures Sorting.StrictWeakOrder(CapabilityBefore)
  {
  }

  /** The initial capabilities are those of the descriptor, sorted, each unproven and unknown. */
  lemma InitialCapabilities(d: Descriptor)
    requires ValidDescriptor(d)
    ensures var list := InitialEnvelope(d).capabilities;
            && (forall i, j :: 0 <= i < j < |list| ==> Rank(list[i].id) < Rank(list[j].id))
            && (forall c :: c in list ==> c.support == SupportUnknown && c.state == Evidence.Unknown && c.id in d.capabilities)
            && (forall id :: id in d.capabilities ==> Capability(id, SupportUnknown, Evidence.Unknown) in list)
  {
    var list := Unproven(d.capabilities);
    CapabilityBeforeIsOrder();
    forall i, j | 0 <= i < j < |list| ensures CapabilityBefore(list[i], list[j]) || CapabilityBefore(list[j], list[i]) {
      assert d.capabilities[i] != d.capabilities[j];
    }
    Sorting.SortStrict(CapabilityBefore, list);
    hide Sorting.Sort;
    var sorted := Sorting.Sort(CapabilityBefore, list);
    forall i, j | 0 <= i < j < |sorted| ensures Rank(sorted[i].id) < Rank(sorted[j].id) {
      assert CapabilityBefore(sorted[i], sorted[j]);
    }
    forall id | id in d.capabilities ensures Capability(id, SupportUnknown, Evidence.Unknown) in sorted {
      var k :| 0 <= k < |d.capabilities| && d.capabilities[k] == id;
      assert list[k] in list;
    }
  }

  lemma InitialEnvelopeIsValid(d: Descriptor)
    requires ValidDescriptor(d)
    ensures ValidEnvelope(Initial(d).evidence)
  {
    InitialCapabilities(d);
    var list := InitialEnvelope(d).capabilities;
    assert forall k :: 0 <= k < |list| ==> list[k] in list;
    hide InitialEnvelope, Rank, ValidText;
  }

  lemma EmptyCatalogsAreValid()
    ensures ValidCatalog(Catalog([])) && ValidRecovery(RecoveryCatalog([])) && ValidScopes([]) && ValidRecents([])
  {
    hide ValidServer, ValidRecoveryServer;
  }

  lemma InitialIsValid(d: Descriptor)
    requires ValidDescriptor(d)
    ensures ValidSnapshot(Initial(d))
  {
    InitialEnvelopeIsValid(d);
    EmptyCatalogsAreValid();
    hide InitialEnvelope, ValidEnvelope, ValidCatalog, ValidRecovery, ValidScopes, ValidRecents, Prove;
  }
}
