// The inventory snapshot of a complete listing, and conservation of its counters (scanner.go, builder.complete).
module InventoryCompletion {
  import opened Results
  import opened Store
  import opened Text
  import opened RecentHeap
  import opened WalCatalog
  import opened RecoveryCatalogs
  import opened Inventory
  import opened InventoryBuilder
  import Evidence
  import Sorting

  predicate ScopeBefore(a: Scope, b: Scope) {
    Less(a.name, b.name)
  }

  lemma ScopeBeforeIsOrder()
    ensures Sorting.StrictWeakOrder(ScopeBefore)
  {
    forall a: Scope, b: Scope | ScopeBefore(a, b) ensures !ScopeBefore(b, a) {
      LessAsymmetric(a.name, b.name);
    }
    forall a: Scope, b: Scope, c: Scope | !ScopeBefore(b, a) && !ScopeBefore(c, b) ensures !ScopeBefore(c, a) {
      NotLessTransitive(a.name, b.name, c.name);
    }
  }

  /** The counter records of all known scopes, strictly sorted. */
  ghost predicate ScopeList(scopes: seq<Scope>, matcher: Matcher, initial: set<string>, l: seq<Object>) {
    && Countable(l)
    && Sorting.StrictlySorted(ScopeBefore, scopes)
    && (forall x :: x in scopes ==> x.name in ScopeNames(matcher, initial, l) && x == ScopeOf(matcher, l, x.name))
    && (forall s :: s in ScopeNames(matcher, initial, l) ==> ScopeOf(matcher, l, s) in scopes)
  }

  function CompleteEnvelope(d: Descriptor, generation: U64, started: Time, completed: Time): Envelope {
    var e := InitialEnvelope(d);
    e.(generation := generation, startedAt := started, completedAt := completed, completeness := Complete,
       state := Evidence.Unknown, capabilities := Prove(e.capabilities, {ObjectInventory}, Evidence.Healthy))
  }

  /** What the listing alone determines. */
  ghost predicate Inventoried(s: Snapshot, matcher: Matcher, initial: set<string>, l: seq<Object>, limit: nat) {
    && s.totalsKnown && Countable(l)
    && s.objectCount == |l| && s.objectsExamined == |l| && s.storedBytes == Bytes(l)
    && s.unscoped == |l| - |Matched(matcher, l)|
    && ScopeList(s.scopes, matcher, initial, l)
    && Sorting.Sorted(MoreRecent, s.recent)
    && exists omitted :: Selects(s.recent, omitted, Recents(matcher, l), limit)
  }

  /** The scope records in name order. */
  method SortScopes(b: Builder) returns (scopes: seq<Scope>)
    requires b.Scoped(b.listing)
    ensures ScopeList(scopes, b.matcher, b.initial, b.listing)
  {
    var todo := b.scopes.Keys;
    var values: seq<Scope> := [];
    ghost var names := todo;
    while todo != {}
      invariant todo <= names
      invariant forall x :: x in values <==> x.name in names - todo && x == b.scopes[x.name]
      invariant Sorting.Comparable(ScopeBefore, values)
    {
      hide ScopeOf, ScopeNames, Countable;
      var name :| name in todo;
      var scope := b.scopes[name];
      AddScope(values, scope);
      values, todo := values + [scope], todo - {name};
    }
    hide ScopeOf, ScopeNames, Countable, ScopeBefore, Sorting.Sort, Sorting.Comparable;
    ScopeBeforeIsOrder();
    Sorting.SortStrict(ScopeBefore, values);
    scopes := Sorting.Sort(ScopeBefore, values);
    assert forall s :: s in names ==> b.scopes[s] in values;
  }

  lemma AddScope(values: seq<Scope>, scope: Scope)
    requires Sorting.Comparable(ScopeBefore, values) && forall x :: x in values ==> x.name != scope.name
    ensures Sorting.Comparable(ScopeBefore, values + [scope])
  {
    forall x, y | x in values && y in [scope] ensures ScopeBefore(x, y) || ScopeBefore(y, x) {
      LessTotal(x.name, y.name);
    }
    Sorting.ComparableConcat(ScopeBefore, values, [scope]);
  }

  /** `complete`. */
  method CompleteSnapshot(b: Builder, d: Descriptor, generation: U64, started: Time, completed: Time) returns (s: Snapshot)
    requires b.Valid()
    ensures Inventoried(s, b.matcher, b.initial, b.listing, b.recent.limit)
    ensures s.evidence == CompleteEnvelope(d, generation, started, completed)
    ensures s.refreshGeneration == generation && s.lastRefreshAt == completed && s.lastAttemptAt == started
    ensures s.refreshFailure.None? && s.pagesExamined == b.pagesExamined
    ensures s.backups == [] && s.wal == Catalog([]) && s.recovery == RecoveryCatalog([])
  {
    hide ScopeList, Countable, Bytes, Matched, Recents, CompleteEnvelope, Sorting.Sorted, Selects, HeapOrdered;
    var scopes := SortScopes(b);
    var recent := b.recent.Recent();
    s := Snapshot(CompleteEnvelope(d, generation, started, completed), generation, completed, started, None, b.pagesExamined,
                  b.objectCount, true, b.objectCount, b.storedBytes, b.unscoped, scopes, recent, [], Catalog([]), RecoveryCatalog([]));
  }

  // ---------------------------------------------------------------- conservation

  function SumCounts(matcher: Matcher, l: seq<Object>, names: seq<string>): int {
    if names == [] then 0
    else SumCounts(matcher, l, names[..|names| - 1]) + |Share(matcher, l, names[|names| - 1])|
  }

  function SumBytes(matcher: Matcher, l: seq<Object>, names: seq<string>): int {
    if names == [] then 0
    else SumBytes(matcher, l, names[..|names| - 1]) + Bytes(Share(matcher, l, names[|names| - 1]))
  }

  /** One more object raises exactly the scope it matches. */
  lemma {:induction false} SumSnoc(matcher: Matcher, l: seq<Object>, entry: Object, names: seq<string>)
    requires Sorting.Distinct(names)
    ensures var m := matcher(entry.key);
            var own := m.Some? && m.value.name in names;
            && SumCounts(matcher, l + [entry], names) == SumCounts(matcher, l, names) + (if own then 1 else 0)
            && SumBytes(matcher, l + [entry], names) == SumBytes(matcher, l, names) + if own then entry.size else 0
  {
    hide Share, Bytes, AnyRecognized;
    if names != [] {
      var n := |names| - 1;
      SumSnoc(matcher, l, entry, names[..n]);
      ShareSnoc(matcher, l, entry, names[n]);
      assert names == names[..n] + [names[n]];
    }
  }

  lemma NoBytes()
    ensures Bytes([]) == 0
  {
  }

  lemma MoreBytes(l: seq<Object>, entry: Object)
    ensures Bytes(l + [entry]) == Bytes(l) + entry.size
  {
    assert (l + [entry])[..|l|] == l;
  }

  /** The shares of distinct scopes that cover every match add up to what matched. */
  lemma {:induction false} SharesAddUp(matcher: Matcher, l: seq<Object>, names: seq<string>)
    requires Sorting.Distinct(names)
    requires forall k :: 0 <= k < |l| && matcher(l[k].key).Some? ==> matcher(l[k].key).value.name in names
    ensures SumCounts(matcher, l, names) == |Matched(matcher, l)| && SumBytes(matcher, l, names) == Bytes(Matched(matcher, l))
  {
    hide SumCounts, SumBytes, Bytes;
    if l == [] {
      NoShares(matcher, names);
      NoBytes();
    } else {
      var n := |l| - 1;
      SharesAddUp(matcher, l[..n], names);
      SumSnoc(matcher, l[..n], l[n], names);
      assert l[..n] + [l[n]] == l;
      MoreBytes(Matched(matcher, l[..n]), l[n]);
    }
  }

  lemma {:induction false} NoShares(matcher: Matcher, names: seq<string>)
    ensures SumCounts(matcher, [], names) == 0 && SumBytes(matcher, [], names) == 0
  {
    if names != [] {
      NoShares(matcher, names[..|names| - 1]);
    }
  }

  lemma {:induction false} MatchedBytes(matcher: Matcher, l: seq<Object>)
    requires forall k :: 0 <= k < |l| ==> Bounded(l[k])
    ensures 0 <= Bytes(Matched(matcher, l)) <= Bytes(l)
  {
    if l != [] {
      var n := |l| - 1;
      MatchedBytes(matcher, l[..n]);
      var front := Matched(matcher, l[..n]);
      assert (front + [l[n]])[..|front|] == front;
    }
  }

  lemma {:induction false} MatchedNames(matcher: Matcher, initial: set<string>, l: seq<Object>)
    ensures forall k :: 0 <= k < |l| && matcher(l[k].key).Some? ==> matcher(l[k].key).value.name in ScopeNames(matcher, initial, l)
    ensures initial <= ScopeNames(matcher, initial, l)
  {
    if l != [] {
      MatchedNames(matcher, initial, l[..|l| - 1]);
    }
  }

  function Names(scopes: seq<Scope>): (r: seq<string>)
    ensures |r| == |scopes| && forall k :: 0 <= k < |r| ==> r[k] == scopes[k].name
  {
    if scopes == [] then [] else Names(scopes[..|scopes| - 1]) + [scopes[|scopes| - 1].name]
  }

  lemma {:induction false} ScopedSums(scopes: seq<Scope>, matcher: Matcher, l: seq<Object>)
    requires Countable(l) && forall k :: 0 <= k < |scopes| ==> scopes[k] == ScopeOf(matcher, l, scopes[k].name)
    ensures ScopedObjects(scopes) == SumCounts(matcher, l, Names(scopes)) && ScopedBytes(scopes) == SumBytes(matcher, l, Names(scopes))
  {
    hide Countable, Share, Bytes, AnyRecognized;
    if scopes != [] {
      var n := |scopes| - 1;
      ScopedSums(scopes[..n], matcher, l);
      assert Names(scopes)[..n] == Names(scopes[..n]);
    }
  }

  lemma NamesCover(scopes: seq<Scope>, matcher: Matcher, initial: set<string>, l: seq<Object>)
    requires ScopeList(scopes, matcher, initial, l)
    ensures Sorting.Distinct(Names(scopes))
    ensures forall k :: 0 <= k < |l| && matcher(l[k].key).Some? ==> matcher(l[k].key).value.name in Names(scopes)
  {
    hide Countable, ScopeOf, ScopeNames;
    MatchedNames(matcher, initial, l);
    var names := Names(scopes);
    forall i, j | 0 <= i < j < |names| ensures names[i] != names[j] {
      LessIrreflexive(names[i]);
      assert ScopeBefore(scopes[i], scopes[j]);
    }
    forall k | 0 <= k < |l| && matcher(l[k].key).Some? ensures matcher(l[k].key).value.name in names {
      NameListed(scopes, matcher, initial, l, matcher(l[k].key).value.name);
    }
  }

  /** Scoped and unscoped objects add up to the whole listing, and no counter leaves its 64 bits. */
  lemma CountersConserved(s: Snapshot, matcher: Matcher, initial: set<string>, l: seq<Object>, limit: nat)
    requires Inventoried(s, matcher, initial, l, limit)
    ensures ScopedObjects(s.scopes) + s.unscoped == s.objectCount == |l|
    ensures 0 <= ScopedObjects(s.scopes) <= MAX_INT64 && 0 <= ScopedBytes(s.scopes) <= s.storedBytes == Bytes(l)
  {
    hide Bytes, Matched, ScopeOf, ScopeNames, Recents, Selects, Bounded, Names, ScopedObjects, ScopedBytes, SumCounts, SumBytes;
    assert forall k :: 0 <= k < |s.scopes| ==> s.scopes[k] in s.scopes;
    ScopedSums(s.scopes, matcher, l);
    MatchedBytes(matcher, l);
    NamesCover(s.scopes, matcher, initial, l);
    SharesAddUp(matcher, l, Names(s.scopes));
  }

  lemma NameListed(scopes: seq<Scope>, matcher: Matcher, initial: set<string>, l: seq<Object>, name: string)
    requires ScopeList(scopes, matcher, initial, l) && name in ScopeNames(matcher, initial, l)
    ensures name in Names(scopes)
  {
    hide Share, Bytes, AnyRecognized, ScopeNames;
    assert ScopeOf(matcher, l, name) in scopes;
    var k :| 0 <= k < |scopes| && scopes[k] == ScopeOf(matcher, l, name);
    assert Names(scopes)[k] == name;
  }

  // ---------------------------------------------------------------- and the snapshot passes validation

  lemma CompleteEnvelopeIsValid(d: Descriptor, generation: U64, started: Time, completed: Time)
    requires ValidDescriptor(d)
    ensures ValidEnvelope(CompleteEnvelope(d, generation, started, completed))
  {
    InitialCapabilities(d);
    var list := InitialEnvelope(d).capabilities;
    assert forall k :: 0 <= k < |list| ==> list[k] in list;
    hide InitialEnvelope, Rank, ValidText;
  }

  lemma RecentsAreValid(s: Snapshot, matcher: Matcher, initial: set<string>, l: seq<Object>, limit: nat)
    requires Inventoried(s, matcher, initial, l, limit)
    ensures ValidListing(s) && |s.recent| <= limit
  {
    hide ScopeList, ScopeOf, ScopeNames, Sorting.Sorted, MoreRecent, Matched, Bytes;
    var omitted :| Selects(s.recent, omitted, Recents(matcher, l), limit);
    SelectLength(s.recent, omitted, Recents(matcher, l), limit);
    forall k | 0 <= k < |s.recent| ensures s.recent[k].key != "" && |s.recent[k].key| <= MAX_KEY_BYTES && s.recent[k].size >= 0 {
      assert s.recent[k] in multiset(s.recent) + multiset(omitted);
      assert s.recent[k] in multiset(Recents(matcher, l));
      var j :| 0 <= j < |l| && Recents(matcher, l)[j] == s.recent[k];
      assert Bounded(l[j]);
    }
  }

  lemma ScopesAreValid(s: Snapshot, matcher: Matcher, initial: set<string>, l: seq<Object>, limit: nat)
    requires Inventoried(s, matcher, initial, l, limit)
    requires forall n :: n in ScopeNames(matcher, initial, l) ==> n != ""
    ensures ValidScopes(s.scopes)
  {
    CountersConserved(s, matcher, initial, l, limit);
    hide Share, AnyRecognized, ScopeNames, Recents, Selects, Matched, Sorting.Sorted;
    forall k | 0 <= k < |s.scopes| ensures s.scopes[k].name != "" && s.scopes[k].count >= 0 && s.scopes[k].bytes >= 0 {
      assert s.scopes[k] in s.scopes;
      ShareBytes(matcher, l, s.scopes[k].name);
    }
    hide Bytes;
    forall i, j | 0 <= i < j < |s.scopes| ensures Less(s.scopes[i].name, s.scopes[j].name) {
      assert ScopeBefore(s.scopes[i], s.scopes[j]);
    }
  }
}
