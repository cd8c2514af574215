// Streaming inventory of one provider listing (scanner.go, builder).
module InventoryBuilder {
  import opened Results
  import opened Store
  import opened RecentHeap
  import opened BarmanFormat
  import opened WalValidation
  import opened WalCollector
  import opened Inventory

  /** The format's scope matcher. */
  type Matcher = string -> Option<Match>

  // ---------------------------------------------------------------- what a listing amounts to

  function Bytes(listing: seq<Object>): int {
    if listing == [] then 0 else Bytes(listing[..|listing| - 1]) + listing[|listing| - 1].size
  }

  /** The objects that match one scope. */
  function Share(matcher: Matcher, listing: seq<Object>, name: string): (r: seq<Object>)
    ensures |r| <= |listing|
  {
    if listing == [] then []
    else
      var front, last := Share(matcher, listing[..|listing| - 1], name), listing[|listing| - 1];
      if matcher(last.key).Some? && matcher(last.key).value.name == name then front + [last] else front
  }

  function Matched(matcher: Matcher, listing: seq<Object>): (r: seq<Object>)
    ensures |r| <= |listing|
  {
    if listing == [] then []
    else
      var front, last := Matched(matcher, listing[..|listing| - 1]), listing[|listing| - 1];
      if matcher(last.key).Some? then front + [last] else front
  }

  function CatalogObjects(matcher: Matcher, listing: seq<Object>): seq<Object> {
    if listing == [] then []
    else
      var front, last := CatalogObjects(matcher, listing[..|listing| - 1]), listing[|listing| - 1];
      if matcher(last.key).Some? && BackupObject(last.key) then front + [last] else front
  }

  function RecentOf(matcher: Matcher, entry: Object): RecentObject {
    RecentObject(entry.key, if matcher(entry.key).Some? then matcher(entry.key).value.name else "", entry.size, entry.lastModified)
  }

  function Recents(matcher: Matcher, listing: seq<Object>): (r: seq<RecentObject>)
    ensures |r| == |listing| && forall k :: 0 <= k < |r| ==> r[k] == RecentOf(matcher, listing[k])
  {
    if listing == [] then []
    else Recents(matcher, listing[..|listing| - 1]) + [RecentOf(matcher, listing[|listing| - 1])]
  }

  /** Some object of the listing demonstrates the scope's layout. */
  function AnyRecognized(matcher: Matcher, listing: seq<Object>, name: string): bool {
    listing != []
    && (AnyRecognized(matcher, listing[..|listing| - 1], name)
        || var m := matcher(listing[|listing| - 1].key); m.Some? && m.value.name == name && m.value.recognized)
  }

  /** The scopes known after a listing: the initial ones and every one matched. */
  function ScopeNames(matcher: Matcher, initial: set<string>, listing: seq<Object>): set<string> {
    if listing == [] then initial
    else
      var front, m := ScopeNames(matcher, initial, listing[..|listing| - 1]), matcher(listing[|listing| - 1].key);
      if m.Some? then front + {m.value.name} else front
  }

  predicate Bounded(entry: Object) {
    entry.key != "" && |entry.key| <= MAX_KEY_BYTES && 0 <= entry.size <= MAX_INT64
  }

  /** Objects a scanner may accept: usable keys and sizes whose total fits. */
  ghost predicate Countable(listing: seq<Object>) {
    && (forall k :: 0 <= k < |listing| ==> Bounded(listing[k]))
    && |listing| <= MAX_INT64 && Bytes(listing) <= MAX_INT64
  }

  lemma {:induction false} ShareBytes(matcher: Matcher, listing: seq<Object>, name: string)
    requires forall k :: 0 <= k < |listing| ==> Bounded(listing[k])
    ensures 0 <= Bytes(Share(matcher, listing, name)) <= Bytes(listing)
  {
    if listing != [] {
      var n := |listing| - 1;
      ShareBytes(matcher, listing[..n], name);
      var front := Share(matcher, listing[..n], name);
      assert (front + [listing[n]])[..|front|] == front;
    }
  }

  function ScopeOf(matcher: Matcher, listing: seq<Object>, name: string): (r: Scope)
    requires Countable(listing)
    ensures r.name == name && r.count == |Share(matcher, listing, name)| && r.bytes == Bytes(Share(matcher, listing, name))
  {
    ShareBytes(matcher, listing, name);
    Scope(name, AnyRecognized(matcher, listing, name), |Share(matcher, listing, name)|, Bytes(Share(matcher, listing, name)))
  }

  /** Everything one more object adds. */
  lemma ListingSnoc(matcher: Matcher, listing: seq<Object>, entry: Object)
    ensures var all, m := listing + [entry], matcher(entry.key);
            && Bytes(all) == Bytes(listing) + entry.size
            && Matched(matcher, all) == (if m.Some? then Matched(matcher, listing) + [entry] else Matched(matcher, listing))
            && CatalogObjects(matcher, all)
               == (if m.Some? && BackupObject(entry.key) then CatalogObjects(matcher, listing) + [entry]
                   else CatalogObjects(matcher, listing))
            && Recents(matcher, all) == Recents(matcher, listing) + [RecentOf(matcher, entry)]
  {
    hide BackupObject;
    var all := listing + [entry];
    assert all[..|all| - 1] == listing && all[|all| - 1] == entry;
  }

  lemma ShareSnoc(matcher: Matcher, listing: seq<Object>, entry: Object, name: string)
    ensures var all, m := listing + [entry], matcher(entry.key);
            var own := m.Some? && m.value.name == name;
            && Share(matcher, all, name) == (if own then Share(matcher, listing, name) + [entry] else Share(matcher, listing, name))
            && AnyRecognized(matcher, all, name) == (AnyRecognized(matcher, listing, name) || (own && m.value.recognized))
            && Bytes(Share(matcher, all, name)) == Bytes(Share(matcher, listing, name)) + if own then entry.size else 0
  {
    var all, front := listing + [entry], Share(matcher, listing, name);
    assert all[..|all| - 1] == listing && all[|all| - 1] == entry;
    assert (front + [entry])[..|front|] == front;
  }

  lemma CountableSnoc(listing: seq<Object>, entry: Object)
    requires Countable(listing) && entry.key != "" && |entry.key| <= MAX_KEY_BYTES && entry.size >= 0
    requires |listing| < MAX_INT64 && entry.size <= MAX_INT64 - Bytes(listing)
    ensures Countable(listing + [entry])
  {
    BytesNonNegative(listing);
    var all := listing + [entry];
    assert Bytes(all) == Bytes(listing) + entry.size by {
      assert all[..|listing|] == listing;
    }
    hide Bytes, Bounded;
    assert Bounded(entry) by {
      Fits(entry);
    }
  }

  lemma Fits(entry: Object)
    requires entry.key != "" && |entry.key| <= MAX_KEY_BYTES && 0 <= entry.size <= MAX_INT64
    ensures Bounded(entry)
  {
  }

  lemma {:induction false} BytesNonNegative(listing: seq<Object>)
    requires forall k :: 0 <= k < |listing| ==> Bounded(listing[k])
    ensures Bytes(listing) >= 0
  {
    if listing != [] {
      BytesNonNegative(listing[..|listing| - 1]);
    }
  }

  // ---------------------------------------------------------------- why an object is refused

  /** Why an object cannot be counted. The overflow checks on scope counters never fire. */
  function CountRefusal(matcher: Matcher, initial: set<string>, listing: seq<Object>, entry: Object): Option<Category> {
    var m := matcher(entry.key);
    if entry.key == "" || |entry.key| > MAX_KEY_BYTES || entry.size < 0 || |listing| == MAX_INT64
       || entry.size > MAX_INT64 - Bytes(listing)
    then Some(SafetyLimit)
    else if m.Some? && !ValidName(m.value.name) then Some(Incompatible)
    else if m.Some? && m.value.name !in ScopeNames(matcher, initial, listing)
            && |ScopeNames(matcher, initial, listing)| >= MAX_SCOPES
    then Some(SafetyLimit)
    else None
  }

  /** The error `add` reports, if any. */
  function Refusal(matcher: Matcher, initial: set<string>, listing: seq<Object>, entry: Object): Option<Category> {
    var counted := CountRefusal(matcher, initial, listing, entry);
    if counted.Some? then counted
    else if matcher(entry.key).Some? && BackupObject(entry.key) && |CatalogObjects(matcher, listing)| >= MAX_CATALOG_OBJECTS
    then Some(SafetyLimit)
    else None
  }

  ghost predicate TotalsCount(objects: int, bytes: int, unscoped: int, matcher: Matcher, l: seq<Object>) {
    Countable(l) && objects == |l| && bytes == Bytes(l) && unscoped == |l| - |Matched(matcher, l)|
  }

  lemma TotalsOne(objects: int, bytes: int, unscoped: int, matcher: Matcher, before: seq<Object>, entry: Object)
    requires TotalsCount(objects, bytes, unscoped, matcher, before)
    requires entry.key != "" && |entry.key| <= MAX_KEY_BYTES && entry.size >= 0
    requires objects < MAX_INT64 && entry.size <= MAX_INT64 - bytes
    ensures Countable(before + [entry]) && 0 <= unscoped <= objects && 0 <= bytes
    ensures TotalsCount(objects + 1, bytes + entry.size, unscoped + (if matcher(entry.key).None? then 1 else 0), matcher, before + [entry])
  {
    hide Bytes, Matched, CatalogObjects, Recents, Bounded, BackupObject;
    CountableSnoc(before, entry);
    ListingSnoc(matcher, before, entry);
    BytesNonNegative(before);
  }

  /** One counter record per known scope, each counting exactly its share. */
  ghost predicate ScopesCount(scopes: map<string, Scope>, matcher: Matcher, initial: set<string>, l: seq<Object>) {
    && Countable(l)
    && scopes.Keys == ScopeNames(matcher, initial, l)
    && forall s :: s in scopes ==> scopes[s] == ScopeOf(matcher, l, s)
  }

  /** One more object that no scope matches. */
  lemma CountUnmatched(scopes: map<string, Scope>, matcher: Matcher, initial: set<string>, before: seq<Object>, entry: Object)
    requires ScopesCount(scopes, matcher, initial, before) && Countable(before + [entry]) && matcher(entry.key).None?
    ensures ScopesCount(scopes, matcher, initial, before + [entry])
  {
    hide Countable, ScopeNames, ScopeOf;
    NameSnoc(matcher, initial, before, entry);
    forall s | s in scopes ensures ScopeOf(matcher, before + [entry], s) == scopes[s] {
      ScopeSnoc(matcher, before, entry, s);
    }
  }

  /** One more object, counted in its scope. */
  lemma CountMatched(scopes: map<string, Scope>, matcher: Matcher, initial: set<string>, before: seq<Object>, entry: Object, m: Match,
                     scope: Scope)
    requires Countable(before) && Countable(before + [entry]) && matcher(entry.key) == Some(m)
    requires scopes.Keys == ScopeNames(matcher, initial, before) + {m.name}
    requires forall s :: s in scopes ==> scopes[s] == ScopeOf(matcher, before, s)
    requires var was := scopes[m.name];
             scope.name == m.name && scope.recognized == (was.recognized || m.recognized) && scope.count == was.count + 1
             && scope.bytes == was.bytes + entry.size
    ensures ScopesCount(scopes[m.name := scope], matcher, initial, before + [entry])
  {
    hide Countable, ScopeNames, ScopeOf;
    NameSnoc(matcher, initial, before, entry);
    var updated, after := scopes[m.name := scope], before + [entry];
    ScopeSnoc(matcher, before, entry, m.name);
    assert updated.Keys == ScopeNames(matcher, initial, after);
    forall s | s in updated ensures updated[s] == ScopeOf(matcher, after, s) {
      ScopeSnoc(matcher, before, entry, s);
    }
  }

  // ---------------------------------------------------------------- the builder

  class Builder {
    const matcher: Matcher
    const initial: set<string>
    const analyze: bool
    const recent: Heap
    const collector: Collector           // fed only when Barman semantics are analyzed
    var pagesExamined: I64
    var objectCount: I64
    var storedBytes: I64
    var unscoped: I64
    var scopes: map<string, Scope>
    var catalogObjects: seq<Object>
    ghost var listing: seq<Object>       // every object accepted, in provider order

    ghost predicate Counted(l: seq<Object>)
      reads this`objectCount, this`storedBytes, this`unscoped
    {
      TotalsCount(objectCount, storedBytes, unscoped, matcher, l)
    }

    ghost predicate Scoped(l: seq<Object>)
      reads this`scopes
    {
      ScopesCount(scopes, matcher, initial, l)
    }

    ghost predicate Streams(l: seq<Object>)
      reads this`catalogObjects, recent, collector, collector.parts
    {
      && catalogObjects == CatalogObjects(matcher, l)
      && recent.Valid() && recent.offered == Recents(matcher, l)
      && collector.Valid() && collector.listing == if analyze then Matched(matcher, l) else []
    }

    ghost predicate Valid()
      reads this, recent, collector, collector.parts
    {
      Counted(listing) && Scoped(listing) && Streams(listing)
    }

    constructor (matcher: Matcher, initial: seq<string>, recentLimit: nat, analyze: bool)
      requires recentLimit > 0
      ensures Valid() && listing == [] && pagesExamined == 0
      ensures this.matcher == matcher && this.initial == (set s | s in initial) && this.analyze == analyze
      ensures recent.limit == recentLimit
      ensures fresh(recent) && fresh(collector) && fresh(collector.parts)
    {
      hide Heap.Valid, Collector.Valid;
      this.matcher, this.analyze := matcher, analyze;
      this.initial := set s | s in initial;
      recent := new Heap(recentLimit);
      collector := new Collector();
      pagesExamined, objectCount, storedBytes, unscoped := 0, 0, 0, 0;
      scopes := map s | s in initial :: Scope(s, false, 0, 0);
      catalogObjects, listing := [], [];
    }

    /** Finds the scope of a match, or makes room for it. */
    method OpenScope(name: string, ghost before: seq<Object>) returns (error: Option<Category>)
      requires Scoped(before)
      modifies this`scopes
      ensures error == if !ValidName(name) then Some(Incompatible)
                       else if name !in ScopeNames(matcher, initial, before)
                               && |ScopeNames(matcher, initial, before)| >= MAX_SCOPES then Some(SafetyLimit)
                       else None
      ensures error.None? ==>
                && scopes.Keys == ScopeNames(matcher, initial, before) + {name}
                && forall s :: s in scopes ==> scopes[s] == ScopeOf(matcher, before, s)
    {
      hide ValidName, Countable, ScopeNames, ScopeOf;
      if !ValidName(name) {
        return Some(Incompatible);
      }
      if name !in scopes {
        assert |scopes| == |scopes.Keys|;
        if |scopes| >= MAX_SCOPES {
          return Some(SafetyLimit);
        }
        NothingShared(matcher, initial, before, name);
        scopes := scopes[name := Scope(name, false, 0, 0)];
      }
      return None;
    }

    /** The scope half of `add`. */
    method CountScope(entry: Object, m: Match, ghost before: seq<Object>) returns (error: Option<Category>)
      requires Scoped(before) && Countable(before + [entry]) && matcher(entry.key) == Some(m)
      modifies this`scopes
      ensures error == if !ValidName(m.name) then Some(Incompatible)
                       else if m.name !in ScopeNames(matcher, initial, before)
                               && |ScopeNames(matcher, initial, before)| >= MAX_SCOPES then Some(SafetyLimit)
                       else None
      ensures error.None? ==> Scoped(before + [entry])
    {
      hide ValidName, Countable, ScopeNames, ScopeOf;
      error := OpenScope(m.name, before);
      if error.Some? {
        return;
      }
      ShareFits(matcher, before, entry, m.name);
      hide ScopesCount;
      var scope := scopes[m.name];
      if scope.count == MAX_INT64 || entry.size > MAX_INT64 - scope.bytes {
        assert false;
      }
      scope := Scope(m.name, scope.recognized || m.recognized, scope.count + 1, scope.bytes + entry.size);
      CountMatched(scopes, matcher, initial, before, entry, m, scope);
      scopes := scopes[m.name := scope];
    }

    /** The rest of `add`: the heap, the backup catalog and the WAL collector. */
    method Remember(entry: Object, m: Option<Match>, ghost before: seq<Object>) returns (error: Option<Category>)
      requires Streams(before) && matcher(entry.key) == m
      modifies this`catalogObjects, recent, collector, collector.parts
      ensures error == if m.Some? && BackupObject(entry.key) && |CatalogObjects(matcher, before)| >= MAX_CATALOG_OBJECTS
                       then Some(SafetyLimit) else None
      ensures error.None? ==> Streams(before + [entry])
      ensures fresh(collector.parts - old(collector.parts))
    {
      ListingSnoc(matcher, before, entry);
      hide BackupObject, Heap.Valid, Collector.Valid, Recents, Matched, CatalogObjects;
      recent.Add(RecentObject(entry.key, if m.Some? then m.value.name else "", entry.size, entry.lastModified));
      if m.Some? && BackupObject(entry.key) {
        if |catalogObjects| >= MAX_CATALOG_OBJECTS {
          return Some(SafetyLimit);
        }
        catalogObjects := catalogObjects + [entry];
      }
      if m.Some? && analyze {
        collector.Add(entry);
      }
      error := None;
    }

    /** The totals half of `add`. */
    method CountTotals(entry: Object, m: Option<Match>, ghost before: seq<Object>)
      requires Counted(before) && entry.key != "" && |entry.key| <= MAX_KEY_BYTES && entry.size >= 0
      requires objectCount < MAX_INT64 && entry.size <= MAX_INT64 - storedBytes
      requires matcher(entry.key) == m
      modifies this`objectCount, this`storedBytes, this`unscoped
      ensures Counted(before + [entry]) && Countable(before + [entry]) && objectCount == old(objectCount) + 1
    {
      hide TotalsCount, Countable;
      TotalsOne(objectCount, storedBytes, unscoped, matcher, before, entry);
      objectCount := objectCount + 1;
      storedBytes := storedBytes + entry.size;
      if m.None? {
        unscoped := unscoped + 1;
      }
    }

    /** One more page examined. */
    method CountPage()
      requires Valid() && 0 <= pagesExamined < MAX_INT64
      modifies this`pagesExamined
      ensures Valid() && pagesExamined == old(pagesExamined) + 1
    {
      hide Scoped, Streams, Counted;
      pagesExamined := pagesExamined + 1;
    }

    lemma ListingCounted()
      requires Valid()
      ensures objectCount == |listing|
    {
      hide Scoped, Streams, Bytes, Matched;
    }

    lemma CountedTotals(l: seq<Object>)
      requires Counted(l)
      ensures objectCount == |l| && storedBytes == Bytes(l) >= 0
    {
      BytesNonNegative(l);
    }

    /** Counts the object, in the totals and in its scope. */
    method Count(entry: Object, m: Option<Match>, ghost before: seq<Object>) returns (error: Option<Category>)
      requires Counted(before) && Scoped(before) && matcher(entry.key) == m
      modifies this`objectCount, this`storedBytes, this`unscoped, this`scopes
      ensures error == CountRefusal(matcher, initial, before, entry)
      ensures objectCount <= old(objectCount) + 1
      ensures error.None? ==> Counted(before + [entry]) && Scoped(before + [entry])
    {
      hide ValidName, TotalsCount, ScopesCount, Scoped, Counted, ScopeNames, Bytes, Countable;
      CountedTotals(before);
      if entry.key == "" || |entry.key| > MAX_KEY_BYTES || entry.size < 0 || objectCount == MAX_INT64
         || entry.size > MAX_INT64 - storedBytes {
        return Some(SafetyLimit);
      }
      CountTotals(entry, m, before);
      if m.Some? {
        error := CountScope(entry, m.value, before);
      } else {
        CountNone(entry, before);
        error := None;
      }
    }

    /** `add`. */
    method Add(entry: Object) returns (error: Option<Category>)
      requires Valid()
      modifies this, recent, collector, collector.parts
      ensures error == Refusal(matcher, initial, old(listing), entry)
      ensures error.None? ==> Valid() && listing == old(listing) + [entry]
      ensures pagesExamined == old(pagesExamined) && objectCount <= old(objectCount) + 1
      ensures fresh(collector.parts - old(collector.parts))
    {
      hide CountRefusal, Scoped, Streams, Counted, BackupObject, CatalogObjects;
      ghost var before := listing;
      var m := matcher(entry.key);
      error := Count(entry, m, before);
      if error.Some? {
        return;
      }
      error := Remember(entry, m, before);
      listing := listing + [entry];
    }

    lemma CountNone(entry: Object, before: seq<Object>)
      requires Scoped(before) && Countable(before + [entry]) && matcher(entry.key).None?
      ensures Scoped(before + [entry])
    {
      CountUnmatched(scopes, matcher, initial, before, entry);
    }
  }

  lemma {:induction false} NothingShared(matcher: Matcher, initial: set<string>, listing: seq<Object>, name: string)
    requires name !in ScopeNames(matcher, initial, listing) && Countable(listing)
    ensures ScopeOf(matcher, listing, name) == Scope(name, false, 0, 0)
  {
    NothingMatches(matcher, initial, listing, name);
  }

  lemma {:induction false} NothingMatches(matcher: Matcher, initial: set<string>, listing: seq<Object>, name: string)
    requires name !in ScopeNames(matcher, initial, listing)
    ensures Share(matcher, listing, name) == [] && !AnyRecognized(matcher, listing, name)
  {
    if listing != [] {
      NothingMatches(matcher, initial, listing[..|listing| - 1], name);
    }
  }

  /** One scope never holds more than the totals, so its counters cannot overflow before they do. */
  lemma ShareFits(matcher: Matcher, before: seq<Object>, entry: Object, name: string)
    requires Countable(before + [entry]) && Countable(before)
    ensures |Share(matcher, before, name)| < MAX_INT64
    ensures 0 <= Bytes(Share(matcher, before, name)) && 0 <= entry.size <= MAX_INT64 - Bytes(Share(matcher, before, name))
  {
    ShareBytes(matcher, before, name);
    assert (before + [entry])[..|before|] == before && (before + [entry])[|before|] == entry;
  }

  lemma NameSnoc(matcher: Matcher, initial: set<string>, listing: seq<Object>, entry: Object)
    ensures var m := matcher(entry.key);
            ScopeNames(matcher, initial, listing + [entry])
            == if m.Some? then ScopeNames(matcher, initial, listing) + {m.value.name} else ScopeNames(matcher, initial, listing)
  {
    var all := listing + [entry];
    assert all[..|all| - 1] == listing && all[|all| - 1] == entry;
  }

  lemma ScopeSnoc(matcher: Matcher, before: seq<Object>, entry: Object, s: string)
    requires Countable(before + [entry]) && Countable(before)
    ensures var scope, after, m := ScopeOf(matcher, before, s), ScopeOf(matcher, before + [entry], s), matcher(entry.key);
            if m.Some? && m.value.name == s
            then after.recognized == (scope.recognized || m.value.recognized) && after.count == scope.count + 1
                 && after.bytes == scope.bytes + entry.size
            else after == scope
  {
    hide Countable, Share, AnyRecognized, Bytes;
    ShareSnoc(matcher, before, entry, s);
  }
}
