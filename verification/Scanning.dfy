// One bounded scan of an arbitrary object store (scanner.go, scan).
module Scanning {
  import opened Results
  import opened Store
  import opened WalCollector
  import opened Histories
  import opened RecoveryCatalogs
  import opened Inventory
  import opened InventoryBuilder
  import opened BackupCatalogs
  import opened WalNames

  // ---------------------------------------------------------------- the world outside

  /** An error of a scan: a cancelled context, or anything else with its category. */
  datatype Failure = ContextCanceled | Fault(category: Category)

  /** `fault.Categorize`. */
  function Categorize(f: Failure): Category {
    if f.ContextCanceled? then Canceled else f.category
  }

  datatype Reply = Failed(error: Failure) | Replied(page: Page)

  /** One refresh as the scanner sees it. Nothing is assumed of the store: each call may answer anything. */
  datatype Environment = Environment(
    list: (nat, string, int) -> Reply,         // the n-th list call, with a cursor and a limit
    context: nat -> Option<Failure>,           // the context's error before that call
    afterCatalog: Option<Failure>, afterRecovery: Option<Failure>,
    backup: DirectoryReader,                   // reading the metadata of one backup directory
    read: HistoryObject -> HistoryText,
    started: Time, completed: Time, failedAt: Time)

  datatype Settings = Settings(
    descriptor: Descriptor, matcher: Option<Matcher>, initial: seq<string>, analyze: bool,
    maxObjects: int, pageSize: int, recentLimit: nat, options: RecoveryOptions)

  /** What `NewScanner` accepts, within the ceiling on objects that configuration allows. */
  ghost predicate ValidSettings(st: Settings) {
    && ValidDescriptor(st.descriptor) && |st.initial| <= MAX_SCOPES
    && 1 <= st.maxObjects <= 10_000_000 && 1 <= st.pageSize <= MAX_PAGE_OBJECTS && 1 <= st.recentLimit <= MAX_RECENT_OBJECTS
  }

  function MaxPages(st: Settings): int
    requires st.pageSize > 0
  {
    (st.maxObjects + st.pageSize - 1) / st.pageSize + 100
  }

  // ---------------------------------------------------------------- the listing a scan accepts

  /** Offers the objects of one page in turn. */
  function Take(matcher: Matcher, initial: set<string>, listing: seq<Object>, objects: seq<Object>): Result<seq<Object>, Failure>
    decreases |objects|
  {
    if objects == [] then Ok(listing)
    else
      var refusal := Refusal(matcher, initial, listing, objects[0]);
      if refusal.Some? then Err(Fault(refusal.value)) else Take(matcher, initial, listing + [objects[0]], objects[1..])
  }

  datatype Walked = Walked(listing: seq<Object>, pages: nat)

  function Limit(st: Settings, listing: seq<Object>): int {
    if st.pageSize <= st.maxObjects - |listing| then st.pageSize else st.maxObjects - |listing|
  }

  /** The paged walk: everything listed, or why the walk was given up. */
  function Walk(env: Environment, st: Settings, matcher: Matcher, initial: set<string>, call: nat, cursor: string, listing: seq<Object>)
    : Result<Walked, Failure>
    requires st.pageSize > 0
    decreases MaxPages(st) - call
  {
    if env.context(call).Some? then Err(env.context(call).value)
    else if call >= MaxPages(st) || |listing| >= st.maxObjects then Err(Fault(SafetyLimit))
    else
      var reply := env.list(call, cursor, Limit(st, listing));
      if reply.Failed? then Err(reply.error)
      else if |reply.page.objects| > Limit(st, listing) || |reply.page.nextCursor| > MAX_CURSOR_BYTES then Err(Fault(SafetyLimit))
      else
        var taken := Take(matcher, initial, listing, reply.page.objects);
        if taken.Err? then Err(taken.error)
        else if reply.page.nextCursor == "" then Ok(Walked(taken.value, call + 1))
        else if |taken.value| >= st.maxObjects || reply.page.nextCursor == cursor then Err(Fault(SafetyLimit))
        else Walk(env, st, matcher, initial, call + 1, reply.page.nextCursor, taken.value)
  }

  lemma {:induction false} TakeAppends(matcher: Matcher, initial: set<string>, listing: seq<Object>, objects: seq<Object>)
    ensures var taken := Take(matcher, initial, listing, objects);
            taken.Ok? ==> taken.value == listing + objects
    decreases |objects|
  {
    if objects != [] {
      TakeAppends(matcher, initial, listing + [objects[0]], objects[1..]);
      assert listing + [objects[0]] + objects[1..] == listing + objects;
    } else {
      assert listing + objects == listing;
    }
  }

  function Concat(pages: seq<Page>): seq<Object> {
    if pages == [] then [] else Concat(pages[..|pages| - 1]) + pages[|pages| - 1].objects
  }

  function CursorAt(pages: seq<Page>, k: nat): string
    requires k <= |pages|
  {
    if k == 0 then "" else pages[k - 1].nextCursor
  }

  /** The pages are what the store answered, call after call, each asked for with the cursor of the one before. */
  ghost predicate Answered(env: Environment, st: Settings, pages: seq<Page>) {
    forall k :: 0 <= k < |pages| ==> AnsweredAt(env, st, pages, k)
  }

  ghost predicate AnsweredAt(env: Environment, st: Settings, pages: seq<Page>, k: nat) {
    k < |pages| && env.list(k, CursorAt(pages, k), Limit(st, Concat(pages[..k]))) == Replied(pages[k])
  }

  lemma AnsweredSnoc(env: Environment, st: Settings, pages: seq<Page>, page: Page)
    requires Answered(env, st, pages)
    requires env.list(|pages|, CursorAt(pages, |pages|), Limit(st, Concat(pages))) == Replied(page)
    ensures Answered(env, st, pages + [page]) && Concat(pages + [page]) == Concat(pages) + page.objects
  {
    var all := pages + [page];
    assert all[..|pages|] == pages;
    hide Concat;
    forall k | 0 <= k < |all| ensures AnsweredAt(env, st, all, k) {
      assert k > 0 ==> all[k - 1] == pages[k - 1];
      if k < |pages| {
        assert AnsweredAt(env, st, pages, k);
        assert all[..k] == pages[..k] && all[k] == pages[k];
      }
    }
  }

  /**
   * A walk succeeds only after a page with no further cursor, and then it accepted exactly what the store listed: the
   * concatenation of its answers, within the ceilings on objects and on list calls.
   */
  lemma {:induction false} WalkExhausts(env: Environment, st: Settings, matcher: Matcher, initial: set<string>, before: seq<Page>)
    returns (pages: seq<Page>)
    requires st.pageSize > 0 && Answered(env, st, before)
    requires Walk(env, st, matcher, initial, |before|, CursorAt(before, |before|), Concat(before)).Ok?
    ensures var walked := Walk(env, st, matcher, initial, |before|, CursorAt(before, |before|), Concat(before)).value;
            && |pages| == walked.pages <= MaxPages(st) && pages != [] && Answered(env, st, pages)
            && pages[|pages| - 1].nextCursor == "" && walked.listing == Concat(pages) && |walked.listing| <= st.maxObjects
    decreases MaxPages(st) - |before|
  {
    hide Take, MaxPages, Answered;
    var call, cursor, listing := |before|, CursorAt(before, |before|), Concat(before);
    var page := env.list(call, cursor, Limit(st, listing)).page;
    TakeAppends(matcher, initial, listing, page.objects);
    AnsweredSnoc(env, st, before, page);
    if page.nextCursor == "" {
      pages := before + [page];
    } else {
      pages := WalkExhausts(env, st, matcher, initial, before + [page]);
    }
  }

  // ---------------------------------------------------------------- the loop

  /** Adds the objects of one page. */
  method AddPage(b: Builder, objects: seq<Object>) returns (error: Option<Category>)
    requires b.Valid()
    modifies b, b.recent, b.collector, b.collector.parts
    ensures var taken := Take(b.matcher, b.initial, old(b.listing), objects);
            if taken.Ok? then error.None? && b.Valid() && b.listing == taken.value
            else error.Some? && taken.error == Fault(error.value)
    ensures b.pagesExamined == old(b.pagesExamined) && b.objectCount <= old(b.objectCount) + |objects|
    ensures fresh(b.collector.parts - old(b.collector.parts))
  {
    hide Builder.Valid, Refusal;
    for k := 0 to |objects|
      invariant b.Valid()
      invariant Take(b.matcher, b.initial, old(b.listing), objects) == Take(b.matcher, b.initial, b.listing, objects[k..])
      invariant b.pagesExamined == old(b.pagesExamined) && b.objectCount <= old(b.objectCount) + k
      invariant fresh(b.collector.parts - old(b.collector.parts))
    {
      assert objects[k..][1..] == objects[k + 1..];
      error := b.Add(objects[k]);
      if error.Some? {
        return;
      }
    }
    error := None;
  }

  lemma RoundUpBounded(m: nat, p: nat)
    requires p >= 1
    ensures 0 <= (m + p - 1) / p <= m
  {
    ProductAtLeast(m, p);
    assert (m + 1) * p == m * p + p;
    QuotientBelow(m + p - 1, p, m + 1);
  }

  lemma PagesBounded(st: Settings)
    requires ValidSettings(st)
    ensures 100 <= MaxPages(st) <= 10_001_000
  {
    hide ValidDescriptor;
    RoundUpBounded(st.maxObjects, st.pageSize);
  }

  /** Lists pages until the store has no more, within the ceilings. */
  method ListAll(env: Environment, st: Settings, b: Builder) returns (error: Option<Failure>, calls: nat)
    requires ValidSettings(st) && b.Valid() && b.listing == [] && b.pagesExamined == 0
    modifies b, b.recent, b.collector, b.collector.parts
    ensures var walked := Walk(env, st, b.matcher, b.initial, 0, "", []);
            if walked.Ok? then error.None? && b.Valid() && b.listing == walked.value.listing && b.pagesExamined == walked.value.pages
            else error == Some(walked.error)
    ensures calls <= MaxPages(st) && b.objectCount <= st.maxObjects
    ensures fresh(b.collector.parts - old(b.collector.parts))
  {
    hide Take, Builder.Valid;
    var cursor, maxPages := "", MaxPages(st);
    PagesBounded(st);
    b.ListingCounted();
    hide MaxPages;
    calls := 0;
    while true
      invariant b.Valid() && 0 <= calls <= maxPages == MaxPages(st) <= 10_001_000
      invariant b.pagesExamined == calls && b.objectCount == |b.listing| <= st.maxObjects
      invariant Walk(env, st, b.matcher, b.initial, 0, "", []) == Walk(env, st, b.matcher, b.initial, calls, cursor, b.listing)
      invariant fresh(b.collector.parts - old(b.collector.parts))
      decreases maxPages - calls
    {
      if env.context(calls).Some? {
        error := env.context(calls);
        return;
      }
      if calls >= maxPages {
        return Some(Fault(SafetyLimit)), calls;
      }
      var remaining := st.maxObjects - b.objectCount;
      if remaining <= 0 {
        return Some(Fault(SafetyLimit)), calls;
      }
      var limit := if st.pageSize <= remaining then st.pageSize else remaining;
      var reply := env.list(calls, cursor, limit);
      calls := calls + 1;
      if reply.Failed? {
        return Some(reply.error), calls;
      }
      var page := reply.page;
      if |page.objects| > limit || |page.nextCursor| > MAX_CURSOR_BYTES {
        return Some(Fault(SafetyLimit)), calls;
      }
      TakeAppends(b.matcher, b.initial, b.listing, page.objects);
      b.CountPage();
      var refused := AddPage(b, page.objects);
      if refused.Some? {
        return Some(Fault(refused.value)), calls;
      }
      if page.nextCursor == "" {
        return None, calls;
      }
      b.ListingCounted();
      if b.objectCount >= st.maxObjects || page.nextCursor == cursor {
        return Some(Fault(SafetyLimit)), calls;
      }
      cursor := page.nextCursor;
    }
  }
}
