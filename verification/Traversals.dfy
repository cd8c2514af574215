// A client that follows cursors, under any interleaving with publication (internal/evidenceapi/engine.go).
module Traversals {
  import opened Results
  import opened WalNames
  import opened Inventory
  import opened Publications
  import opened EvidenceEngine

  function Items(pages: seq<Page>): seq<Item> {
    if pages == [] then [] else Items(pages[..|pages| - 1]) + pages[|pages| - 1].items
  }

  /** How many items a number of full pages holds. */
  function After(pages: nat, limit: nat): nat {
    pages * limit
  }

  lemma OnePageMore(pages: nat, limit: nat)
    ensures After(pages + 1, limit) == After(pages, limit) + limit
    ensures After(0, limit) == 0
  {
  }

  lemma {:induction false} AfterGrows(pages: nat, limit: nat)
    requires limit > 0
    ensures pages <= After(pages, limit)
  {
    if pages > 0 {
      AfterGrows(pages - 1, limit);
    }
  }

  /** max(1, ceil(n / limit)). */
  function PageCount(n: nat, limit: nat): nat
    requires limit > 0
  {
    if n == 0 then 1 else (n + limit - 1) / limit
  }

  /** Exactly one publication's collection: every item once and in order, in the fewest pages the limit allows. */
  ghost predicate Traversed(pages: seq<Page>, p: Publication, route: Route, limit: nat)
    requires limit > 0
  {
    && Items(pages) == Collection(p, route)
    && |pages| == PageCount(Length(p, route), limit)
    && forall k :: 0 <= k < |pages| ==>
         ValidPage(pages[k]) && pages[k].revision == p.snapshot.revision && pages[k].total == Length(p, route)
  }

  /** After `k` full pages of one publication: what was seen, and the cursor to the rest. */
  ghost predicate Midway(pages: seq<Page>, cursor: string, p: Publication, c: PageCodec, route: Route, limit: U64) {
    && pages != [] && After(|pages|, limit) < Length(p, route) && Bounded(p)
    && cursor == EncodePayload(c, PayloadAt(p, route, After(|pages|, limit), limit))
    && Seen(pages, p, route, After(|pages|, limit))
  }

  /** The first items of one publication, on valid pages. */
  ghost predicate Seen(pages: seq<Page>, p: Publication, route: Route, position: nat) {
    && position <= Length(p, route) && Items(pages) == Slice(p, route, 0, position)
    && forall k :: 0 <= k < |pages| ==>
         ValidPage(pages[k]) && pages[k].revision == p.snapshot.revision && pages[k].total == Length(p, route)
  }

  lemma SeenMore(pages: seq<Page>, p: Publication, route: Route, position: nat, page: Page, end: nat)
    requires Seen(pages, p, route, position) && position <= end <= Length(p, route)
    requires ValidPage(page) && page.revision == p.snapshot.revision && page.total == Length(p, route)
    requires page.items == Slice(p, route, position, end)
    ensures Seen(pages + [page], p, route, end)
  {
    hide ValidPage, ItemAt;
    var all := pages + [page];
    assert all[..|pages|] == pages;
    assert Slice(p, route, 0, position) + Slice(p, route, position, end) == Slice(p, route, 0, end);
  }

  /** What one successful request adds to a walk that stands at some position. */
  lemma PageStep(p: Publication, c: PageCodec, route: Route, pages: seq<Page>, limit: U64, page: Page)
    requires Bounded(p) && 1 <= limit <= MAXIMUM_PAGE_SIZE
    requires After(|pages|, limit) < Length(p, route) || pages == []
    requires Seen(pages, p, route, After(|pages|, limit))
    requires PageAt(p, c, route, After(|pages|, limit), limit) == Ok(page)
    ensures page.next.Some? ==> Midway(pages + [page], page.next.value, p, c, route, limit)
    ensures page.next.None? ==> Traversed(pages + [page], p, route, limit)
  {
    hide ValidPage, EncodePayload, After, PageCount, Seen;
    OnePageMore(|pages|, limit);
    var start, total := After(|pages|, limit), Length(p, route);
    var end := Min(start + limit, total);
    SeenMore(pages, p, route, start, page, end);
    if end == total {
      CountedPages(|pages|, limit, total);
      SeenAll(pages + [page], p, route, limit);
    }
  }

  lemma SeenAll(pages: seq<Page>, p: Publication, route: Route, limit: nat)
    requires limit > 0 && Seen(pages, p, route, Length(p, route)) && |pages| == PageCount(Length(p, route), limit)
    ensures Traversed(pages, p, route, limit)
  {
    hide ValidPage, ItemAt, PageCount;
  }

  lemma CountedPages(done: nat, limit: nat, total: nat)
    requires limit > 0 && total <= After(done, limit) + limit && (After(done, limit) < total || (done == 0 && total == 0))
    ensures PageCount(total, limit) == done + 1
  {
    if total > 0 {
      QuotientBelow(total + limit - 1, limit, done + 1);
      QuotientBelow(total + limit - 1, limit, done + 2);
      assert (done + 1) * limit == done * limit + limit && (done + 2) * limit == done * limit + limit + limit;
    }
  }

  /** A cursor issued midway is bounded, and understood at the same revision and limit. */
  lemma ContinuesMidway(p: Publication, c: PageCodec, route: Route, pages: seq<Page>, cursor: string, limit: int)
    requires Lawful(c) && 0 <= limit <= MAXIMUM_PAGE_SIZE
    requires Midway(pages, cursor, p, c, route, EffectiveLimit(limit))
    ensures |cursor| <= MAXIMUM_CURSOR_BYTES && cursor != ""
    ensures p.snapshot.revision != 0 && p.snapshot.generation != 0 ==>
              StartOf(Some(p), c, route, PageRequest(p.snapshot.revision, limit, cursor)) == Ok(After(|pages|, EffectiveLimit(limit)))
  {
    IssuedCursor(c, PayloadAt(p, route, After(|pages|, EffectiveLimit(limit)), EffectiveLimit(limit)));
    AfterGrows(|pages|, EffectiveLimit(limit));
    hide EncodePayload, DecodePayload, Seen, Lawful, After;
  }

  /** Where the client stands: at the beginning, or midway through the publication of its revision. */
  ghost predicate Standing(pages: seq<Page>, cursor: string, p: Publication, c: PageCodec, route: Route, revision: U64, limit: U64) {
    if pages == [] then cursor == ""
    else p.snapshot.revision == revision && p.snapshot.generation != 0 && Midway(pages, cursor, p, c, route, limit)
  }

  /** Every answer such a client can get. */
  lemma Answer(current: Publication, p: Publication, c: PageCodec, route: Route, pages: seq<Page>, cursor: string, revision: U64,
               limit: int)
    requires Lawful(c) && ValidPublication(current) && Bounded(current) && revision != 0 && 0 <= limit <= MAXIMUM_PAGE_SIZE
    requires Standing(pages, cursor, p, c, route, revision, EffectiveLimit(limit))
    requires pages != [] && current.snapshot.revision == revision ==> current == p
    ensures var r := PageOf(Some(current), c, route, PageRequest(revision, limit, cursor));
            if revision != current.snapshot.revision then r == Err(PublicationChanged)
            else if current.snapshot.generation == 0 then r == Err(InvalidRequest)
            else r.Ok?
                 && After(|pages|, EffectiveLimit(limit)) <= Length(current, route)
                 && (pages != [] ==> After(|pages|, EffectiveLimit(limit)) < Length(current, route))
                 && r == PageAt(current, c, route, After(|pages|, EffectiveLimit(limit)), EffectiveLimit(limit))
                 && Seen(pages, current, route, After(|pages|, EffectiveLimit(limit)))
  {
    hide ValidPublication, DecodePayload, EncodePayload, PageAt, Lawful, After;
    OnePageMore(0, EffectiveLimit(limit));
    if pages != [] {
      ContinuesMidway(p, c, route, pages, cursor, limit);
    }
    if revision == current.snapshot.revision && current.snapshot.generation != 0 {
      SliceIsValid(current, c, route, After(|pages|, EffectiveLimit(limit)), EffectiveLimit(limit));
      if pages == [] {
        assert Slice(current, route, 0, 0) == [];
      }
    }
  }

  /** Publishes a batch of snapshots, whatever comes of each. */
  method Interleave(e: Engine, batch: seq<Snapshot>)
    requires e.Valid()
    modifies e
    ensures e.Valid() && old(e.log) <= e.log
  {
    hide Log, Project;
    for k := 0 to |batch|
      invariant e.Valid() && old(e.log) <= e.log
    {
      var error := e.Publish(batch[k]);
    }
  }

  /** The current publication is valid and bounded, and the only one of its revision. */
  lemma CurrentIs(e: Engine)
    requires e.Valid() && e.log != []
    ensures e.current.Some? && e.current.value in e.log && ValidPublication(e.current.value) && Bounded(e.current.value)
    ensures forall q :: q in e.log && q.snapshot.revision == e.current.value.snapshot.revision ==> q == e.current.value
  {
    hide ValidPublication, Bounded;
    forall q | q in e.log && q.snapshot.revision == e.current.value.snapshot.revision ensures q == e.current.value {
      RevisionIsUnique(e.log, q, e.current.value);
    }
  }

  /**
   * Follows cursors from the empty one at one revision and limit while `feed` publishes between any two requests. The
   * client obtains exactly that revision's collection, or learns that the publication changed; a revision that holds no
   * complete evidence is refused at once.
   */
  method Follow(e: Engine, route: Route, revision: U64, limit: int, feed: nat -> seq<Snapshot>)
    returns (r: Result<seq<Page>, EngineError>, ghost p: Publication)
    requires e.Valid() && e.log != [] && Lawful(e.codec) && revision != 0 && 0 <= limit <= MAXIMUM_PAGE_SIZE
    modifies e
    ensures e.Valid() && old(e.log) <= e.log
    ensures r.Ok? ==> p in e.log && p.snapshot.revision == revision && Traversed(r.value, p, route, EffectiveLimit(limit))
    ensures r.Err? ==>
              && e.current == Some(p)
              && if p.snapshot.revision != revision then r.error == PublicationChanged
                 else r.error == InvalidRequest && p.snapshot.generation == 0
  {
    hide Engine.Valid, Traversed, Midway, Seen, PageAt, PageOf, Lawful, ValidPublication, Bounded, After;
    CurrentIs(e);
    var cursor, pages, calls := "", [], 0;
    p := e.current.value;
    while true
      invariant e.Valid() && e.log != [] && old(e.log) <= e.log && p in e.log
      invariant Standing(pages, cursor, p, e.codec, route, revision, EffectiveLimit(limit)) && |pages| <= 10_000
      decreases 10_000 - |pages|
    {
      Interleave(e, feed(calls));
      calls := calls + 1;
      CurrentIs(e);
      var page := e.GetPage(route, PageRequest(revision, limit, cursor));
      Answer(e.current.value, p, e.codec, route, pages, cursor, revision, limit);
      p := e.current.value;
      if page.Err? {
        return Err(page.error), p;
      }
      PageStep(p, e.codec, route, pages, EffectiveLimit(limit), page.value);
      pages := pages + [page.value];
      if page.value.next.None? {
        return Ok(pages), p;
      }
      cursor := page.value.next.value;
      MidwayBounded(pages, cursor, p, e.codec, route, EffectiveLimit(limit));
    }
  }

  lemma MidwayBounded(pages: seq<Page>, cursor: string, p: Publication, c: PageCodec, route: Route, limit: U64)
    requires Midway(pages, cursor, p, c, route, limit) && limit > 0
    ensures |pages| < 10_000
  {
    AfterGrows(|pages|, limit);
    hide Seen, After;
  }
}
