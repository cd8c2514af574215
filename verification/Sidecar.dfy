// The sidecar's publishing cache: engine first, then cache (internal/application/application.go).
module Sidecar {
  import opened Results
  import opened Inventory
  import opened Publications
  import opened EvidenceEngine

  /** Each publication so far is the projection of a snapshot that was current, the last one of the current snapshot. */
  ghost predicate Mirrors(log: seq<Publication>, published: seq<Snapshot>, o: ProjectOptions) {
    && log != [] && published != [] && Project(published[|published| - 1], o) == Some(log[|log| - 1])
    && forall p :: p in log ==> HasSource(p, published, o)
  }

  ghost predicate HasSource(p: Publication, published: seq<Snapshot>, o: ProjectOptions) {
    exists i :: ProjectionAt(p, published, o, i)
  }

  ghost predicate ProjectionAt(p: Publication, published: seq<Snapshot>, o: ProjectOptions, i: int) {
    0 <= i < |published| && Project(published[i], o) == Some(p)
  }

  class EvidencePublishingCache {
    const cache: Cache
    const engine: Engine
    ghost var published: seq<Snapshot>       // every snapshot that was ever current

    /** The engine always publishes the projection of the cached snapshot, and only ever published such projections. */
    ghost predicate Coherent()
      reads this, cache, engine
    {
      && cache.Valid() && engine.Valid()
      && Mirrors(engine.log, published, engine.options) && cache.current == published[|published| - 1]
    }

    constructor (cache: Cache, engine: Engine)
      requires cache.Valid() && engine.Valid() && engine.current.Some? && engine.current == Project(cache.current, engine.options)
      requires |engine.log| == 1
      ensures Coherent() && this.cache == cache && this.engine == engine && published == [cache.current]
    {
      hide Log, ValidSnapshot, Project;
      this.cache, this.engine, published := cache, engine, [cache.current];
      new;
      assert engine.log == [engine.log[0]];
      assert ProjectionAt(engine.log[0], published, engine.options, 0);
    }

    method Load() returns (s: Snapshot)
      ensures s == cache.current
    {
      s := cache.Load();
    }

    /**
     * `Publish`: whatever is published, refused or repeated, engine and cache agree afterwards. A snapshot the engine
     * accepted is never refused by the cache.
     */
    method Publish(s: Snapshot) returns (done: bool)
      requires Coherent()
      modifies this, cache, engine
      ensures Coherent()
      ensures done <==> Admits(old(engine.current), s, engine.options)
      ensures cache.current == if done then s else old(cache.current)
      ensures published == if done then old(published) + [s] else old(published)
    {
      hide Log, ValidPublication, ValidSnapshot, Project;
      ghost var before := engine.log;
      var error := engine.Publish(s);
      if error.Some? {
        return false;
      }
      ProjectedIsSnapshot(s, engine.options);
      done := cache.Publish(s);
      MirrorsMore(before, engine.log, published, s, engine.options);
      published := published + [s];
    }
  }

  lemma MirrorsMore(log: seq<Publication>, log': seq<Publication>, published: seq<Snapshot>, s: Snapshot, o: ProjectOptions)
    requires Mirrors(log, published, o) && Project(s, o).Some?
    requires log' == log + [Project(s, o).value] || (log' == log && Project(s, o).value == log[|log| - 1])
    ensures Mirrors(log', published + [s], o)
  {
    hide Project;
    var all := published + [s];
    assert all[|all| - 1] == s && Project(s, o) == Some(log'[|log'| - 1]);
    assert ProjectionAt(Project(s, o).value, all, o, |published|);
    forall p | p in log' ensures HasSource(p, all, o) {
      if p in log {
        var i :| ProjectionAt(p, published, o, i);
        assert ProjectionAt(p, all, o, i);
      }
    }
  }

  /** What the engine lets through: a later revision, or the same publication again. */
  ghost predicate Admits(current: Option<Publication>, s: Snapshot, o: ProjectOptions) {
    var projected := Project(s, o);
    projected.Some?
    && (current.None? || current.value.snapshot.revision < projected.value.snapshot.revision || current == projected)
  }

  /** Projection validates its source first. */
  lemma ProjectedIsSnapshot(s: Snapshot, o: ProjectOptions)
    requires Project(s, o).Some?
    ensures ValidSnapshot(s)
  {
    hide ValidSnapshot, ValidPublication, Confined;
  }
}
