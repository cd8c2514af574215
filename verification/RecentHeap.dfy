// The bounded heap of most recent objects (scanner.go, over Go's container/heap).
module RecentHeap {
  import opened Results
  import opened Text
  import Sorting

  datatype RecentObject = RecentObject(key: string, scope: string, size: int, lastModified: Time)

  /** Newest first, then by key. */
  predicate MoreRecent(a: RecentObject, b: RecentObject) {
    if a.lastModified != b.lastModified then a.lastModified > b.lastModified else Less(a.key, b.key)
  }

  lemma MoreRecentIsOrder()
    ensures Sorting.StrictWeakOrder(MoreRecent)
  {
    forall a: RecentObject, b: RecentObject | MoreRecent(a, b) ensures !MoreRecent(b, a) {
      if a.lastModified == b.lastModified {
        LessAsymmetric(a.key, b.key);
      }
    }
    forall a: RecentObject, b: RecentObject, c: RecentObject | !MoreRecent(b, a) && !MoreRecent(c, b) ensures !MoreRecent(c, a) {
      NotMoreTransitive(a, b, c);
    }
  }

  lemma NotMoreTransitive(a: RecentObject, b: RecentObject, c: RecentObject)
    requires !MoreRecent(b, a) && !MoreRecent(c, b)
    ensures !MoreRecent(c, a)
  {
    if MoreRecent(c, a) && a.lastModified == b.lastModified == c.lastModified {
      LessTotal(a.key, b.key);
      if Less(a.key, b.key) {
        LessTransitive(c.key, a.key, b.key);
      }
    }
  }

  // ---------------------------------------------------------------- heap order, least recent at the root

  function Parent(i: int): int {
    (i - 1) / 2
  }

  /** A parent is not more recent than its child. */
  predicate Fits(s: seq<RecentObject>, parent: int, child: int) {
    0 <= parent < |s| && 0 <= child < |s| && !MoreRecent(s[parent], s[child])
  }

  ghost predicate HeapOrdered(s: seq<RecentObject>) {
    forall c :: 0 < c < |s| ==> Fits(s, Parent(c), c)
  }

  /** Only the entry at `j` may be too old for its place. */
  ghost predicate Rising(s: seq<RecentObject>, j: int) {
    && (forall c :: 0 < c < |s| && c != j ==> Fits(s, Parent(c), c))
    && (forall c :: 0 < j < c < |s| && Parent(c) == j ==> Fits(s, Parent(j), c))
  }

  /** Only the entry at `j` may be too recent for its place. */
  ghost predicate Sinking(s: seq<RecentObject>, j: int) {
    && (forall c :: 0 < c < |s| && Parent(c) != j ==> Fits(s, Parent(c), c))
    && (forall c :: 0 < j < c < |s| && Parent(c) == j ==> Fits(s, Parent(j), c))
  }

  function Swapped(s: seq<RecentObject>, i: nat, j: nat): (r: seq<RecentObject>)
    requires i < |s| && j < |s|
    ensures |r| == |s|
  {
    s[i := s[j]][j := s[i]]
  }

  lemma SwappedContents(s: seq<RecentObject>, i: nat, j: nat)
    requires i < |s| && j < |s|
    ensures multiset(Swapped(s, i, j)) == multiset(s)
  {
  }

  lemma RiseStep(s: seq<RecentObject>, j: nat)
    requires 0 < j < |s| && Rising(s, j) && MoreRecent(s[Parent(j)], s[j])
    ensures Rising(Swapped(s, Parent(j), j), Parent(j))
  {
    hide Less, MoreRecent;
    MoreRecentIsOrder();
    var t := Swapped(s, Parent(j), j);
    forall c | 0 < c < |t| && c != Parent(j) ensures Fits(t, Parent(c), c) {
      assert Fits(s, Parent(c), c) || c == j;
    }
    forall c | 0 < Parent(j) < c < |t| && Parent(c) == Parent(j) ensures Fits(t, Parent(Parent(j)), c) {
      assert Fits(s, Parent(Parent(j)), Parent(j));
      assert c != j ==> Fits(s, Parent(c), c);
    }
  }

  lemma RisenFits(s: seq<RecentObject>, j: nat)
    requires j < |s| && Rising(s, j) && (j == 0 || !MoreRecent(s[Parent(j)], s[j]))
    ensures HeapOrdered(s)
  {
    hide MoreRecent;
  }

  /** Swapping the too recent entry with its less recent child moves the fault down. */
  lemma SinkStep(s: seq<RecentObject>, i: nat, j: nat)
    requires i < j < |s| && Parent(j) == i && Sinking(s, i) && MoreRecent(s[i], s[j])
    requires forall c :: 0 < c < |s| && Parent(c) == i ==> !MoreRecent(s[j], s[c])
    ensures Sinking(Swapped(s, i, j), j)
  {
    hide Less, MoreRecent;
    MoreRecentIsOrder();
    var t := Swapped(s, i, j);
    forall c | 0 < c < |t| && Parent(c) != j ensures Fits(t, Parent(c), c) {
      assert Parent(c) != i ==> Fits(s, Parent(c), c);
      assert c == i ==> Fits(s, Parent(i), j);
    }
    forall c | 0 < j < c < |t| && Parent(c) == j ensures Fits(t, Parent(j), c) {
      assert Fits(s, Parent(c), c);
    }
  }

  lemma SunkFits(s: seq<RecentObject>, i: nat)
    requires Sinking(s, i)
    requires forall c :: 0 < c < |s| && Parent(c) == i ==> Fits(s, i, c)
    ensures HeapOrdered(s)
  {
    hide MoreRecent;
  }

  /** The root is never more recent than anything kept. */
  lemma {:induction false} RootIsLeast(s: seq<RecentObject>, k: nat)
    requires HeapOrdered(s) && k < |s|
    ensures !MoreRecent(s[0], s[k])
    decreases k
  {
    hide MoreRecent;
    MoreRecentIsOrder();
    if k > 0 {
      RootIsLeast(s, Parent(k));
      assert Fits(s, Parent(k), k);
    }
  }

  // ---------------------------------------------------------------- exact selection

  /** The kept and the left out are what was offered, and nothing left out is more recent than anything kept. */
  ghost predicate Selects(kept: seq<RecentObject>, omitted: seq<RecentObject>, offered: seq<RecentObject>, limit: nat) {
    && multiset(kept) + multiset(omitted) == multiset(offered)
    && |kept| <= limit && (|kept| < limit ==> omitted == [])
    && forall o, e :: o in omitted && e in kept ==> !MoreRecent(o, e)
  }

  lemma SelectLength(kept: seq<RecentObject>, omitted: seq<RecentObject>, offered: seq<RecentObject>, limit: nat)
    requires Selects(kept, omitted, offered, limit)
    ensures |kept| == if |offered| < limit then |offered| else limit
  {
    assert |multiset(kept) + multiset(omitted)| == |kept| + |omitted| && |multiset(offered)| == |offered|;
  }

  lemma SelectPush(before: seq<RecentObject>, after: seq<RecentObject>, offered: seq<RecentObject>, limit: nat, x: RecentObject)
    requires Selects(before, [], offered, limit) && |before| < limit
    requires multiset(after) == multiset(before + [x])
    ensures Selects(after, [], offered + [x], limit)
  {
    assert multiset(after) + multiset([]) == multiset(offered + [x]);
    assert |after| == |multiset(after)| == |before| + 1;
  }

  /** At the limit, an object no more recent than the root is left out. */
  lemma SelectSkip(kept: seq<RecentObject>, omitted: seq<RecentObject>, offered: seq<RecentObject>, limit: nat, x: RecentObject)
    requires Selects(kept, omitted, offered, limit) && |kept| == limit > 0
    requires HeapOrdered(kept) && !MoreRecent(x, kept[0])
    ensures Selects(kept, omitted + [x], offered + [x], limit)
  {
    hide Less, MoreRecent;
    MoreRecentIsOrder();
    forall o, e | o in omitted + [x] && e in kept ensures !MoreRecent(o, e) {
      var k :| 0 <= k < |kept| && kept[k] == e;
      RootIsLeast(kept, k);
    }
    assert multiset(kept) + multiset(omitted + [x]) == multiset(offered + [x]);
  }

  /** Otherwise it takes the place of the root. */
  lemma SelectReplace(kept: seq<RecentObject>, after: seq<RecentObject>, omitted: seq<RecentObject>, offered: seq<RecentObject>,
                      limit: nat, x: RecentObject)
    requires Selects(kept, omitted, offered, limit) && |kept| == limit > 0
    requires HeapOrdered(kept) && MoreRecent(x, kept[0]) && multiset(after) == multiset(kept[0 := x])
    ensures Selects(after, omitted + [kept[0]], offered + [x], limit)
  {
    hide Less, MoreRecent;
    MoreRecentIsOrder();
    var next := kept[0 := x];
    Sorting.SameMembers(after, next);
    forall o, e | o in omitted + [kept[0]] && e in after ensures !MoreRecent(o, e) {
      var k :| 0 <= k < |next| && next[k] == e;
      RootIsLeast(kept, k);
      assert kept[0] in kept && kept[k] in kept;
    }
    assert multiset(next) == multiset(kept) - multiset{kept[0]} + multiset{x};
    assert multiset(after) + multiset(omitted + [kept[0]]) == multiset(offered + [x]);
  }

  // ---------------------------------------------------------------- the heap

  class Heap {
    var entries: seq<RecentObject>
    const limit: nat
    ghost var offered: seq<RecentObject>   // every object added, in order
    ghost var omitted: seq<RecentObject>   // those not kept

    ghost predicate Valid()
      reads this
    {
      limit > 0 && HeapOrdered(entries) && Selects(entries, omitted, offered, limit)
    }

    constructor (limit: nat)
      requires limit > 0
      ensures Valid() && this.limit == limit && offered == []
    {
      this.limit := limit;
      entries, offered, omitted := [], [], [];
    }

    /** `up` of container/heap. */
    method Up(start: nat)
      requires start < |entries| && Rising(entries, start)
      modifies this`entries
      ensures HeapOrdered(entries) && multiset(entries) == multiset(old(entries))
    {
      hide MoreRecent, Rising, HeapOrdered;
      var j := start;
      while j > 0 && MoreRecent(entries[Parent(j)], entries[j])
        invariant 0 <= j < |entries| && Rising(entries, j)
        invariant multiset(entries) == multiset(old(entries))
      {
        RiseStep(entries, j);
        SwappedContents(entries, Parent(j), j);
        entries := Swapped(entries, Parent(j), j);
        j := Parent(j);
      }
      RisenFits(entries, j);
    }

    /** `down` of container/heap. */
    method Down(start: nat) returns (moved: bool)
      requires start < |entries| && Sinking(entries, start)
      modifies this`entries
      ensures HeapOrdered(entries) && multiset(entries) == multiset(old(entries))
    {
      hide MoreRecent, Sinking, HeapOrdered;
      var i := start;
      while 2 * i + 1 < |entries|
        invariant start <= i < |entries| && Sinking(entries, i)
        invariant multiset(entries) == multiset(old(entries))
        decreases |entries| - i
      {
        var j := 2 * i + 1;
        if j + 1 < |entries| && MoreRecent(entries[j], entries[j + 1]) {
          j := j + 1;
        }
        LesserChild(entries, i, j);
        if !MoreRecent(entries[i], entries[j]) {
          SettledFits(entries, i, j);
          return i > start;
        }
        SinkStep(entries, i, j);
        SwappedContents(entries, i, j);
        entries := Swapped(entries, i, j);
        i := j;
      }
      SunkFits(entries, i);
      return i > start;
    }

    /** `addRecent`. */
    method Add(x: RecentObject)
      requires Valid()
      modifies this
      ensures Valid() && offered == old(offered) + [x]
    {
      hide MoreRecent, HeapOrdered;
      ghost var before := entries;
      if |entries| < limit {
        entries := entries + [x];
        PushedRises(before, x);
        Up(|entries| - 1);
        SelectPush(before, entries, offered, limit, x);
      } else if MoreRecent(x, entries[0]) {
        entries := entries[0 := x];
        ReplacedSinks(before, x);
        var moved := Down(0);
        if !moved {
          HeapRises(entries);
          Up(0);
        }
        SelectReplace(before, entries, omitted, offered, limit, x);
        omitted := omitted + [before[0]];
      } else {
        SelectSkip(entries, omitted, offered, limit, x);
        omitted := omitted + [x];
      }
      offered := offered + [x];
    }

    /** The sorted copy that `complete` publishes. */
    method Recent() returns (recent: seq<RecentObject>)
      requires Valid()
      ensures Sorting.Sorted(MoreRecent, recent) && Selects(recent, omitted, offered, limit)
    {
      MoreRecentIsOrder();
      hide MoreRecent;
      Sorting.SortCorrect(MoreRecent, entries);
      recent := Sorting.Sort(MoreRecent, entries);
      Sorting.SameMembers(recent, entries);
    }
  }

  lemma LesserChild(s: seq<RecentObject>, i: nat, j: nat)
    requires 2 * i + 1 < |s|
    requires if 2 * i + 2 < |s| && MoreRecent(s[2 * i + 1], s[2 * i + 2]) then j == 2 * i + 2 else j == 2 * i + 1
    ensures i < j < |s| && Parent(j) == i && forall c :: 0 < c < |s| && Parent(c) == i ==> !MoreRecent(s[j], s[c])
  {
    MoreRecentIsOrder();
    hide MoreRecent;
  }

  lemma SettledFits(s: seq<RecentObject>, i: nat, j: nat)
    requires Sinking(s, i) && i < j < |s| && !MoreRecent(s[i], s[j])
    requires forall c :: 0 < c < |s| && Parent(c) == i ==> !MoreRecent(s[j], s[c])
    ensures HeapOrdered(s)
  {
    MoreRecentIsOrder();
    hide MoreRecent;
    SunkFits(s, i);
  }

  lemma PushedRises(s: seq<RecentObject>, x: RecentObject)
    requires HeapOrdered(s)
    ensures Rising(s + [x], |s|)
  {
    hide MoreRecent;
    forall c | 0 < c < |s| ensures Fits(s + [x], Parent(c), c) {
      assert Fits(s, Parent(c), c);
    }
  }

  lemma ReplacedSinks(s: seq<RecentObject>, x: RecentObject)
    requires HeapOrdered(s) && s != []
    ensures Sinking(s[0 := x], 0)
  {
    hide MoreRecent;
    forall c | 0 < c < |s| && Parent(c) != 0 ensures Fits(s[0 := x], Parent(c), c) {
      assert Fits(s, Parent(c), c);
    }
  }

  lemma HeapRises(s: seq<RecentObject>)
    requires HeapOrdered(s)
    ensures Rising(s, 0)
  {
    hide MoreRecent;
  }

  // ---------------------------------------------------------------- streaming equals sorting everything

  /**
   * Where no two objects tie, what the bounded heap publishes is the beginning of everything offered, sorted: the
   * stream never loses a recent object to an older one.
   */
  lemma SelectionIsPrefix(kept: seq<RecentObject>, omitted: seq<RecentObject>, offered: seq<RecentObject>, limit: nat)
    requires Selects(kept, omitted, offered, limit) && Sorting.Sorted(MoreRecent, kept)
    requires Sorting.Comparable(MoreRecent, offered)
    ensures |kept| <= |offered| && kept == Sorting.Sort(MoreRecent, offered)[..|kept|]
  {
    hide MoreRecent, Sorting.Sort;
    SelectLength(kept, omitted, offered, limit);
    MoreRecentIsOrder();
    var rest := Sorting.Sort(MoreRecent, omitted);
    var all := kept + rest;
    Sorting.SortCorrect(MoreRecent, omitted);
    Sorting.SameMembers(rest, omitted);
    Sorting.SortStrict(MoreRecent, offered);
    assert multiset(all) == multiset(offered);
    ComparableDistinct(offered);
    Sorting.PermutationDistinct(offered, all);
    Sorting.SameMembers(all, offered);
    forall i, j | 0 <= i < j < |all| ensures MoreRecent(all[i], all[j]) {
      assert all[i] in all && all[j] in all && all[i] != all[j];
      ComparableMembers(offered, all[i], all[j]);
      if j < |kept| {
        assert !MoreRecent(kept[j], kept[i]);
      } else if i >= |kept| {
        assert !MoreRecent(rest[j - |kept|], rest[i - |kept|]);
      } else {
        assert all[i] in kept && all[j] in omitted;
      }
    }
    Sorting.StrictUnique(MoreRecent, all, Sorting.Sort(MoreRecent, offered));
    assert all[..|kept|] == kept;
  }

  lemma ComparableDistinct(s: seq<RecentObject>)
    requires Sorting.Comparable(MoreRecent, s)
    ensures Sorting.Distinct(s)
  {
    MoreRecentIsOrder();
    hide MoreRecent;
  }

  lemma ComparableMembers(s: seq<RecentObject>, a: RecentObject, b: RecentObject)
    requires Sorting.Comparable(MoreRecent, s) && a in s && b in s && a != b
    ensures MoreRecent(a, b) || MoreRecent(b, a)
  {
    hide MoreRecent;
    var i :| 0 <= i < |s| && s[i] == a;
    var j :| 0 <= j < |s| && s[j] == b;
  }
}
