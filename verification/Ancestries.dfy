// How the histories of one server fit together: agreement, cycles, and the forest they form (recovery.go).
module Ancestries {
  import opened Results
  import opened Timelines

  type ParentMap = map<U32, HistoryEdge>

  // ---------------------------------------------------------------- agreement

  ghost predicate Agrees(edges: seq<HistoryEdge>, known: ParentMap) {
    forall k :: 0 <= k < |edges| ==> edges[k].child in known ==> known[edges[k].child] == edges[k]
  }

  function Learn(edges: seq<HistoryEdge>, known: ParentMap): ParentMap {
    if edges == [] then known
    else Learn(edges[..|edges| - 1], known)[edges[|edges| - 1].child := edges[|edges| - 1]]
  }

  method HistoryEdgesAgree(edges: seq<HistoryEdge>, known: ParentMap) returns (agree: bool, known': ParentMap)
    ensures agree <==> Agrees(edges, known)
    ensures known' == if agree then Learn(edges, known) else known
  {
    known' := known;
    for k := 0 to |edges|
      invariant forall j :: 0 <= j < k ==> edges[j].child in known ==> known[edges[j].child] == edges[j]
    {
      if edges[k].child in known && known[edges[k].child] != edges[k] {
        return false, known;
      }
    }
    for k := 0 to |edges|
      invariant known' == Learn(edges[..k], known)
    {
      assert edges[..k + 1][..k] == edges[..k];
      known' := known'[edges[k].child := edges[k]];
    }
    assert edges[..|edges|] == edges;
    agree := true;
  }

  /** The map records every edge under its child, and every edge leads from an earlier timeline to a later one. */
  ghost predicate Forest(known: ParentMap) {
    forall c :: c in known ==> known[c].child == c && 0 < known[c].parent < c
  }

  ghost predicate Recorded(edges: seq<HistoryEdge>, known: ParentMap) {
    forall k :: 0 <= k < |edges| ==> edges[k].child in known && known[edges[k].child] == edges[k]
  }

  /** Learning agreeing edges records them and forgets nothing. */
  lemma {:induction false} LearnRecords(edges: seq<HistoryEdge>, known: ParentMap)
    requires Agrees(edges, known) && Forest(known)
    requires forall i, j :: 0 <= i < j < |edges| ==> edges[i].child != edges[j].child
    requires forall k :: 0 <= k < |edges| ==> 0 < edges[k].parent < edges[k].child
    ensures Recorded(edges, Learn(edges, known)) && Forest(Learn(edges, known))
    ensures forall c :: c in known ==> c in Learn(edges, known) && Learn(edges, known)[c] == known[c]
  {
    if edges != [] {
      var n := |edges| - 1;
      LearnRecords(edges[..n], known);
      var before := Learn(edges[..n], known);
      assert forall k :: 0 <= k < n ==> edges[..n][k] == edges[k];
      assert forall c :: c in known && c == edges[n].child ==> known[c] == edges[n];
    }
  }

  // ---------------------------------------------------------------- cycles

  /** One step up; 0 when there is no known parent, which is where the source stops. */
  function Up(edges: ParentMap, current: U32): U32 {
    if current != 0 && current in edges then edges[current].parent else 0
  }

  function Climb(edges: ParentMap, child: U32, steps: nat): U32 {
    if steps == 0 then child else Up(edges, Climb(edges, child, steps - 1))
  }

  /** Climbing from this timeline comes to an end. */
  ghost predicate Ends(edges: ParentMap, child: U32) {
    exists n: nat :: Climb(edges, child, n) == 0
  }

  /** Once a timeline repeats, climbing goes round for ever. */
  lemma {:induction false} Loops(edges: ParentMap, child: U32, i: nat, j: nat, m: nat) returns (k: nat)
    requires i < j && Climb(edges, child, i) == Climb(edges, child, j)
    ensures k < j && Climb(edges, child, m) == Climb(edges, child, k)
  {
    if m < j {
      k := m;
    } else {
      var p := Loops(edges, child, i, j, m - 1);
      k := if p + 1 < j then p + 1 else i;
    }
  }

  lemma LoopNeverEnds(edges: ParentMap, child: U32, i: nat, j: nat)
    requires i < j && Climb(edges, child, i) == Climb(edges, child, j)
    requires forall k :: 0 <= k < j ==> Climb(edges, child, k) != 0
    ensures !Ends(edges, child)
  {
    forall m: nat ensures Climb(edges, child, m) != 0 {
      var k := Loops(edges, child, i, j, m);
    }
  }

  method ClimbEnds(edges: ParentMap, child: U32) returns (ends: bool)
    ensures ends <==> Ends(edges, child)
  {
    var seen: set<U32> := {};
    var current := child;
    ghost var n: nat := 0;
    while current != 0
      invariant current == Climb(edges, child, n)
      invariant forall t :: t in seen <==> exists k: nat :: k < n && Climb(edges, child, k) == t
      invariant forall k: nat :: k < n ==> Climb(edges, child, k) != 0
      invariant seen <= edges.Keys
      decreases edges.Keys - seen
    {
      if current in seen {
        ghost var k: nat :| k < n && Climb(edges, child, k) == current;
        LoopNeverEnds(edges, child, k, n);
        return false;
      }
      if current !in edges {
        assert Climb(edges, child, n + 1) == 0;
        return true;
      }
      seen := seen + {current};
      current := edges[current].parent;
      n := n + 1;
    }
    return true;
  }

  method CycleInEdges(edges: ParentMap) returns (cyclic: bool)
    ensures cyclic <==> exists c :: c in edges && !Ends(edges, c)
  {
    var todo := edges.Keys;
    while todo != {}
      invariant todo <= edges.Keys
      invariant forall c :: c in edges && c !in todo ==> Ends(edges, c)
    {
      var child :| child in todo;
      var ends := ClimbEnds(edges, child);
      if !ends {
        return true;
      }
      todo := todo - {child};
    }
    return false;
  }

  /** In a forest every climb descends, so there is never a cycle. */
  lemma {:induction false} ForestEnds(edges: ParentMap, child: U32)
    requires Forest(edges)
    ensures Ends(edges, child)
    decreases child
  {
    if child == 0 {
      assert Climb(edges, child, 0) == 0;
    } else if child !in edges {
      assert Climb(edges, child, 1) == 0;
    } else {
      var parent := edges[child].parent;
      ForestEnds(edges, parent);
      var n: nat :| Climb(edges, parent, n) == 0;
      ClimbFromParent(edges, child, n);
      assert Climb(edges, child, n + 1) == 0;
    }
  }

  lemma {:induction false} ClimbFromParent(edges: ParentMap, child: U32, n: nat)
    requires child != 0 && child in edges
    ensures Climb(edges, child, n + 1) == Climb(edges, edges[child].parent, n)
  {
    if n > 0 {
      ClimbFromParent(edges, child, n - 1);
    } else {
      assert Climb(edges, child, 0) == child;
    }
  }

  // ---------------------------------------------------------------- descendants of a timeline

  /** `descendantEdges`: the part of a history that starts at the first edge leaving `start`. */
  function Descendants(edges: seq<HistoryEdge>, start: U32): (r: seq<HistoryEdge>) {
    if edges == [] then []
    else if edges[0].parent == start then edges
    else Descendants(edges[1..], start)
  }

  /** A chain of edges from one timeline to another. */
  ghost predicate Path(edges: seq<HistoryEdge>, start: U32, target: U32) {
    && edges != [] && edges[0].parent == start && edges[|edges| - 1].child == target
    && (forall k :: 0 <= k < |edges| ==> edges[k].parent < edges[k].child)
    && (forall i, j :: 0 <= i < j < |edges| ==> edges[i].child <= edges[j].parent)
    && (forall i, j :: 0 <= i < j < |edges| && j == i + 1 ==> edges[i].child == edges[j].parent)
  }

  lemma {:induction false} DescendantsSuffix(edges: seq<HistoryEdge>, start: U32)
    ensures var d := Descendants(edges, start);
            |d| <= |edges| && d == edges[|edges| - |d|..] && (d != [] ==> d[0].parent == start)
    ensures Descendants(edges, start) == [] <==> forall k :: 0 <= k < |edges| ==> edges[k].parent != start
  {
    if edges != [] && edges[0].parent != start {
      DescendantsSuffix(edges[1..], start);
      assert forall k :: 1 <= k < |edges| ==> edges[k] == edges[1..][k - 1];
    }
  }

  lemma SlicePath(edges: seq<HistoryEdge>, target: U32, i: nat, j: nat)
    requires Chained(edges, target) && i <= j < |edges|
    ensures Path(edges[i..j + 1], edges[i].parent, edges[j].child)
  {
    var d := edges[i..j + 1];
    assert forall k :: 0 <= k < |d| ==> d[k] == edges[i + k];
  }

  /** Each prefix of the descendants of a parsed history is a path to the child of its last edge. */
  lemma DescendantsPath(edges: seq<HistoryEdge>, target: U32, start: U32, k: nat)
    requires Chained(edges, target) && k < |Descendants(edges, start)|
    ensures Path(Descendants(edges, start)[..k + 1], start, Descendants(edges, start)[k].child)
  {
    hide Path, Chained, Descendants;
    DescendantsSuffix(edges, start);
    var d := Descendants(edges, start);
    var off := |edges| - |d|;
    SlicePath(edges, target, off, off + k);
    assert d[..k + 1] == edges[off..off + k + 1];
    assert d[k] == edges[off + k] && d[0] == edges[off];
  }

  /** The last edge of a recorded path is the one recorded for its target, and so are the edges before it. */
  lemma LastRecorded(a: seq<HistoryEdge>, known: ParentMap, start: U32, target: U32)
    requires Path(a, start, target) && Recorded(a, known)
    ensures a != [] && target in known && a[|a| - 1] == known[target] && Recorded(a[..|a| - 1], known)
  {
  }

  /** In one parent map there is at most one path between two timelines. */
  lemma {:induction false} PathUnique(a: seq<HistoryEdge>, b: seq<HistoryEdge>, known: ParentMap, start: U32, target: U32)
    requires Path(a, start, target) && Path(b, start, target) && Recorded(a, known) && Recorded(b, known)
    ensures a == b
    decreases |a|
  {
    hide Path, Recorded;
    LastRecorded(a, known, start, target);
    LastRecorded(b, known, start, target);
    var m, n := |a| - 1, |b| - 1;
    OneEdgeIff(a, start, target);
    OneEdgeIff(b, start, target);
    if m > 0 {
      PathPrefix(a, start, target);
      PathPrefix(b, start, target);
      PathUnique(a[..m], b[..n], known, start, a[m].parent);
    }
    assert a == a[..m] + [a[m]] && b == b[..n] + [b[n]];
  }

  /** Parents ascend strictly along a path, so only a single edge ends one step below its start. */
  lemma OneEdgeIff(a: seq<HistoryEdge>, start: U32, target: U32)
    requires Path(a, start, target)
    ensures |a| == 1 <==> a[|a| - 1].parent == start
  {
    if |a| > 1 {
      assert a[0].child <= a[|a| - 1].parent && a[0].parent < a[0].child;
    }
  }

  lemma PathPrefix(a: seq<HistoryEdge>, start: U32, target: U32)
    requires Path(a, start, target) && |a| > 1
    ensures Path(a[..|a| - 1], start, a[|a| - 1].parent)
  {
    var m := |a| - 1;
    assert a[m - 1].child == a[m].parent;
  }
}
