/** Enumeration of the simple cycles of a directed graph. */
module Cycles {

  /** Anything that can be a dictionary key. */
  type Item(==,!new)

  /** Parent -> children; an item need not have an entry. */
  type Graph = map<Item, seq<Item>>

  ghost predicate Edge(g: Graph, a: Item, b: Item) { a in g && b in g[a] }

  ghost predicate Distinct(s: seq<Item>) { forall i, j | 0 <= i < j < |s| :: s[i] != s[j] }

  ghost predicate SimplePath(g: Graph, p: seq<Item>) {
    |p| >= 1 && Distinct(p) && forall i | 0 < i < |p| :: Edge(g, p[i - 1], p[i])
  }

  /** A simple cycle, closed by the edge from its last to its first item. */
  ghost predicate Cycle(g: Graph, c: seq<Item>) {
    SimplePath(g, c) && Edge(g, c[|c| - 1], c[0])
  }

  // ---- rotations ----------------------------------------------------------------------

  function Rotate(s: seq<Item>, k: nat): seq<Item>
    requires k <= |s|
  {
    s[k..] + s[..k]
  }

  ghost predicate Rotation(a: seq<Item>, b: seq<Item>) {
    |a| == |b| && exists k: nat :: k < |a| && b == Rotate(a, k)
  }

  lemma RotationSymmetric(a: seq<Item>, b: seq<Item>)
    requires Rotation(a, b)
    ensures Rotation(b, a)
  {
    var k: nat :| k < |a| && b == Rotate(a, k);
    if k == 0 {
      assert a == Rotate(b, 0);
    } else {
      assert a == Rotate(b, |a| - k);
    }
  }

  lemma RotateTwice(a: seq<Item>, k: nat, l: nat)
    requires k < |a| && l < |a|
    ensures Rotate(Rotate(a, k), l) == Rotate(a, if k + l < |a| then k + l else k + l - |a|)
  {
  }

  lemma RotationTransitive(a: seq<Item>, b: seq<Item>, c: seq<Item>)
    requires Rotation(a, b) && Rotation(b, c)
    ensures Rotation(a, c)
  {
    hide Rotate;
    var k: nat :| k < |a| && b == Rotate(a, k);
    var l: nat :| l < |b| && c == Rotate(b, l);
    RotateTwice(a, k, l);
  }

  lemma RotationReflexive(a: seq<Item>)
    requires a != []
    ensures Rotation(a, a)
  {
    assert a == Rotate(a, 0);
  }

  lemma DoubledSlice(s: seq<Item>, k: nat)
    requires k < |s|
    ensures (s + s)[k..k + |s|] == Rotate(s, k) && Rotate(s, k)[0] == s[k]
  {
  }

  /** Where the item occurs. */
  method Positions(s: seq<Item>, item: Item) returns (indexes: seq<nat>)
    ensures forall k: nat :: k in indexes <==> k < |s| && s[k] == item
  {
    indexes := [];
    for i := 0 to |s|
      invariant forall k: nat :: k in indexes <==> k < i && s[k] == item
    {
      if s[i] == item {
        indexes := indexes + [i];
      }
    }
  }

  /** A rotation starts where the other list's first item occurs. */
  lemma RotationStarts(a: seq<Item>, b: seq<Item>, starts: seq<nat>)
    requires |a| == |b| > 0 && forall k: nat | k < |a| && a[k] == b[0] :: k in starts
    requires Rotation(a, b)
    ensures exists j :: 0 <= j < |starts| && starts[j] < |a| && Rotate(a, starts[j]) == b
  {
    var k: nat :| k < |a| && b == Rotate(a, k);
    DoubledSlice(a, k);
    assert k in starts;
  }

  /** Both lists empty is an error of the program. */
  method IsRotated(seq1: seq<Item>, seq2: seq<Item>) returns (r: bool)
    requires seq1 != [] || seq2 != []
    ensures r <==> Rotation(seq1, seq2)
  {
    if |seq1| != |seq2| {
      return false;
    }
    hide Rotate;
    var startIndexes := Positions(seq1, seq2[0]);
    assert forall j | 0 <= j < |startIndexes| :: startIndexes[j] in startIndexes;
    var doubleSeq1 := seq1 + seq1;
    for i := 0 to |startIndexes|
      invariant forall j | 0 <= j < i :: Rotate(seq1, startIndexes[j]) != seq2
    {
      var k := startIndexes[i];
      DoubledSlice(seq1, k);
      if doubleSeq1[k..k + |seq1|] == seq2 {
        return true;
      }
    }
    if Rotation(seq1, seq2) { RotationStarts(seq1, seq2, startIndexes); }
    return false;
  }

  // ---- size of the search below a path -------------------------------------------------

  /** All items of the graph. */
  ghost function Items(g: Graph): set<Item> {
    g.Keys + set k, x | k in g && x in g[k] :: x
  }

  lemma {:induction false} DistinctBound(p: seq<Item>, all: set<Item>)
    requires Distinct(p) && forall i | 0 <= i < |p| :: p[i] in all
    ensures |p| <= |all|
  {
    if p != [] {
      var k := |p| - 1;
      DistinctBound(p[..k], all - {p[k]});
    }
  }

  ghost predicate Walk(g: Graph, p: seq<Item>) { SimplePath(g, p) && p[0] in g }

  lemma WalkBound(g: Graph, p: seq<Item>)
    requires Walk(g, p)
    ensures |p| <= |Items(g)|
  {
    forall i | 0 <= i < |p| ensures p[i] in Items(g) {
      if i > 0 { assert Edge(g, p[i - 1], p[i]); }
    }
    DistinctBound(p, Items(g));
  }

  lemma WalkExtend(g: Graph, p: seq<Item>, c: Item)
    requires Walk(g, p) && Edge(g, p[|p| - 1], c) && c !in p
    ensures Walk(g, p + [c]) && |p| < |Items(g)|
  {
    WalkBound(g, p + [c]);
  }

  /** Number of walks with prefix `p`: the nodes of the search tree below it. */
  ghost function TreeSize(g: Graph, p: seq<Item>): nat
    requires Walk(g, p)
    decreases |Items(g)| - |p|, 1, 0
  {
    WalkBound(g, p);
    1 + if p[|p| - 1] in g then ForestSize(g, p, g[p[|p| - 1]]) else 0
  }

  ghost function ForestSize(g: Graph, p: seq<Item>, children: seq<Item>): nat
    requires Walk(g, p) && forall i | 0 <= i < |children| :: Edge(g, p[|p| - 1], children[i])
    decreases |Items(g)| - |p|, 0, |children|
  {
    WalkBound(g, p);
    if children == [] then 0
    else
      var k := |children| - 1;
      ForestSize(g, p, children[..k]) +
        if children[k] in p then 0 else (WalkExtend(g, p, children[k]); TreeSize(g, p + [children[k]]))
  }

  ghost function StackSize(g: Graph, paths: seq<seq<Item>>): nat
    requires forall i | 0 <= i < |paths| :: Walk(g, paths[i])
  {
    if paths == [] then 0 else StackSize(g, paths[..|paths| - 1]) + TreeSize(g, paths[|paths| - 1])
  }

  // ---- what the search has found -------------------------------------------------------

  ghost predicate Reported(cycles: seq<seq<Item>>, c: seq<Item>) {
    exists i :: 0 <= i < |cycles| && Rotation(cycles[i], c)
  }

  /** First position of an item of the list. */
  function Index(p: seq<Item>, c: Item): (i: nat)
    requires c in p
    ensures i < |p| && p[i] == c && c !in p[..i]
  {
    if p[0] == c then 0 else 1 + Index(p[1..], c)
  }

  /** The cycle closed by the edge from the end of `p` to `c` has been reported. */
  ghost predicate Closed(cycles: seq<seq<Item>>, p: seq<Item>, c: Item) {
    c in p ==> Reported(cycles, p[Index(p, c)..])
  }

  /** Every edge from the end of `p` has been looked at. */
  ghost predicate Covered(g: Graph, cycles: seq<seq<Item>>, p: seq<Item>)
    requires p != []
  {
    forall c | Edge(g, p[|p| - 1], c) :: Closed(cycles, p, c)
  }

  /** `p` or a prefix of it is still to be visited. */
  ghost predicate Pending(paths: seq<seq<Item>>, p: seq<Item>) {
    exists i :: 0 <= i < |paths| && paths[i] <= p
  }

  /** Every walk from `start` is covered or pending. */
  ghost predicate Explored(g: Graph, cycles: seq<seq<Item>>, paths: seq<seq<Item>>, start: Item) {
    forall p | Walk(g, p) && p[0] == start :: Covered(g, cycles, p) || Pending(paths, p)
  }

  /** Some walk from a start leads to `v`. */
  ghost predicate ReachedFrom(g: Graph, starts: set<Item>, v: Item) {
    exists p :: Walk(g, p) && p[0] in starts && p[|p| - 1] == v
  }

  /** Genuine cycles, no two of which are rotations of each other. */
  ghost predicate Sound(g: Graph, cycles: seq<seq<Item>>) {
    && (forall i | 0 <= i < |cycles| :: Cycle(g, cycles[i]))
    && (forall i, j | 0 <= i < j < |cycles| :: !Rotation(cycles[i], cycles[j]))
  }

  ghost predicate Complete(g: Graph, cycles: seq<seq<Item>>) {
    forall c | Cycle(g, c) :: Reported(cycles, c)
  }

  lemma CoveredKept(g: Graph, cycles: seq<seq<Item>>, more: seq<seq<Item>>, p: seq<Item>)
    requires p != [] && Covered(g, cycles, p)
    ensures Covered(g, cycles + more, p)
  {
    forall c | Edge(g, p[|p| - 1], c) && c in p ensures Reported(cycles + more, p[Index(p, c)..]) {
      assert Closed(cycles, p, c);
      var i :| 0 <= i < |cycles| && Rotation(cycles[i], p[Index(p, c)..]);
      assert (cycles + more)[i] == cycles[i];
    }
  }

  /** Closing an edge onto the path gives a simple cycle. */
  lemma ClosingCycle(g: Graph, p: seq<Item>, c: Item)
    requires SimplePath(g, p) && c in p && Edge(g, p[|p| - 1], c)
    ensures Cycle(g, p[Index(p, c)..])
  {
  }

  /** The walk up to its first meeting with a cycle goes on around the cycle. */
  lemma AroundCycle(g: Graph, p: seq<Item>, a: nat, r: seq<Item>)
    requires Walk(g, p) && Cycle(g, r) && a < |p| && p[a] == r[0]
    requires forall i | 0 <= i < a :: p[i] !in r
    ensures Walk(g, p[..a] + r)
  {
  }

  /** A cycle that a walk from `start` meets shows up, rotated, at the end of some walk from `start`. */
  lemma CycleAhead(g: Graph, cycles: seq<seq<Item>>, start: Item, p: seq<Item>, c: seq<Item>)
    requires Walk(g, p) && p[0] == start && Cycle(g, c) && p[|p| - 1] in c
    requires Explored(g, cycles, [], start)
    ensures Reported(cycles, c)
  {
    var a := FirstMeeting(p, c);
    var v := p[a];
    var b := Index(c, v);
    var r := Rotate(c, b);
    RotatedCycle(g, c, b);
    assert forall i | 0 <= i < a :: p[i] !in r;
    hide Rotate;
    AroundCycle(g, p, a, r);
    var q := p[..a] + r;
    Detour(p, a, r);
    hide Walk;
    hide Explored;
    hide Rotation;
    CycleClosed(g, cycles, start, q, v);
    var i :| 0 <= i < |cycles| && Rotation(cycles[i], r);
    RotationSymmetric(c, r);
    RotationTransitive(cycles[i], r, c);
  }

  lemma Detour(p: seq<Item>, a: nat, r: seq<Item>)
    requires a < |p| && r != [] && forall i | 0 <= i < a :: p[i] !in r
    ensures var q := p[..a] + r; r[0] in q && Index(q, r[0]) == a && q[a..] == r
  {
    var q := p[..a] + r;
    assert q[a] == r[0];
    assert r[0] in r;
  }

  lemma CycleClosed(g: Graph, cycles: seq<seq<Item>>, start: Item, q: seq<Item>, v: Item)
    requires Walk(g, q) && q[0] == start && v in q && Edge(g, q[|q| - 1], v)
    requires Explored(g, cycles, [], start)
    ensures Reported(cycles, q[Index(q, v)..])
  {
    assert !Pending([], q);
    assert Closed(cycles, q, v);
  }

  /** Position of the first item of `p` that is on `c`. */
  lemma {:induction false} FirstMeeting(p: seq<Item>, c: seq<Item>) returns (a: nat)
    requires p != [] && p[|p| - 1] in c
    ensures a < |p| && p[a] in c && forall i | 0 <= i < a :: p[i] !in c
  {
    a := 0;
    while p[a] !in c
      invariant a < |p| && forall i | 0 <= i < a :: p[i] !in c
      decreases |p| - a
    {
      a := a + 1;
    }
  }

  lemma RotatedCycle(g: Graph, c: seq<Item>, k: nat)
    requires Cycle(g, c) && k < |c|
    ensures Cycle(g, Rotate(c, k))
  {
  }

  lemma AllFound(g: Graph, order: seq<Item>, starts: set<Item>, cycles: seq<seq<Item>>)
    requires forall k :: k in g <==> k in order
    requires forall s | s in starts :: Explored(g, cycles, [], s)
    requires forall k | k in order :: ReachedFrom(g, starts, k)
    ensures Complete(g, cycles)
  {
    forall c | Cycle(g, c) ensures Reported(cycles, c) {
      var k := c[|c| - 1];
      var p :| Walk(g, p) && p[0] in starts && p[|p| - 1] == k;
      CycleAhead(g, cycles, p[0], p, c);
    }
  }

  // ---- the search ---------------------------------------------------------------------

  /** Every walk from `start` is covered, pending or below `path`. */
  ghost predicate ExploredBut(g: Graph, cycles: seq<seq<Item>>, paths: seq<seq<Item>>, start: Item, path: seq<Item>) {
    forall p | Walk(g, p) && p[0] == start :: Covered(g, cycles, p) || Pending(paths, p) || path <= p
  }

  /** The first `j` children of the end of `path` have been dealt with. */
  ghost predicate Visited(g: Graph, cycles: seq<seq<Item>>, paths: seq<seq<Item>>, path: seq<Item>, children: seq<Item>, j: nat)
    requires j <= |children|
  {
    forall i | 0 <= i < j :: if children[i] in path then Closed(cycles, path, children[i]) else path + [children[i]] in paths
  }

  ghost predicate Stack(g: Graph, paths: seq<seq<Item>>, start: Item) {
    forall i | 0 <= i < |paths| :: Walk(g, paths[i]) && paths[i][0] == start
  }

  lemma ExploredGrows(g: Graph, cycles: seq<seq<Item>>, more: seq<seq<Item>>, paths: seq<seq<Item>>, pushed: seq<seq<Item>>,
                      start: Item, path: seq<Item>)
    requires ExploredBut(g, cycles, paths, start, path)
    ensures ExploredBut(g, cycles + more, paths + pushed, start, path)
  {
    forall p | Walk(g, p) && p[0] == start && !(path <= p)
      ensures Covered(g, cycles + more, p) || Pending(paths + pushed, p)
    {
      if Covered(g, cycles, p) {
        CoveredKept(g, cycles, more, p);
      } else {
        var i :| 0 <= i < |paths| && paths[i] <= p;
        assert (paths + pushed)[i] <= p;
      }
    }
  }

  lemma DoneGrows(g: Graph, cycles: seq<seq<Item>>, more: seq<seq<Item>>, start: Item)
    requires Explored(g, cycles, [], start)
    ensures Explored(g, cycles + more, [], start)
  {
    forall p | Walk(g, p) && p[0] == start ensures Covered(g, cycles + more, p) {
      assert !Pending([], p);
      CoveredKept(g, cycles, more, p);
    }
  }

  lemma Popped(g: Graph, cycles: seq<seq<Item>>, paths: seq<seq<Item>>, start: Item)
    requires paths != [] && Explored(g, cycles, paths, start)
    ensures ExploredBut(g, cycles, paths[..|paths| - 1], start, paths[|paths| - 1])
  {
  }

  /** When all children are dealt with, the walks below `path` are covered or pending. */
  lemma ChildrenVisited(g: Graph, cycles: seq<seq<Item>>, paths: seq<seq<Item>>, start: Item, path: seq<Item>)
    requires Walk(g, path) && ExploredBut(g, cycles, paths, start, path)
    requires path[|path| - 1] in g ==> var cs := g[path[|path| - 1]]; Visited(g, cycles, paths, path, cs, |cs|)
    ensures Explored(g, cycles, paths, start)
  {
    forall p | Walk(g, p) && p[0] == start && path <= p ensures Covered(g, cycles, p) || Pending(paths, p) {
      if p == path {
        forall c | Edge(g, p[|p| - 1], c) ensures Closed(cycles, p, c) {
          var i :| 0 <= i < |g[p[|p| - 1]]| && g[p[|p| - 1]][i] == c;
        }
      } else {
        var c := p[|path|];
        assert Edge(g, p[|path| - 1], p[|path|]);
        var i :| 0 <= i < |g[path[|path| - 1]]| && g[path[|path| - 1]][i] == c;
        assert c !in path;
        assert path + [c] in paths && path + [c] <= p;
      }
    }
  }

  lemma StackSplit(g: Graph, paths: seq<seq<Item>>, p: seq<Item>)
    requires Walk(g, p) && forall i | 0 <= i < |paths| :: Walk(g, paths[i])
    ensures forall i | 0 <= i < |paths + [p]| :: Walk(g, (paths + [p])[i])
    ensures StackSize(g, paths + [p]) == StackSize(g, paths) + TreeSize(g, p)
    ensures p != [] && SimplePath(g, p)
  {
  }

  /** The items seen so far are reached from the starts so far. */
  lemma ReachedGrows(g: Graph, starts: set<Item>, more: set<Item>, v: Item)
    requires ReachedFrom(g, starts, v)
    ensures ReachedFrom(g, starts + more, v)
  {
  }

  lemma ReachedEnd(g: Graph, starts: set<Item>, p: seq<Item>)
    requires Walk(g, p) && p[0] in starts
    ensures ReachedFrom(g, starts, p[|p| - 1])
  {
  }

  lemma NothingFound(g: Graph)
    ensures Sound(g, [])
  {
  }

  lemma Begin(g: Graph, cycles: seq<seq<Item>>, start: Item, starts: set<Item>)
    requires start in g && start in starts
    ensures Stack(g, [[start]], start) && Explored(g, cycles, [[start]], start) && ReachedFrom(g, starts, start)
  {
    assert Walk(g, [start]);
    forall p | Walk(g, p) && p[0] == start ensures Pending([[start]], p) {
      assert [[start]][0] <= p;
    }
  }

  lemma EndEdges(g: Graph, path: seq<Item>, children: seq<Item>)
    requires Walk(g, path) && path[|path| - 1] in g && children == g[path[|path| - 1]]
    ensures forall i | 0 <= i < |children| :: Edge(g, path[|path| - 1], children[i])
    ensures ForestSize(g, path, []) == 0
  {
  }

  lemma NothingVisited(g: Graph, cycles: seq<seq<Item>>, paths: seq<seq<Item>>, path: seq<Item>, children: seq<Item>)
    ensures Visited(g, cycles, paths, path, children, 0)
  {
  }

  lemma VisitedGrows(g: Graph, cycles: seq<seq<Item>>, more: seq<seq<Item>>, paths: seq<seq<Item>>, pushed: seq<seq<Item>>,
                     path: seq<Item>, children: seq<Item>, j: nat)
    requires j <= |children| && Visited(g, cycles, paths, path, children, j)
    ensures Visited(g, cycles + more, paths + pushed, path, children, j)
  {
    forall i | 0 <= i < j && children[i] in path ensures Closed(cycles + more, path, children[i]) {
      var k :| 0 <= k < |cycles| && Rotation(cycles[k], path[Index(path, children[i])..]);
      assert (cycles + more)[k] == cycles[k];
    }
  }

  lemma VisitedStep(g: Graph, cycles: seq<seq<Item>>, paths: seq<seq<Item>>, path: seq<Item>, children: seq<Item>, j: nat)
    requires j < |children| && Visited(g, cycles, paths, path, children, j)
    requires if children[j] in path then Reported(cycles, path[Index(path, children[j])..]) else path + [children[j]] in paths
    ensures Visited(g, cycles, paths, path, children, j + 1)
  {
  }

  lemma ForestStep(g: Graph, p: seq<Item>, children: seq<Item>, j: nat)
    requires Walk(g, p) && j < |children| && forall i | 0 <= i < |children| :: Edge(g, p[|p| - 1], children[i])
    ensures children[j] in p ==> ForestSize(g, p, children[..j + 1]) == ForestSize(g, p, children[..j])
    ensures children[j] !in p ==> Walk(g, p + [children[j]])
    ensures children[j] !in p ==>
              ForestSize(g, p, children[..j + 1]) == ForestSize(g, p, children[..j]) + TreeSize(g, p + [children[j]])
  {
    assert children[..j + 1][..j] == children[..j];
    if children[j] !in p { WalkExtend(g, p, children[j]); }
  }

  /** Replacing a path by its extensions makes the search smaller by one. */
  lemma TreeStep(g: Graph, p: seq<Item>)
    requires Walk(g, p)
    ensures TreeSize(g, p) >= 1
    ensures p[|p| - 1] in g ==> TreeSize(g, p) == 1 + ForestSize(g, p, g[p[|p| - 1]])
  {
  }

  /** Report a cycle unless a rotation of it has been reported. */
  method Report(g: Graph, cycles: seq<seq<Item>>, cycle: seq<Item>) returns (more: seq<seq<Item>>)
    requires Sound(g, cycles) && Cycle(g, cycle)
    ensures Sound(g, cycles + more) && Reported(cycles + more, cycle)
  {
    for i := 0 to |cycles|
      invariant forall j | 0 <= j < i :: !Rotation(cycles[j], cycle)
    {
      var dup := IsRotated(cycles[i], cycle);
      if dup {
        assert cycles + [] == cycles;
        return [];
      }
    }
    RotationReflexive(cycle);
    more := [cycle];
    assert (cycles + more)[|cycles|] == cycle;
  }

  /** All simple cycles of the graph, each once up to rotation. `order` is the iteration order of the keys. */
  method FindCycles(g: Graph, order: seq<Item>) returns (cycles: seq<seq<Item>>)
    requires forall k :: k in g <==> k in order
    ensures Sound(g, cycles)
    ensures Complete(g, cycles)
  {
    hide Sound;
    hide Complete;
    hide Explored;
    hide ExploredBut;
    hide Visited;
    hide Cycle;
    hide ReachedFrom;
    hide StackSize;
    hide TreeSize;
    hide ForestSize;
    hide Walk;
    hide SimplePath;
    hide Closed;
    cycles := [];
    var visitedNodes: set<Item> := {};
    ghost var starts: set<Item> := {};
    NothingFound(g);
    for n := 0 to |order|
      invariant Sound(g, cycles)
      invariant forall s | s in starts :: Explored(g, cycles, [], s)
      invariant forall v | v in visitedNodes :: ReachedFrom(g, starts, v)
      invariant forall j | 0 <= j < n :: ReachedFrom(g, starts, order[j])
    {
      var start := order[n];
      if start in visitedNodes {
        continue;
      }
      var paths := [[start]];
      ghost var before := starts;
      starts := before + {start};
      Begin(g, cycles, start, starts);
      forall v | ReachedFrom(g, before, v) ensures ReachedFrom(g, starts, v) {
        ReachedGrows(g, before, {start}, v);
      }
      while paths != []
        invariant Stack(g, paths, start) && Explored(g, cycles, paths, start) && Sound(g, cycles)
        invariant forall s | s in before :: Explored(g, cycles, [], s)
        invariant forall v | v in visitedNodes :: ReachedFrom(g, starts, v)
        decreases StackSize(g, paths)
      {
        ghost var size := StackSize(g, paths);
        var path := paths[|paths| - 1];
        Popped(g, cycles, paths, start);
        StackSplit(g, paths[..|paths| - 1], path);
        assert paths[..|paths| - 1] + [path] == paths;
        paths := paths[..|paths| - 1];
        var parent := path[|path| - 1];
        if parent !in g {
          ChildrenVisited(g, cycles, paths, start, path);
          TreeStep(g, path);
          continue;
        }
        var children := g[parent];
        ghost var rest := StackSize(g, paths);
        NothingVisited(g, cycles, paths, path, children);
        EndEdges(g, path, children);
        for j := 0 to |children|
          invariant Stack(g, paths, start) && ExploredBut(g, cycles, paths, start, path) && Sound(g, cycles)
          invariant Visited(g, cycles, paths, path, children, j)
          invariant StackSize(g, paths) == rest + ForestSize(g, path, children[..j])
          invariant forall s | s in before :: Explored(g, cycles, [], s)
          invariant forall v | v in visitedNodes :: ReachedFrom(g, starts, v)
        {
          var child := children[j];
          ForestStep(g, path, children, j);
          if child in path {
            ClosingCycle(g, path, child);
            var more := Report(g, cycles, path[Index(path, child)..]);
            ExploredGrows(g, cycles, more, paths, [], start, path);
            VisitedGrows(g, cycles, more, paths, [], path, children, j);
            assert paths + [] == paths;
            forall s | s in before ensures Explored(g, cycles + more, [], s) {
              DoneGrows(g, cycles, more, s);
            }
            cycles := cycles + more;
          } else {
            ExploredGrows(g, cycles, [], paths, [path + [child]], start, path);
            VisitedGrows(g, cycles, [], paths, [path + [child]], path, children, j);
            assert cycles + [] == cycles;
            WalkExtend(g, path, child);
            StackSplit(g, paths, path + [child]);
            ReachedEnd(g, starts, path + [child]);
            paths := paths + [path + [child]];
            visitedNodes := visitedNodes + {child};
          }
          VisitedStep(g, cycles, paths, path, children, j);
        }
        assert children[..|children|] == children;
        TreeStep(g, path);
        ChildrenVisited(g, cycles, paths, start, path);
      }
    }
    AllFound(g, order, starts, cycles);
  }
}
