/** Topological sorting of (parent, child) pairs, flat and by dependency levels. */
module Topsort {
  import opened Cycles

  type Pairs = seq<(Item, Item)>

  /** `CycleError` comes with what has been sorted so far, and with the dictionaries of what is left. */
  datatype Result<T> = Sorted(value: T) | CycleError(value: T, numParents: map<Item, int>, children: Graph)

  ghost predicate Mentioned(pairs: Pairs, x: Item) {
    exists i :: 0 <= i < |pairs| && (pairs[i].0 == x || pairs[i].1 == x)
  }

  ghost predicate Pair(pairs: Pairs, p: Item, c: Item) { (p, c) in pairs }

  /** Children of `p`, in order and with repetitions. */
  function Kids(pairs: Pairs, p: Item): seq<Item> {
    if pairs == [] then []
    else
      var last := pairs[|pairs| - 1];
      Kids(pairs[..|pairs| - 1], p) + if last.0 == p then [last.1] else []
  }

  /** Number of pairs with child `c` whose parent is not in `done`. */
  ghost function Open(pairs: Pairs, done: set<Item>, c: Item): nat {
    if pairs == [] then 0
    else
      var last := pairs[|pairs| - 1];
      Open(pairs[..|pairs| - 1], done, c) + if last.1 == c && last.0 !in done then 1 else 0
  }

  lemma {:induction false} KidsArePairs(pairs: Pairs, p: Item, c: Item)
    ensures c in Kids(pairs, p) <==> Pair(pairs, p, c)
  {
    if pairs != [] {
      var k := |pairs| - 1;
      KidsArePairs(pairs[..k], p, c);
      assert pairs == pairs[..k] + [pairs[k]];
    }
  }

  lemma {:induction false} OpenPositive(pairs: Pairs, done: set<Item>, c: Item)
    ensures Open(pairs, done, c) > 0 <==> exists p :: Pair(pairs, p, c) && p !in done
  {
    if pairs != [] {
      var k := |pairs| - 1;
      OpenPositive(pairs[..k], done, c);
      assert pairs == pairs[..k] + [pairs[k]];
      assert forall p :: Pair(pairs, p, c) <==> Pair(pairs[..k], p, c) || pairs[k] == (p, c);
    }
  }

  /** Finishing `p` closes as many pairs of `c` as `c` occurs among the children of `p`. */
  lemma {:induction false} OpenFinish(pairs: Pairs, done: set<Item>, p: Item, c: Item)
    requires p !in done
    ensures Open(pairs, done + {p}, c) + multiset(Kids(pairs, p))[c] == Open(pairs, done, c)
  {
    if pairs != [] {
      var k := |pairs| - 1;
      OpenFinish(pairs[..k], done, p, c);
    }
  }

  /** The two dictionaries built from the pair list. */
  ghost predicate Counted(pairs: Pairs, numParents: map<Item, int>, children: Graph) {
    && (forall x :: x in numParents <==> Mentioned(pairs, x))
    && (forall x | x in numParents :: numParents[x] == Open(pairs, {}, x))
    && (forall x :: x in children <==> Kids(pairs, x) != [])
    && (forall x | x in children :: children[x] == Kids(pairs, x))
  }

  /** The pairs before pair `i` with parent `p`. */
  ghost function ByParent(pairs: Pairs, p: Item, i: nat): set<nat>
    requires i <= |pairs|
  {
    set j: nat | j < i && pairs[j].0 == p
  }

  /** The pairs with child `c` and a parent that is not in `done`. */
  ghost function ByChild(pairs: Pairs, done: set<Item>, c: Item): set<nat> {
    set j: nat | j < |pairs| && pairs[j].1 == c && pairs[j].0 !in done
  }

  /** Pair `i` has its place among the children of its parent, in the order of the pairs. */
  ghost predicate InPlace(pairs: Pairs, kids: seq<Item>, i: nat)
    requires i < |pairs|
  {
    |ByParent(pairs, pairs[i].0, i)| < |kids| && kids[|ByParent(pairs, pairs[i].0, i)|] == pairs[i].1
  }

  lemma {:induction false} KidsInOrder(pairs: Pairs, p: Item)
    ensures |Kids(pairs, p)| == |ByParent(pairs, p, |pairs|)|
    ensures forall i: nat | i < |pairs| && pairs[i].0 == p :: InPlace(pairs, Kids(pairs, p), i)
  {
    if pairs != [] {
      var k := |pairs| - 1;
      var rest := pairs[..k];
      KidsInOrder(rest, p);
      ByParentAppend(rest, pairs[k], p);
      assert pairs == rest + [pairs[k]];
      hide ByParent;
      forall i: nat | i < |pairs| && pairs[i].0 == p ensures InPlace(pairs, Kids(pairs, p), i) {
        if i < k { assert InPlace(rest, Kids(rest, p), i); }
      }
    }
  }

  lemma ByParentAppend(rest: Pairs, last: (Item, Item), p: Item)
    ensures forall i: nat | i <= |rest| :: ByParent(rest + [last], p, i) == ByParent(rest, p, i)
    ensures |ByParent(rest + [last], p, |rest| + 1)| == |ByParent(rest, p, |rest|)| + if last.0 == p then 1 else 0
  {
    assert ByParent(rest + [last], p, |rest| + 1) == ByParent(rest, p, |rest|) + if last.0 == p then {|rest|} else {};
  }

  lemma {:induction false} OpenIs(pairs: Pairs, done: set<Item>, c: Item)
    ensures Open(pairs, done, c) == |ByChild(pairs, done, c)|
  {
    if pairs != [] {
      var k := |pairs| - 1;
      OpenIs(pairs[..k], done, c);
      assert ByChild(pairs, done, c) == ByChild(pairs[..k], done, c) + if pairs[k].1 == c && pairs[k].0 !in done then {k} else {};
    }
  }

  lemma MentionedStep(pairs: Pairs, parent: Item, child: Item, x: Item)
    ensures Mentioned(pairs + [(parent, child)], x) <==> Mentioned(pairs, x) || x == parent || x == child
  {
    var q := pairs + [(parent, child)];
    if Mentioned(pairs, x) {
      var i :| 0 <= i < |pairs| && (pairs[i].0 == x || pairs[i].1 == x);
      assert q[i] == pairs[i];
    }
    assert q[|pairs|] == (parent, child);
  }

  lemma OpenStep(pairs: Pairs, parent: Item, child: Item, x: Item)
    ensures Open(pairs + [(parent, child)], {}, x) == Open(pairs, {}, x) + if x == child then 1 else 0
    ensures Kids(pairs + [(parent, child)], x) == Kids(pairs, x) + if x == parent then [child] else []
    ensures !Mentioned(pairs, x) ==> Open(pairs, {}, x) == 0
  {
    assert (pairs + [(parent, child)])[..|pairs|] == pairs;
    OpenPositive(pairs, {}, x);
    if !Mentioned(pairs, x) { assert forall p :: !Pair(pairs, p, x); }
  }

  lemma CountedStep(pairs: Pairs, parent: Item, child: Item, numParents: map<Item, int>, children: Graph)
    requires Counted(pairs, numParents, children)
    ensures var n1 := if parent in numParents then numParents else numParents[parent := 0];
            var n2 := if child in n1 then n1 else n1[child := 0];
            Counted(pairs + [(parent, child)], n2[child := n2[child] + 1],
                    children[parent := (if parent in children then children[parent] else []) + [child]])
  {
    var q := pairs + [(parent, child)];
    hide Mentioned;
    hide Open;
    hide Kids;
    forall x
      ensures Mentioned(q, x) <==> Mentioned(pairs, x) || x == parent || x == child
      ensures Open(q, {}, x) == Open(pairs, {}, x) + if x == child then 1 else 0
      ensures Kids(q, x) == Kids(pairs, x) + if x == parent then [child] else []
      ensures !Mentioned(pairs, x) ==> Open(pairs, {}, x) == 0
    {
      MentionedStep(pairs, parent, child, x);
      OpenStep(pairs, parent, child, x);
    }
  }

  /** The count of an item is that of the pairs with it as the child, and the children of a parent are those of its
      pairs, in the order of the pairs. */
  ghost predicate Dictionaries(pairs: Pairs, numParents: map<Item, int>, children: Graph) {
    && (forall x | x in numParents :: numParents[x] == |ByChild(pairs, {}, x)|)
    && forall i: nat | i < |pairs| ::
         && pairs[i].0 in children && |children[pairs[i].0]| == |ByParent(pairs, pairs[i].0, |pairs|)|
         && InPlace(pairs, children[pairs[i].0], i)
  }

  method CountParents(pairs: Pairs) returns (numParents: map<Item, int>, children: Graph)
    ensures Counted(pairs, numParents, children)
    ensures Dictionaries(pairs, numParents, children)
  {
    hide Counted;
    numParents, children := map[], map[];
    CountedNone();
    for i := 0 to |pairs|
      invariant Counted(pairs[..i], numParents, children)
    {
      var parent, child := pairs[i].0, pairs[i].1;
      assert pairs[..i + 1] == pairs[..i] + [(parent, child)];
      CountedStep(pairs[..i], parent, child, numParents, children);
      if parent !in numParents {
        numParents := numParents[parent := 0];
      }
      if child !in numParents {
        numParents := numParents[child := 0];
      }
      numParents := numParents[child := numParents[child] + 1];
      children := children[parent := (if parent in children then children[parent] else []) + [child]];
    }
    assert pairs[..|pairs|] == pairs;
    DictionariesAre(pairs, numParents, children);
  }

  lemma DictionariesAre(pairs: Pairs, numParents: map<Item, int>, children: Graph)
    requires Counted(pairs, numParents, children)
    ensures Dictionaries(pairs, numParents, children)
  {
    hide Kids;
    hide Open;
    hide ByChild;
    hide ByParent;
    forall x | x in numParents ensures numParents[x] == |ByChild(pairs, {}, x)| { OpenIs(pairs, {}, x); }
    forall i: nat | i < |pairs|
      ensures pairs[i].0 in children && |children[pairs[i].0]| == |ByParent(pairs, pairs[i].0, |pairs|)|
      ensures InPlace(pairs, children[pairs[i].0], i)
    {
      KidsInOrder(pairs, pairs[i].0);
      assert InPlace(pairs, Kids(pairs, pairs[i].0), i);
      assert |Kids(pairs, pairs[i].0)| > 0;
    }
  }

  lemma CountedNone()
    ensures Counted([], map[], map[])
  {
  }

  // ---- cycles and orders ---------------------------------------------------------------

  /** The graph of the pairs. */
  ghost function GraphOf(pairs: Pairs): Graph {
    map x | x in (set i | 0 <= i < |pairs| :: pairs[i].0) :: Kids(pairs, x)
  }

  lemma GraphEdges(pairs: Pairs, p: Item, c: Item)
    ensures Edge(GraphOf(pairs), p, c) <==> Pair(pairs, p, c)
  {
    KidsArePairs(pairs, p, c);
    if Pair(pairs, p, c) {
      var i :| 0 <= i < |pairs| && pairs[i] == (p, c);
      assert pairs[i].0 in GraphOf(pairs);
    }
  }

  ghost predicate HasParent(g: Graph, left: set<Item>, x: Item) {
    exists y :: y in left && Edge(g, y, x)
  }

  lemma Prepend(g: Graph, y: Item, p: seq<Item>)
    requires SimplePath(g, p) && Edge(g, y, p[0])
    ensures if y in p then Cycle(g, p[..Index(p, y) + 1]) else SimplePath(g, [y] + p)
  {
  }

  /** If every item of a finite non-empty set has a parent in the set, there is a cycle. */
  lemma {:induction false} ParentsEverywhere(g: Graph, left: set<Item>, p: seq<Item>) returns (c: seq<Item>)
    requires forall x | x in left :: HasParent(g, left, x)
    requires SimplePath(g, p) && forall i | 0 <= i < |p| :: p[i] in left
    ensures Cycle(g, c)
    decreases |left| - |p|
  {
    assert HasParent(g, left, p[0]);
    var y :| y in left && Edge(g, y, p[0]);
    hide HasParent;
    hide Cycle;
    Prepend(g, y, p);
    if y in p {
      c := p[..Index(p, y) + 1];
    } else {
      DistinctBound([y] + p, left);
      c := ParentsEverywhere(g, left, [y] + p);
    }
  }

  /** Every parent stands before each of its children. */
  ghost predicate Ordered(pairs: Pairs, answer: seq<Item>) {
    forall p, j | 0 <= j < |answer| && Pair(pairs, p, answer[j]) :: p in answer[..j]
  }

  lemma {:induction false} CycleClimbs(pairs: Pairs, answer: seq<Item>, c: seq<Item>, k: nat)
    requires Ordered(pairs, answer) && Distinct(answer) && SimplePath(GraphOf(pairs), c) && k < |c|
    requires forall i | 0 <= i < |c| :: c[i] in answer
    ensures Index(answer, c[0]) + k <= Index(answer, c[k])
  {
    if k > 0 {
      CycleClimbs(pairs, answer, c, k - 1);
      assert Edge(GraphOf(pairs), c[k - 1], c[k]);
      GraphEdges(pairs, c[k - 1], c[k]);
      Before(pairs, answer, c[k - 1], c[k]);
    }
  }

  lemma Before(pairs: Pairs, answer: seq<Item>, p: Item, x: Item)
    requires Ordered(pairs, answer) && Distinct(answer) && Pair(pairs, p, x) && x in answer
    ensures p in answer && Index(answer, p) < Index(answer, x)
  {
  }

  lemma OrderedHasNoCycle(pairs: Pairs, answer: seq<Item>, c: seq<Item>)
    requires Ordered(pairs, answer) && Distinct(answer)
    requires forall x :: Mentioned(pairs, x) ==> x in answer
    ensures !Cycle(GraphOf(pairs), c)
  {
    if Cycle(GraphOf(pairs), c) {
      var g := GraphOf(pairs);
      forall i | 0 <= i < |c| ensures c[i] in answer {
        var next := if i + 1 < |c| then c[i + 1] else c[0];
        assert i + 1 < |c| ==> Edge(g, c[i + 1 - 1], c[i + 1]);
        GraphEdges(pairs, c[i], next);
        PairMentioned(pairs, c[i], next);
      }
      var last, first := c[|c| - 1], c[0];
      CycleClimbs(pairs, answer, c, |c| - 1);
      GraphEdges(pairs, last, first);
      Before(pairs, answer, last, first);
    }
  }

  lemma PairMentioned(pairs: Pairs, p: Item, c: Item)
    requires Pair(pairs, p, c)
    ensures Mentioned(pairs, p) && Mentioned(pairs, c)
  {
  }

  // ---- flat sorting --------------------------------------------------------------------

  /** Pairs of `c` still open when the parents in `done` and the first children `kids` of one more are finished. */
  ghost function Left(pairs: Pairs, done: set<Item>, kids: seq<Item>, c: Item): int {
    Open(pairs, done, c) - multiset(kids)[c]
  }

  /** The items of the pairs and some extra ones. */
  ghost predicate Known(extra: set<Item>, pairs: Pairs, x: Item) { x in extra || Mentioned(pairs, x) }

  /** The dictionary holds the open counts of all items but those in `gone`. */
  ghost predicate Counts(extra: set<Item>, pairs: Pairs, done: set<Item>, kids: seq<Item>, gone: set<Item>, numParents: map<Item, int>) {
    && (forall x :: x in numParents <==> Known(extra, pairs, x) && x !in gone)
    && (forall x | x in numParents :: numParents[x] == Left(pairs, done, kids, x))
  }

  /** `answer` holds the items without open pairs, once each. */
  ghost predicate Answered(pairs: Pairs, done: set<Item>, kids: seq<Item>, answer: seq<Item>) {
    && (forall x :: x in answer <==> Mentioned(pairs, x) && Left(pairs, done, kids, x) == 0)
    && Distinct(answer)
  }

  ghost predicate ChildrenLeft(pairs: Pairs, done: set<Item>, children: Graph) {
    && (forall x | Kids(pairs, x) != [] && x !in done :: x in children)
    && (forall x | x in children :: x !in done)
    && (forall x | x in children :: children[x] == Kids(pairs, x))
  }

  /** The child about to be counted down still has its key: its count is positive. */
  lemma KidOpen(pairs: Pairs, done: set<Item>, parent: Item, j: nat)
    requires parent !in done && j < |Kids(pairs, parent)|
    ensures var kids := Kids(pairs, parent); Left(pairs, done, kids[..j], kids[j]) > 0
    ensures Mentioned(pairs, Kids(pairs, parent)[j])
  {
    var kids := Kids(pairs, parent);
    OpenFinish(pairs, done, parent, kids[j]);
    assert kids == kids[..j] + [kids[j]] + kids[j + 1..];
    KidsArePairs(pairs, parent, kids[j]);
    PairMentioned(pairs, parent, kids[j]);
  }

  /** No item is counted below zero. */
  lemma LeftBounds(pairs: Pairs, done: set<Item>, parent: Item, j: nat, x: Item)
    requires parent !in done && j <= |Kids(pairs, parent)|
    ensures var kids := Kids(pairs, parent);
            Open(pairs, done + {parent}, x) <= Left(pairs, done, kids[..j], x) <= Open(pairs, done, x)
  {
    var kids := Kids(pairs, parent);
    OpenFinish(pairs, done, parent, x);
    assert kids == kids[..j] + kids[j..];
  }

  lemma CountDown(pairs: Pairs, done: set<Item>, parent: Item, j: nat, x: Item)
    requires parent !in done && j < |Kids(pairs, parent)|
    ensures var kids := Kids(pairs, parent);
            Left(pairs, done, kids[..j + 1], x) == Left(pairs, done, kids[..j], x) - if x == kids[j] then 1 else 0
  {
    var kids := Kids(pairs, parent);
    assert kids[..j + 1] == kids[..j] + [kids[j]];
  }

  /** All parents of an item without open pairs are finished. */
  lemma NoOpenPair(pairs: Pairs, done: set<Item>, x: Item)
    requires Open(pairs, done, x) == 0
    ensures forall p | Pair(pairs, p, x) :: p in done
  {
  }

  /** Between two items of `answer`: the first `i` are finished. */
  ghost predicate Sorting(pairs: Pairs, i: nat, done: set<Item>, numParents: map<Item, int>, children: Graph, answer: seq<Item>) {
    && Counts({}, pairs, done, [], done, numParents) && Answered(pairs, done, [], answer)
    && ChildrenLeft(pairs, done, children) && Ordered(pairs, answer)
    && i <= |answer| && (forall x :: x in done <==> x in answer[..i])
  }

  /** Within the children of `answer[i]`, `j` of which have been counted down. */
  ghost predicate Counting(pairs: Pairs, i: nat, done: set<Item>, parent: Item, j: nat, numParents: map<Item, int>, answer: seq<Item>)
    requires j <= |Kids(pairs, parent)|
  {
    && Counts({}, pairs, done, Kids(pairs, parent)[..j], done + {parent}, numParents)
    && Answered(pairs, done, Kids(pairs, parent)[..j], answer)
    && Ordered(pairs, answer)
    && i < |answer| && answer[i] == parent && parent !in done && (forall x :: x in done <==> x in answer[..i])
  }

  lemma Enter(pairs: Pairs, i: nat, done: set<Item>, numParents: map<Item, int>, children: Graph, answer: seq<Item>)
    requires Sorting(pairs, i, done, numParents, children, answer) && i < |answer|
    ensures answer[i] in numParents && answer[i] !in done
    ensures Counting(pairs, i, done, answer[i], 0, numParents - {answer[i]}, answer)
    ensures Kids(pairs, answer[i]) != [] ==> answer[i] in children
    ensures answer[i] in children ==> children[answer[i]] == Kids(pairs, answer[i])
  {
  }

  lemma ChildCounts(pairs: Pairs, done: set<Item>, parent: Item, j: nat, numParents: map<Item, int>)
    requires parent !in done && j < |Kids(pairs, parent)| && Kids(pairs, parent)[j] in numParents
    requires Counts({}, pairs, done, Kids(pairs, parent)[..j], done + {parent}, numParents)
    ensures var child := Kids(pairs, parent)[j];
            Counts({}, pairs, done, Kids(pairs, parent)[..j + 1], done + {parent}, numParents[child := numParents[child] - 1])
  {
    forall x { CountDown(pairs, done, parent, j, x); }
    hide Left;
    hide Known;
    hide Kids;
  }

  lemma ChildAnswered(pairs: Pairs, done: set<Item>, parent: Item, j: nat, answer: seq<Item>)
    requires parent !in done && j < |Kids(pairs, parent)| && Answered(pairs, done, Kids(pairs, parent)[..j], answer)
    ensures var kids := Kids(pairs, parent);
            Answered(pairs, done, kids[..j + 1], if Left(pairs, done, kids[..j + 1], kids[j]) == 0 then answer + [kids[j]] else answer)
  {
    forall x { CountDown(pairs, done, parent, j, x); }
    KidOpen(pairs, done, parent, j);
    hide Left;
    hide Mentioned;
    hide Kids;
  }

  /** A child without open pairs can follow. */
  lemma ChildOrdered(pairs: Pairs, i: nat, done: set<Item>, parent: Item, j: nat, numParents: map<Item, int>, answer: seq<Item>)
    requires j < |Kids(pairs, parent)| && Counting(pairs, i, done, parent, j, numParents, answer)
    requires Left(pairs, done, Kids(pairs, parent)[..j + 1], Kids(pairs, parent)[j]) == 0
    ensures Ordered(pairs, answer + [Kids(pairs, parent)[j]])
  {
    var child := Kids(pairs, parent)[j];
    hide Kids;
    hide Open;
    hide Pair;
    LeftBounds(pairs, done, parent, j + 1, child);
    NoOpenPair(pairs, done + {parent}, child);
    assert forall p | Pair(pairs, p, child) :: p in answer;
    OrderedAppend(pairs, answer, child);
  }

  lemma CountChild(pairs: Pairs, i: nat, done: set<Item>, parent: Item, j: nat, numParents: map<Item, int>, answer: seq<Item>)
    requires j < |Kids(pairs, parent)| && Counting(pairs, i, done, parent, j, numParents, answer)
    ensures var child := Kids(pairs, parent)[j];
            child in numParents &&
            var n := numParents[child := numParents[child] - 1];
            Counting(pairs, i, done, parent, j + 1, n, if n[child] == 0 then answer + [child] else answer)
  {
    var child := Kids(pairs, parent)[j];
    KidOpen(pairs, done, parent, j);
    GoneIsAnswered(pairs, i, done, parent, j, numParents, answer, child);
    ChildCounts(pairs, done, parent, j, numParents);
    ChildAnswered(pairs, done, parent, j, answer);
    CountDown(pairs, done, parent, j, child);
    if Left(pairs, done, Kids(pairs, parent)[..j + 1], child) == 0 {
      ChildOrdered(pairs, i, done, parent, j, numParents, answer);
      assert (answer + [child])[..|answer|] == answer;
    }
    assert numParents[child] == Left(pairs, done, Kids(pairs, parent)[..j], child);
    hide Left;
    hide Counts;
    hide Answered;
    hide Kids;
    hide Ordered;
  }

  lemma GoneIsAnswered(pairs: Pairs, i: nat, done: set<Item>, parent: Item, j: nat, numParents: map<Item, int>, answer: seq<Item>, x: Item)
    requires j <= |Kids(pairs, parent)| && Counting(pairs, i, done, parent, j, numParents, answer)
    requires Mentioned(pairs, x) && Left(pairs, done, Kids(pairs, parent)[..j], x) > 0
    ensures x in numParents
  {
  }

  lemma OrderedAppend(pairs: Pairs, answer: seq<Item>, x: Item)
    requires Ordered(pairs, answer) && forall p | Pair(pairs, p, x) :: p in answer
    ensures Ordered(pairs, answer + [x])
  {
    var a := answer + [x];
    forall p, j | 0 <= j < |a| && Pair(pairs, p, a[j]) ensures p in a[..j] {
      if j < |answer| {
        assert a[..j] == answer[..j];
      } else {
        assert a[..j] == answer;
      }
    }
  }

  /** Counting the children down and finishing the parent leave the same open counts. */
  lemma LeftFinish(pairs: Pairs, done: set<Item>, parent: Item)
    requires parent !in done
    ensures forall x :: Left(pairs, done + {parent}, [], x) == Left(pairs, done, Kids(pairs, parent), x)
  {
    forall x ensures Left(pairs, done + {parent}, [], x) == Left(pairs, done, Kids(pairs, parent), x) {
      OpenFinish(pairs, done, parent, x);
    }
  }

  lemma LeaveCounts(pairs: Pairs, done: set<Item>, parent: Item, numParents: map<Item, int>, answer: seq<Item>)
    requires Counts({}, pairs, done, Kids(pairs, parent), done + {parent}, numParents)
    requires Answered(pairs, done, Kids(pairs, parent), answer)
    requires forall x :: Left(pairs, done + {parent}, [], x) == Left(pairs, done, Kids(pairs, parent), x)
    ensures Counts({}, pairs, done + {parent}, [], done + {parent}, numParents)
    ensures Answered(pairs, done + {parent}, [], answer)
  {
    hide Left;
    hide Mentioned;
    hide Kids;
  }

  lemma LeaveChildren(pairs: Pairs, done: set<Item>, parent: Item, children: Graph)
    requires ChildrenLeft(pairs, done, children)
    ensures ChildrenLeft(pairs, done + {parent}, children - {parent})
  {
    hide Kids;
  }

  lemma Leave(pairs: Pairs, i: nat, done: set<Item>, parent: Item, numParents: map<Item, int>, children: Graph, answer: seq<Item>)
    requires Counting(pairs, i, done, parent, |Kids(pairs, parent)|, numParents, answer) && ChildrenLeft(pairs, done, children)
    ensures Sorting(pairs, i + 1, done + {parent}, numParents, children - {parent}, answer)
  {
    var kids := Kids(pairs, parent);
    assert kids[..|kids|] == kids;
    hide Kids;
    hide Open;
    LeftFinish(pairs, done, parent);
    hide Left;
    hide Mentioned;
    LeaveCounts(pairs, done, parent, numParents, answer);
    LeaveChildren(pairs, done, parent, children);
    hide Ordered;
    hide Counts;
    hide Answered;
    hide ChildrenLeft;
    OneMoreDone(answer, i, done);
  }

  lemma OneMoreDone(answer: seq<Item>, i: nat, done: set<Item>)
    requires i < |answer| && forall x :: x in done <==> x in answer[..i]
    ensures forall x :: x in done + {answer[i]} <==> x in answer[..i + 1]
  {
    assert answer[..i + 1] == answer[..i] + [answer[i]];
  }

  lemma LeftOverParent(extra: set<Item>, pairs: Pairs, done: set<Item>, numParents: map<Item, int>, x: Item)
    requires Counts(extra, pairs, done, [], done, numParents) && Open(pairs, done, x) > 0
    ensures HasParent(GraphOf(pairs), numParents.Keys, x)
  {
    hide Open;
    hide GraphOf;
    OpenPositive(pairs, done, x);
    var p :| Pair(pairs, p, x) && p !in done;
    PairMentioned(pairs, p, x);
    GraphEdges(pairs, p, x);
  }

  /** Items left over at the end all have a parent that is left over, so there is a cycle. */
  lemma LeftOver(extra: set<Item>, pairs: Pairs, done: set<Item>, numParents: map<Item, int>) returns (c: seq<Item>)
    requires Counts(extra, pairs, done, [], done, numParents) && numParents != map[]
    requires forall x | x in numParents :: Open(pairs, done, x) > 0
    ensures Cycle(GraphOf(pairs), c)
  {
    hide Counts;
    hide HasParent;
    hide Cycle;
    hide GraphOf;
    forall x | x in numParents.Keys ensures HasParent(GraphOf(pairs), numParents.Keys, x) {
      LeftOverParent(extra, pairs, done, numParents, x);
    }
    var x :| x in numParents;
    c := ParentsEverywhere(GraphOf(pairs), numParents.Keys, [x]);
  }

  // ---- what is left when there is a cycle ------------------------------------------------------

  /** Each item is a parent of the next. */
  ghost predicate Chain(pairs: Pairs, p: seq<Item>) {
    |p| >= 1 && forall i | 0 < i < |p| :: Pair(pairs, p[i - 1], p[i])
  }

  ghost predicate ChainTo(pairs: Pairs, x: Item, p: seq<Item>) { Chain(pairs, p) && p[|p| - 1] == x }

  ghost predicate ChainsUpTo(pairs: Pairs, x: Item, n: nat) { forall p | ChainTo(pairs, x, p) :: |p| <= n }

  /** The chains of parents that end at `x` do not grow without bound: no cycle leads to `x`. */
  ghost predicate Bounded(pairs: Pairs, x: Item) { exists n: nat :: ChainsUpTo(pairs, x, n) }

  lemma ChainAppend(pairs: Pairs, q: seq<Item>, x: Item)
    requires Chain(pairs, q) && Pair(pairs, q[|q| - 1], x)
    ensures ChainTo(pairs, x, q + [x])
  {
  }

  lemma ChainFront(pairs: Pairs, p: seq<Item>, x: Item)
    requires ChainTo(pairs, x, p) && |p| > 1
    ensures Pair(pairs, p[|p| - 2], x) && ChainTo(pairs, p[|p| - 2], p[..|p| - 1])
  {
    assert Pair(pairs, p[|p| - 1 - 1], p[|p| - 1]);
  }

  /** A chain cannot be longer than the part of an order up to its end. */
  lemma {:induction false} OrderedBounds(pairs: Pairs, answer: seq<Item>, j: nat, p: seq<Item>)
    requires Ordered(pairs, answer) && j < |answer| && ChainTo(pairs, answer[j], p)
    ensures |p| <= j + 1
  {
    if |p| > 1 {
      ChainFront(pairs, p, answer[j]);
      assert p[|p| - 2] in answer[..j];
      var i :| 0 <= i < j && answer[i] == p[|p| - 2];
      OrderedBounds(pairs, answer, i, p[..|p| - 1]);
    }
  }

  lemma OrderedAreBounded(pairs: Pairs, answer: seq<Item>, x: Item)
    requires Ordered(pairs, answer) && x in answer
    ensures Bounded(pairs, x)
  {
    var j :| 0 <= j < |answer| && answer[j] == x;
    forall p | ChainTo(pairs, x, p) ensures |p| <= j + 1 { OrderedBounds(pairs, answer, j, p); }
    assert ChainsUpTo(pairs, x, j + 1);
  }

  /** Chains of every length end at an item that is left over. */
  lemma {:induction false} LeftChain(extra: set<Item>, pairs: Pairs, done: set<Item>, numParents: map<Item, int>, x: Item, n: nat)
      returns (p: seq<Item>)
    requires Counts(extra, pairs, done, [], done, numParents) && x in numParents
    requires forall y | y in numParents :: Open(pairs, done, y) > 0
    ensures ChainTo(pairs, x, p) && |p| == n + 1
  {
    hide Open;
    if n == 0 {
      p := [x];
    } else {
      OpenPositive(pairs, done, x);
      var y :| Pair(pairs, y, x) && y !in done;
      PairMentioned(pairs, y, x);
      var q := LeftChain(extra, pairs, done, numParents, y, n - 1);
      ChainAppend(pairs, q, x);
      p := q + [x];
    }
  }

  lemma LeftIsUnbounded(extra: set<Item>, pairs: Pairs, done: set<Item>, numParents: map<Item, int>, x: Item)
    requires Counts(extra, pairs, done, [], done, numParents) && x in numParents
    requires forall y | y in numParents :: Open(pairs, done, y) > 0
    ensures !Bounded(pairs, x)
  {
    hide Counts;
    hide Open;
    hide ChainTo;
    if n: nat :| ChainsUpTo(pairs, x, n) {
      var p := LeftChain(extra, pairs, done, numParents, x, n);
    }
  }

  /** The dictionary left over: every item that is not sorted, with the number of pairs from parents not sorted. */
  ghost predicate Stuck(extra: set<Item>, pairs: Pairs, sorted: seq<Item>, numParents: map<Item, int>) {
    && (forall x :: x in numParents <==> Known(extra, pairs, x) && x !in sorted)
    && forall x | x in numParents :: numParents[x] == |ByChild(pairs, (set y | y in sorted), x)| > 0
  }

  lemma LeftIsStuck(extra: set<Item>, pairs: Pairs, done: set<Item>, numParents: map<Item, int>, sorted: seq<Item>)
    requires Counts(extra, pairs, done, [], done, numParents) && forall x :: x in done <==> x in sorted
    requires forall y | y in numParents :: Open(pairs, done, y) > 0
    ensures Stuck(extra, pairs, sorted, numParents)
  {
    assert done == set y | y in sorted;
    forall x | x in numParents { OpenIs(pairs, done, x); }
    hide Open;
    hide ByChild;
  }

  /** The children of the parents that are not sorted. */
  ghost predicate Remaining(children: Graph, sorted: seq<Item>, left: Graph) {
    left == map x | x in children && x !in sorted :: children[x]
  }

  lemma ChildrenRemain(children: Graph, done: set<Item>, sorted: seq<Item>)
    requires forall x :: x in done <==> x in sorted
    ensures Remaining(children, sorted, children - done)
  {
  }

  lemma CountedGraph(pairs: Pairs, numParents: map<Item, int>, children: Graph)
    requires Counted(pairs, numParents, children)
    ensures children == GraphOf(pairs)
  {
    forall x ensures x in children <==> x in GraphOf(pairs) {
      if x in GraphOf(pairs) {
        var i :| 0 <= i < |pairs| && pairs[i].0 == x;
        KidsArePairs(pairs, x, pairs[i].1);
        assert Pair(pairs, x, pairs[i].1) by { assert pairs[i] in pairs; }
      }
      if x in children {
        KidsArePairs(pairs, x, Kids(pairs, x)[0]);
        var i :| 0 <= i < |pairs| && pairs[i] == (x, Kids(pairs, x)[0]);
        assert pairs[i].0 == x;
      }
    }
  }

  lemma AnswerIs(pairs: Pairs, done: set<Item>, numParents: map<Item, int>, answer: seq<Item>)
    requires Counts({}, pairs, done, [], done, numParents) && Answered(pairs, done, [], answer) && Ordered(pairs, answer)
    requires (forall y :: y in done <==> y in answer) && forall y | y in numParents :: Open(pairs, done, y) > 0
    ensures SortedPart(pairs, answer)
  {
    hide Open;
    hide Ordered;
    hide Bounded;
    hide Mentioned;
    forall x ensures x in answer <==> Mentioned(pairs, x) && Bounded(pairs, x) {
      if x in answer { OrderedAreBounded(pairs, answer, x); }
      if x in numParents { LeftIsUnbounded({}, pairs, done, numParents, x); }
    }
  }

  /** In order, once each, exactly the items that no cycle leads to. */
  ghost predicate SortedPart(pairs: Pairs, answer: seq<Item>) {
    && Distinct(answer) && Ordered(pairs, answer)
    && forall x :: x in answer <==> Mentioned(pairs, x) && Bounded(pairs, x)
  }

  lemma Finished(pairs: Pairs, done: set<Item>, numParents: map<Item, int>, children: Graph, answer: seq<Item>)
    requires Sorting(pairs, |answer|, done, numParents, children, answer) && children == GraphOf(pairs) - done
    ensures SortedPart(pairs, answer)
    ensures numParents == map[] ==> forall x :: x in answer <==> Mentioned(pairs, x)
    ensures numParents != map[] <==> exists c :: Cycle(GraphOf(pairs), c)
    ensures Stuck({}, pairs, answer, numParents) && Remaining(GraphOf(pairs), answer, children)
  {
    hide *;
    AtEnd(pairs, done, numParents, children, answer);
    AnswerIs(pairs, done, numParents, answer);
    LeftIsStuck({}, pairs, done, numParents, answer);
    ChildrenRemain(GraphOf(pairs), done, answer);
    if numParents == map[] {
      AllSorted(pairs, done, answer);
    } else {
      ghost var c := LeftOver({}, pairs, done, numParents);
    }
  }

  lemma AtEnd(pairs: Pairs, done: set<Item>, numParents: map<Item, int>, children: Graph, answer: seq<Item>)
    requires Sorting(pairs, |answer|, done, numParents, children, answer)
    ensures Counts({}, pairs, done, [], done, numParents) && Answered(pairs, done, [], answer) && Ordered(pairs, answer)
    ensures forall y :: y in done <==> y in answer
    ensures forall x | x in numParents :: Open(pairs, done, x) > 0
  {
  }

  lemma AllSorted(pairs: Pairs, done: set<Item>, answer: seq<Item>)
    requires Counts({}, pairs, done, [], done, map[]) && Answered(pairs, done, [], answer) && Ordered(pairs, answer)
    requires forall y :: y in done <==> y in answer
    ensures Distinct(answer) && Ordered(pairs, answer) && (forall x :: x in answer <==> Mentioned(pairs, x))
    ensures !exists c :: Cycle(GraphOf(pairs), c)
  {
    assert forall x :: x in answer <==> Mentioned(pairs, x);
    forall c ensures !Cycle(GraphOf(pairs), c) {
      OrderedHasNoCycle(pairs, answer, c);
    }
  }

  lemma Start(pairs: Pairs, numParents: map<Item, int>, children: Graph, answer: seq<Item>)
    requires Counted(pairs, numParents, children) && Distinct(answer)
    requires forall x :: x in answer <==> x in numParents && numParents[x] == 0
    ensures Sorting(pairs, 0, {}, numParents, children, answer)
  {
    forall x ensures Left(pairs, {}, [], x) == Open(pairs, {}, x) {
    }
    forall x | x in answer ensures forall p :: !Pair(pairs, p, x) {
      NoOpenPair(pairs, {}, x);
    }
    assert Ordered(pairs, answer) by {
      assert forall j | 0 <= j < |answer| :: answer[j] in answer;
    }
  }

  lemma SortingBound(pairs: Pairs, i: nat, done: set<Item>, numParents: map<Item, int>, children: Graph, answer: seq<Item>, all: set<Item>)
    requires Sorting(pairs, i, done, numParents, children, answer) && forall x :: x in all <==> Mentioned(pairs, x)
    ensures i <= |answer| <= |all|
  {
    DistinctBound(answer, all);
  }

  /** Sort the pairs; which of several sortable items comes first depends on the dictionary order. */
  method Topsort(pairs: Pairs) returns (r: Result<seq<Item>>)
    ensures SortedPart(pairs, r.value)
    ensures r.Sorted? ==> forall x :: x in r.value <==> Mentioned(pairs, x)
    ensures r.CycleError? <==> exists c :: Cycle(GraphOf(pairs), c)
    ensures r.CycleError? ==> Stuck({}, pairs, r.value, r.numParents) && Remaining(GraphOf(pairs), r.value, r.children)
  {
    hide *;
    var numParents, children := CountParents(pairs);
    ghost var all, given := numParents.Keys, children;
    CountedGraph(pairs, numParents, children);
    CountedIsConsistent(pairs, numParents, children);
    var answer := WithoutParent(numParents);
    ghost var done: set<Item> := {};
    Start(pairs, numParents, children, answer);
    var i := 0;
    while i < |answer|
      invariant 0 <= i <= |answer| && Sorting(pairs, i, done, numParents, children, answer) && children == given - done
      decreases |all| - i
    {
      SortingBound(pairs, i, done, numParents, children, answer, all);
      var parent := answer[i];
      Enter(pairs, i, done, numParents, children, answer);
      assert ChildrenLeft(pairs, done, children) by { SortingChildren(pairs, i, done, numParents, children, answer); }
      numParents := numParents - {parent};
      if parent in children {
        var kids := children[parent];
        for j := 0 to |kids|
          invariant Counting(pairs, i, done, parent, j, numParents, answer)
        {
          var child := kids[j];
          CountChild(pairs, i, done, parent, j, numParents, answer);
          numParents := numParents[child := numParents[child] - 1];
          if numParents[child] == 0 {
            answer := answer + [child];
          }
        }
      }
      assert Counting(pairs, i, done, parent, |Kids(pairs, parent)|, numParents, answer);
      Leave(pairs, i, done, parent, numParents, children, answer);
      children := children - {parent};
      done := done + {parent};
      i := i + 1;
      SortingBound(pairs, i, done, numParents, children, answer, all);
    }
    Finished(pairs, done, numParents, children, answer);
    return if numParents == map[] then Sorted(answer) else CycleError(answer, numParents, children);
  }

  lemma SortingChildren(pairs: Pairs, i: nat, done: set<Item>, numParents: map<Item, int>, children: Graph, answer: seq<Item>)
    requires Sorting(pairs, i, done, numParents, children, answer)
    ensures ChildrenLeft(pairs, done, children) && i <= |answer|
  {
  }

  /** The items with count zero, in an arbitrary order. */
  method WithoutParent(numParents: map<Item, int>) returns (s: seq<Item>)
    ensures forall x :: x in s <==> x in numParents && numParents[x] == 0
    ensures Distinct(s)
  {
    s := [];
    var todo := numParents.Keys;
    while todo != {}
      invariant todo <= numParents.Keys
      invariant forall x :: x in s <==> x in numParents && x !in todo && numParents[x] == 0
      invariant Distinct(s)
    {
      var x :| x in todo;
      todo := todo - {x};
      if numParents[x] == 0 {
        s := s + [x];
      }
    }
  }

  // ---- sorting by levels ---------------------------------------------------------------

  /** The longest chain of parents that ends at `x` has `k` steps. */
  ghost predicate Depth(pairs: Pairs, x: Item, k: nat) {
    && (exists p :: ChainTo(pairs, x, p) && |p| == k + 1)
    && (forall p | ChainTo(pairs, x, p) :: |p| <= k + 1)
  }

  lemma DepthUnique(pairs: Pairs, x: Item, k: nat, l: nat)
    requires Depth(pairs, x, k) && Depth(pairs, x, l)
    ensures k == l
  {
  }

  function Concat(levels: seq<seq<Item>>): seq<Item> {
    if levels == [] then [] else Concat(levels[..|levels| - 1]) + levels[|levels| - 1]
  }

  lemma {:induction false} InLevel(levels: seq<seq<Item>>, x: Item)
    ensures x in Concat(levels) <==> exists k :: 0 <= k < |levels| && x in levels[k]
  {
    if levels != [] {
      var n := |levels| - 1;
      InLevel(levels[..n], x);
      if k :| 0 <= k < |levels| && x in levels[k] {
        if k < n { assert x in levels[..n][k]; }
      }
      if x in Concat(levels[..n]) {
        var k :| 0 <= k < n && x in levels[..n][k];
        assert x in levels[k];
      }
    }
  }

  /** Every level holds items of the depth of its number. */
  ghost predicate ByDepth(pairs: Pairs, levels: seq<seq<Item>>) {
    forall k, x | 0 <= k < |levels| && x in levels[k] :: Depth(pairs, x, k)
  }

  /** Between two levels. `flat` is all levels so far, `before` all but the last. */
  ghost predicate Leveling(extra: set<Item>, pairs: Pairs, levels: seq<seq<Item>>, before: set<Item>, flat: set<Item>) {
    && ByDepth(pairs, levels) && Ordered(pairs, Concat(levels)) && Distinct(Concat(levels))
    && (forall x :: x in flat <==> x in Concat(levels))
    && (forall x | x in flat :: Known(extra, pairs, x) && Open(pairs, flat, x) == 0)
    && (levels != [] ==> forall x :: x in flat <==> x in before || x in levels[|levels| - 1])
    && (levels != [] ==> forall x | Known(extra, pairs, x) && x !in flat :: Open(pairs, before, x) > 0)
  }

  /** An item whose parents are all in the levels so far, one of them in the last, is one deeper. */
  lemma NextDepth(extra: set<Item>, pairs: Pairs, levels: seq<seq<Item>>, before: set<Item>, flat: set<Item>, x: Item)
    requires Leveling(extra, pairs, levels, before, flat) && Known(extra, pairs, x) && x !in flat && Open(pairs, flat, x) == 0
    ensures Depth(pairs, x, |levels|)
  {
    NoOpenPair(pairs, flat, x);
    forall p | ChainTo(pairs, x, p) ensures |p| <= |levels| + 1 {
      if |p| > 1 {
        var q := p[..|p| - 1];
        var y := q[|q| - 1];
        assert Pair(pairs, p[|p| - 1 - 1], p[|p| - 1]);
        InLevel(levels, y);
        var k :| 0 <= k < |levels| && y in levels[k];
        assert Depth(pairs, y, k);
        assert ChainTo(pairs, y, q);
      }
    }
    if levels == [] {
      assert ChainTo(pairs, x, [x]);
    } else {
      OpenPositive(pairs, before, x);
      var y :| Pair(pairs, y, x) && y !in before;
      var n := |levels| - 1;
      assert y in levels[n];
      assert Depth(pairs, y, n);
      var q :| ChainTo(pairs, y, q) && |q| == n + 1;
      ChainAppend(pairs, q, x);
    }
  }

  lemma {:induction false} OpenShrinks(pairs: Pairs, done: set<Item>, more: set<Item>, x: Item)
    requires done <= more
    ensures Open(pairs, more, x) <= Open(pairs, done, x)
  {
    if pairs != [] { OpenShrinks(pairs[..|pairs| - 1], done, more, x); }
  }

  /** The items without open pairs form the next level. */
  lemma AddLevel(extra: set<Item>, pairs: Pairs, levels: seq<seq<Item>>, before: set<Item>, flat: set<Item>, level: seq<Item>, more: set<Item>)
    requires Leveling(extra, pairs, levels, before, flat) && Distinct(level)
    requires forall x :: x in level <==> Known(extra, pairs, x) && x !in flat && Open(pairs, flat, x) == 0
    requires forall x :: x in more <==> x in flat || x in level
    ensures Leveling(extra, pairs, levels + [level], flat, more)
  {
    var next := levels + [level];
    assert next[..|levels|] == levels;
    assert Concat(next) == Concat(levels) + level;
    forall x | x in level ensures Depth(pairs, x, |levels|) && (forall p | Pair(pairs, p, x) :: p in Concat(levels)) {
      NextDepth(extra, pairs, levels, before, flat, x);
      NoOpenPair(pairs, flat, x);
    }
    forall k, x | 0 <= k < |next| && x in next[k] ensures Depth(pairs, x, k) {
      if k < |levels| { assert x in levels[k]; }
    }
    OrderedLevel(pairs, Concat(levels), level);
    DistinctConcat(Concat(levels), level);
    forall x | x in more ensures Open(pairs, more, x) == 0 {
      OpenShrinks(pairs, flat, more, x);
    }
  }

  lemma OrderedLevel(pairs: Pairs, flat: seq<Item>, level: seq<Item>)
    requires Ordered(pairs, flat) && forall p, x | x in level && Pair(pairs, p, x) :: p in flat
    ensures Ordered(pairs, flat + level)
  {
    var a := flat + level;
    forall p, j | 0 <= j < |a| && Pair(pairs, p, a[j]) ensures p in a[..j] {
      if j < |flat| {
        assert a[..j] == flat[..j];
      } else {
        assert a[j] == level[j - |flat|];
        assert flat <= a[..j];
        var i :| 0 <= i < |flat| && flat[i] == p;
        assert a[..j][i] == p;
      }
    }
  }

  lemma CountKid(extra: set<Item>, pairs: Pairs, done: set<Item>, parent: Item, j: nat, numParents: map<Item, int>)
    requires parent !in done && j < |Kids(pairs, parent)|
    requires Counts(extra, pairs, done, Kids(pairs, parent)[..j], done + {parent}, numParents)
    requires forall x | x in done + {parent} :: Open(pairs, done, x) == 0
    ensures var child := Kids(pairs, parent)[j];
            child in numParents &&
            Counts(extra, pairs, done, Kids(pairs, parent)[..j + 1], done + {parent}, numParents[child := numParents[child] - 1])
  {
    var kids := Kids(pairs, parent);
    hide Kids;
    hide Open;
    KidOpen(pairs, done, parent, j);
    LeftBounds(pairs, done, parent, j, kids[j]);
    forall x ensures Left(pairs, done, kids[..j + 1], x) == Left(pairs, done, kids[..j], x) - if x == kids[j] then 1 else 0 {
      CountDown(pairs, done, parent, j, x);
    }
  }

  lemma KidsCounted(extra: set<Item>, pairs: Pairs, done: set<Item>, parent: Item, numParents: map<Item, int>, children: Graph)
    requires parent !in done && Counts(extra, pairs, done, Kids(pairs, parent), done + {parent}, numParents) && ChildrenLeft(pairs, done, children)
    ensures Counts(extra, pairs, done + {parent}, [], done + {parent}, numParents) && ChildrenLeft(pairs, done + {parent}, children - {parent})
  {
    forall x ensures Left(pairs, done + {parent}, [], x) == Left(pairs, done, Kids(pairs, parent), x) {
      OpenFinish(pairs, done, parent, x);
    }
  }

  lemma DistinctConcat(a: seq<Item>, b: seq<Item>)
    requires Distinct(a) && Distinct(b) && forall x | x in a :: x !in b
    ensures Distinct(a + b)
  {
    var c := a + b;
    forall i, j | 0 <= i < j < |c| ensures c[i] != c[j] {
      if i < |a| <= j { assert c[i] in a && c[j] in b; }
    }
  }

  lemma StartLevels(pairs: Pairs, numParents: map<Item, int>, children: Graph)
    requires Consistent(pairs, numParents, children)
    ensures var extra := numParents.Keys;
            Leveling(extra, pairs, [], {}, {}) && Counts(extra, pairs, {}, [], {}, numParents) && ChildrenLeft(pairs, {}, children)
  {
  }

  lemma KnownKeys(pairs: Pairs, numParents: map<Item, int>, children: Graph)
    requires Consistent(pairs, numParents, children)
    ensures forall x :: Known(numParents.Keys, pairs, x) <==> x in numParents
  {
  }

  lemma CountedIsConsistent(pairs: Pairs, numParents: map<Item, int>, children: Graph)
    requires Counted(pairs, numParents, children)
    ensures Consistent(pairs, numParents, children)
    ensures forall x :: x in numParents <==> Mentioned(pairs, x)
  {
  }

  /** The items with count zero are those that can be sorted next. */
  lemma LevelItems(extra: set<Item>, pairs: Pairs, flat: set<Item>, numParents: map<Item, int>, level: seq<Item>)
    requires Counts(extra, pairs, flat, [], flat, numParents) && forall x :: x in level <==> x in numParents && numParents[x] == 0
    ensures forall x :: x in level <==> Known(extra, pairs, x) && x !in flat && Open(pairs, flat, x) == 0
    ensures level == [] ==> forall x | x in numParents :: Open(pairs, flat, x) > 0
  {
  }

  /** The next item of the level still has its key, and no finished item has open pairs. */
  lemma LevelItem(extra: set<Item>, pairs: Pairs, levels: seq<seq<Item>>, before: set<Item>, base: set<Item>, level: seq<Item>, i: nat,
                  flat: set<Item>, numParents: map<Item, int>, children: Graph)
    requires Leveling(extra, pairs, levels, before, base) && Distinct(level) && i < |level|
    requires forall x :: x in level <==> Known(extra, pairs, x) && x !in base && Open(pairs, base, x) == 0
    requires forall x :: x in flat <==> x in base || x in level[..i]
    requires Counts(extra, pairs, flat, [], flat, numParents) && ChildrenLeft(pairs, flat, children)
    ensures level[i] !in flat && level[i] in numParents
    ensures forall x | x in flat + {level[i]} :: Open(pairs, flat, x) == 0
    ensures Counts(extra, pairs, flat, [], flat + {level[i]}, numParents - {level[i]})
    ensures Kids(pairs, level[i]) != [] ==> level[i] in children
    ensures level[i] in children ==> children[level[i]] == Kids(pairs, level[i])
  {
    assert level[i] in level;
    assert base <= flat;
    forall x | x in flat + {level[i]} ensures Open(pairs, flat, x) == 0 {
      OpenShrinks(pairs, base, flat, x);
      assert x in base || x in level;
    }
  }

  /** The levels hold exactly the items with a longest chain of parents, by its length. */
  ghost predicate LevelsAre(extra: set<Item>, pairs: Pairs, levels: seq<seq<Item>>) {
    && (forall x, k: nat :: (k < |levels| && x in levels[k]) <==> Known(extra, pairs, x) && Depth(pairs, x, k))
    && Distinct(Concat(levels)) && Ordered(pairs, Concat(levels))
  }

  lemma Leveled(extra: set<Item>, pairs: Pairs, levels: seq<seq<Item>>, before: set<Item>, flat: set<Item>, numParents: map<Item, int>)
    requires Leveling(extra, pairs, levels, before, flat) && Counts(extra, pairs, flat, [], flat, numParents)
    requires forall x | x in numParents :: Open(pairs, flat, x) > 0
    ensures LevelsAre(extra, pairs, levels) && forall x :: x in flat <==> x in Concat(levels)
  {
    hide Open;
    hide Ordered;
    hide Distinct;
    hide Bounded;
    hide Concat;
    hide Depth;
    forall x, k: nat ensures (k < |levels| && x in levels[k]) <==> Known(extra, pairs, x) && Depth(pairs, x, k) {
      InLevel(levels, x);
      if Known(extra, pairs, x) && Depth(pairs, x, k) {
        DepthBounds(pairs, x, k);
        if x in numParents { LeftIsUnbounded(extra, pairs, flat, numParents, x); }
        var l :| 0 <= l < |levels| && x in levels[l];
        DepthUnique(pairs, x, k, l);
      }
    }
  }

  lemma LevelsKnown(extra: set<Item>, pairs: Pairs, levels: seq<seq<Item>>)
    requires LevelsAre(extra, pairs, levels)
    ensures forall x, k: nat :: (k < |levels| && x in levels[k]) <==> Known(extra, pairs, x) && Depth(pairs, x, k)
    ensures Distinct(Concat(levels)) && Ordered(pairs, Concat(levels))
  {
    hide Known;
    hide Depth;
    hide Concat;
  }

  lemma DepthBounds(pairs: Pairs, x: Item, k: nat)
    requires Depth(pairs, x, k)
    ensures Bounded(pairs, x)
  {
    assert ChainsUpTo(pairs, x, k + 1);
  }

  lemma AllLeveled(extra: set<Item>, pairs: Pairs, levels: seq<seq<Item>>, before: set<Item>, flat: set<Item>)
    requires Leveling(extra, pairs, levels, before, flat) && Counts(extra, pairs, flat, [], flat, map[])
    ensures forall x :: x in Concat(levels) <==> Known(extra, pairs, x)
    ensures !exists c :: Cycle(GraphOf(pairs), c)
  {
    assert forall x :: Known(extra, pairs, x) <==> x in flat;
    forall c ensures !Cycle(GraphOf(pairs), c) {
      OrderedHasNoCycle(pairs, Concat(levels), c);
    }
  }

  /** The dictionaries of a caller: for every item, the keys of `numParents`, the number of pairs with it as child, and
      for every item with children the list of them. */
  ghost predicate Consistent(pairs: Pairs, numParents: map<Item, int>, children: Graph) {
    && (forall x | Mentioned(pairs, x) :: x in numParents)
    && (forall x | x in numParents :: numParents[x] == Open(pairs, {}, x))
    && (forall x | Kids(pairs, x) != [] :: x in children)
    && (forall x | x in children :: children[x] == Kids(pairs, x))
  }

  function Star(p: Item, kids: seq<Item>): Pairs { seq(|kids|, i requires 0 <= i < |kids| => (p, kids[i])) }

  lemma {:induction false} StarKids(pairs: Pairs, p: Item, kids: seq<Item>, x: Item)
    ensures Kids(pairs + Star(p, kids), x) == Kids(pairs, x) + if x == p then kids else []
  {
    if kids == [] {
      assert pairs + Star(p, kids) == pairs;
    } else {
      var n := |kids| - 1;
      StarKids(pairs, p, kids[..n], x);
      var q := pairs + Star(p, kids);
      assert q[..|q| - 1] == pairs + Star(p, kids[..n]);
      assert kids == kids[..n] + [kids[n]];
    }
  }

  lemma AddStar(children: Graph, p: Item, rest: Pairs)
    requires p in children && forall x :: Kids(rest, x) == if x in children - {p} then (children - {p})[x] else []
    ensures forall x :: Kids(rest + Star(p, children[p]), x) == if x in children then children[x] else []
  {
    forall x { StarKids(rest, p, children[p], x); }
    hide Kids;
    hide Star;
  }

  /** Every dictionary of children is that of some pairs. */
  lemma {:induction false} PairsOf(children: Graph) returns (pairs: Pairs)
    ensures forall x :: Kids(pairs, x) == if x in children then children[x] else []
    decreases |children|
  {
    pairs := [];
    if p :| p in children {
      var rest := PairsOf(children - {p});
      AddStar(children, p, rest);
      pairs := rest + Star(p, children[p]);
    }
  }

  /** Drop a parent, and count down its children. */
  method FinishParent(ghost extra: set<Item>, ghost pairs: Pairs, ghost flat: set<Item>, parent: Item,
                      numParents0: map<Item, int>, children0: Graph) returns (numParents: map<Item, int>, children: Graph)
    requires parent !in flat && parent in numParents0 && forall x | x in flat + {parent} :: Open(pairs, flat, x) == 0
    requires Counts(extra, pairs, flat, [], flat + {parent}, numParents0 - {parent}) && ChildrenLeft(pairs, flat, children0)
    requires Kids(pairs, parent) != [] ==> parent in children0
    requires parent in children0 ==> children0[parent] == Kids(pairs, parent)
    ensures Counts(extra, pairs, flat + {parent}, [], flat + {parent}, numParents)
    ensures ChildrenLeft(pairs, flat + {parent}, children)
    ensures numParents.Keys < numParents0.Keys && children == children0 - {parent}
  {
    hide *;
    numParents, children := numParents0 - {parent}, children0;
    if parent in children {
      var kids := children[parent];
      assert kids[..0] == [];
      for j := 0 to |kids|
        invariant Counts(extra, pairs, flat, kids[..j], flat + {parent}, numParents)
        invariant numParents.Keys < numParents0.Keys
      {
        var child := kids[j];
        CountKid(extra, pairs, flat, parent, j, numParents);
        numParents := numParents[child := numParents[child] - 1];
      }
      assert kids[..|kids|] == kids;
    }
    KidsCounted(extra, pairs, flat, parent, numParents, children);
    children := children - {parent};
  }

  /** Yield level after level: level `k` holds exactly the items whose longest chain of parents has `k` steps. Fails, after
      all these levels, when items are left over, which is exactly when there is a cycle. */
  method TopsortLevelsCore(ghost pairs: Pairs, numParents0: map<Item, int>, children0: Graph) returns (r: Result<seq<seq<Item>>>)
    requires Consistent(pairs, numParents0, children0)
    ensures forall x, k: nat :: (k < |r.value| && x in r.value[k]) <==> x in numParents0 && Depth(pairs, x, k)
    ensures Distinct(Concat(r.value)) && Ordered(pairs, Concat(r.value))
    ensures r.Sorted? ==> forall x :: x in Concat(r.value) <==> x in numParents0
    ensures r.CycleError? <==> exists c :: Cycle(GraphOf(pairs), c)
    ensures r.CycleError? ==> Stuck(numParents0.Keys, pairs, Concat(r.value), r.numParents)
    ensures r.CycleError? ==> Remaining(children0, Concat(r.value), r.children)
  {
    hide *;
    ghost var extra := numParents0.Keys;
    var numParents, children := numParents0, children0;
    assert forall x :: Known(extra, pairs, x) <==> x in numParents0 by { KnownKeys(pairs, numParents, children); }
    var levels: seq<seq<Item>> := [];
    ghost var before, flat: set<Item> := {}, {};
    StartLevels(pairs, numParents, children);
    while true
      invariant Leveling(extra, pairs, levels, before, flat)
      invariant Counts(extra, pairs, flat, [], flat, numParents) && ChildrenLeft(pairs, flat, children)
      invariant children == children0 - flat
      decreases numParents.Keys
    {
      var levelParents := WithoutParent(numParents);
      LevelItems(extra, pairs, flat, numParents, levelParents);
      if levelParents == [] {
        break;
      }
      ghost var base, keys := flat, numParents.Keys;
      for i := 0 to |levelParents|
        invariant forall x :: x in flat <==> x in base || x in levelParents[..i]
        invariant Counts(extra, pairs, flat, [], flat, numParents) && ChildrenLeft(pairs, flat, children)
        invariant children == children0 - flat
        invariant if i == 0 then numParents.Keys == keys else numParents.Keys < keys
      {
        var levelParent := levelParents[i];
        LevelItem(extra, pairs, levels, before, base, levelParents, i, flat, numParents, children);
        numParents, children := FinishParent(extra, pairs, flat, levelParent, numParents, children);
        flat := flat + {levelParent};
        assert levelParents[..i + 1] == levelParents[..i] + [levelParent];
      }
      assert levelParents[..|levelParents|] == levelParents;
      AddLevel(extra, pairs, levels, before, base, levelParents, flat);
      levels, before := levels + [levelParents], base;
    }
    Leveled(extra, pairs, levels, before, flat, numParents);
    LevelsKnown(extra, pairs, levels);
    ChildrenRemain(children0, flat, Concat(levels));
    if numParents != map[] {
      ghost var c := LeftOver(extra, pairs, flat, numParents);
      LeftIsStuck(extra, pairs, flat, numParents, Concat(levels));
      return CycleError(levels, numParents, children);
    }
    AllLeveled(extra, pairs, levels, before, flat);
    return Sorted(levels);
  }

  lemma SameStuck(pairs: Pairs, extra: set<Item>, sorted: seq<Item>, numParents: map<Item, int>)
    requires Stuck(extra, pairs, sorted, numParents) && forall x :: x in extra <==> Mentioned(pairs, x)
    ensures Stuck({}, pairs, sorted, numParents)
  {
  }

  /** Level `k` holds exactly the items whose longest chain of parents has `k` steps; the levels in sequence
      are a topological order of all items; fails iff there is a cycle. */
  method TopsortLevels(pairs: Pairs) returns (r: Result<seq<seq<Item>>>)
    ensures forall x, k: nat :: (k < |r.value| && x in r.value[k]) <==> Mentioned(pairs, x) && Depth(pairs, x, k)
    ensures Distinct(Concat(r.value)) && Ordered(pairs, Concat(r.value))
    ensures r.Sorted? ==> forall x :: x in Concat(r.value) <==> Mentioned(pairs, x)
    ensures r.CycleError? <==> exists c :: Cycle(GraphOf(pairs), c)
    ensures r.CycleError? ==> Stuck({}, pairs, Concat(r.value), r.numParents)
    ensures r.CycleError? ==> Remaining(GraphOf(pairs), Concat(r.value), r.children)
  {
    hide *;
    var numParents, children := CountParents(pairs);
    CountedIsConsistent(pairs, numParents, children);
    CountedGraph(pairs, numParents, children);
    r := TopsortLevelsCore(pairs, numParents, children);
    if r.CycleError? { SameStuck(pairs, numParents.Keys, Concat(r.value), r.numParents); }
  }
}
