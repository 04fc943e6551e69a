/** Flow files: the traffic generator that writes them, and what is read of their first line. */
module Flows {

  datatype Flow = Flow(src: int, dst: int, size: int, t: int)

  /** Start times never decrease. */
  predicate InOrder(flows: seq<Flow>) { forall i, j | 0 <= i < j < |flows| :: flows[i].t <= flows[j].t }

  // ---- the generator ---------------------------------------------------------------------------

  /** The next arrival of a host. */
  datatype Arrival = Arrival(t: int, src: int) {
    predicate Before(o: Arrival) { t < o.t || (t == o.t && src <= o.src) }
  }

  /** What one round of the loop draws: the time to the next arrival, destinations until one differs from the source,
      and a size. */
  datatype Draw = Draw(inter: nat, dsts: seq<int>, size: int)

  /** A priority queue, least arrival first. */
  predicate Ordered(heap: seq<Arrival>) { forall i, j | 0 <= i < j < |heap| :: heap[i].Before(heap[j]) }

  function Insert(heap: seq<Arrival>, a: Arrival): seq<Arrival> {
    if heap == [] then [a]
    else if a.Before(heap[0]) then [a] + heap
    else [heap[0]] + Insert(heap[1..], a)
  }

  predicate OnePerHost(heap: seq<Arrival>) { forall i, j | 0 <= i < j < |heap| :: heap[i].src != heap[j].src }

  lemma {:induction false} InsertMembers(heap: seq<Arrival>, a: Arrival, x: Arrival)
    ensures x in Insert(heap, a) <==> x in heap || x == a
  {
    if heap != [] && !a.Before(heap[0]) {
      assert heap == [heap[0]] + heap[1..];
      InsertMembers(heap[1..], a, x);
    }
  }

  lemma {:induction false} InsertOrdered(heap: seq<Arrival>, a: Arrival)
    requires Ordered(heap)
    ensures Ordered(Insert(heap, a))
  {
    if heap != [] && !a.Before(heap[0]) {
      var rest := Insert(heap[1..], a);
      InsertOrdered(heap[1..], a);
      forall k | 0 <= k < |rest| ensures heap[0].Before(rest[k]) {
        InsertMembers(heap[1..], a, rest[k]);
      }
    }
  }

  lemma {:induction false} InsertOnePerHost(heap: seq<Arrival>, a: Arrival)
    requires OnePerHost(heap) && forall x | x in heap :: x.src != a.src
    ensures OnePerHost(Insert(heap, a))
  {
    if heap != [] && !a.Before(heap[0]) {
      var rest := Insert(heap[1..], a);
      InsertOnePerHost(heap[1..], a);
      forall k | 0 <= k < |rest| ensures heap[0].src != rest[k].src {
        InsertMembers(heap[1..], a, rest[k]);
      }
    }
  }

  /** `after` is the queue with one more arrival. */
  ghost predicate Inserted(heap: seq<Arrival>, a: Arrival, after: seq<Arrival>) {
    && |after| == |heap| + 1 && Ordered(after) && OnePerHost(after)
    && forall x :: x in after <==> x in heap || x == a
  }

  method Push(heap: seq<Arrival>, a: Arrival) returns (after: seq<Arrival>)
    requires Ordered(heap) && OnePerHost(heap) && forall x | x in heap :: x.src != a.src
    ensures Inserted(heap, a, after)
  {
    after := Insert(heap, a);
    InsertOrdered(heap, a);
    InsertOnePerHost(heap, a);
    InsertLength(heap, a);
    hide *;
    forall x ensures x in after <==> x in heap || x == a {
      InsertMembers(heap, a, x);
    }
  }

  lemma {:induction false} InsertLength(heap: seq<Arrival>, a: Arrival)
    ensures |Insert(heap, a)| == |heap| + 1
  {
    if heap != [] { InsertLength(heap[1..], a); }
  }

  /** The next arrival of `src` once `flows` have been written with the gaps after them: its first one, or the last
      written one and its gap. */
  function NextArrival(first: seq<int>, flows: seq<Flow>, gaps: seq<nat>, src: int): int
    requires |flows| == |gaps| && 0 <= src < |first|
  {
    if flows == [] then first[src]
    else if flows[|flows| - 1].src == src then flows[|flows| - 1].t + gaps[|flows| - 1]
    else NextArrival(first, flows[..|flows| - 1], gaps[..|flows| - 1], src)
  }

  /** Every written flow is the next arrival of its source, and leaves time for one more within the horizon. */
  ghost predicate Renewal(first: seq<int>, horizon: int, flows: seq<Flow>, gaps: seq<nat>) {
    && |flows| == |gaps|
    && forall i | 0 <= i < |flows| ::
         && 0 <= flows[i].src < |first| && 0 <= flows[i].dst < |first| && flows[i].dst != flows[i].src && flows[i].size >= 1
         && flows[i].t == NextArrival(first, flows[..i], gaps[..i], flows[i].src)
         && flows[i].t + gaps[i] <= horizon
  }

  /** The first flow of a host starts at its first arrival, and every other one as long after the flow before as the gap
      drawn with that one says. */
  ghost predicate Spaced(first: seq<int>, flows: seq<Flow>, gaps: seq<nat>, j: nat)
    requires j < |flows| == |gaps| && 0 <= flows[j].src < |first|
  {
    && ((forall i | 0 <= i < j :: flows[i].src != flows[j].src) ==> flows[j].t == first[flows[j].src])
    && forall i | 0 <= i < j && flows[i].src == flows[j].src && (forall k | i < k < j :: flows[k].src != flows[j].src) ::
         flows[j].t == flows[i].t + gaps[i]
  }

  lemma RenewalSpaces(first: seq<int>, horizon: int, flows: seq<Flow>, gaps: seq<nat>, j: nat)
    requires Renewal(first, horizon, flows, gaps) && j < |flows|
    ensures Spaced(first, flows, gaps, j)
  {
    var src := flows[j].src;
    assert flows[j].t == NextArrival(first, flows[..j], gaps[..j], src);
    forall i | 0 <= i < j && flows[i].src == src && (forall k | i < k < j :: flows[k].src != src)
      ensures flows[j].t == flows[i].t + gaps[i]
    {
      NextAfter(first, flows, gaps, src, i, j);
    }
    if forall i | 0 <= i < j :: flows[i].src != src { NextIsFirst(first, flows, gaps, src, j); }
  }

  lemma {:induction false} NextAfter(first: seq<int>, flows: seq<Flow>, gaps: seq<nat>, src: int, i: nat, j: nat)
    requires |flows| == |gaps| && 0 <= src < |first| && i < j <= |flows| && flows[i].src == src
    requires forall k | i < k < j :: flows[k].src != src
    ensures NextArrival(first, flows[..j], gaps[..j], src) == flows[i].t + gaps[i]
    decreases j
  {
    if i < j - 1 {
      assert flows[..j][..j - 1] == flows[..j - 1] && gaps[..j][..j - 1] == gaps[..j - 1];
      NextAfter(first, flows, gaps, src, i, j - 1);
    }
  }

  lemma {:induction false} NextIsFirst(first: seq<int>, flows: seq<Flow>, gaps: seq<nat>, src: int, j: nat)
    requires |flows| == |gaps| && 0 <= src < |first| && j <= |flows| && forall i | 0 <= i < j :: flows[i].src != src
    ensures NextArrival(first, flows[..j], gaps[..j], src) == first[src]
    decreases j
  {
    if j > 0 {
      assert flows[..j][..j - 1] == flows[..j - 1] && gaps[..j][..j - 1] == gaps[..j - 1];
      NextIsFirst(first, flows, gaps, src, j - 1);
    }
  }

  /** The queue holds the next arrivals of the hosts still active. */
  ghost predicate Pending(first: seq<int>, flows: seq<Flow>, gaps: seq<nat>, heap: seq<Arrival>) {
    |flows| == |gaps| && forall a | a in heap :: 0 <= a.src < |first| && a.t == NextArrival(first, flows, gaps, a.src)
  }

  ghost predicate NotBefore(flows: seq<Flow>, heap: seq<Arrival>) {
    forall f, a | f in flows && a in heap :: f.t < a.t || (f.t == a.t && f.src <= a.src)
  }

  predicate ValidDraw(nhost: nat, d: Draw) { forall x | x in d.dsts :: 0 <= x < nhost }

  predicate ValidDraws(nhost: nat, draws: seq<Draw>) {
    forall i | 0 <= i < |draws| :: ValidDraw(nhost, draws[i])
  }

  /** Flows that start at the same time are in the order of their sources. */
  predicate InHostOrder(flows: seq<Flow>) {
    forall i, j | 0 <= i < j < |flows| :: flows[i].t < flows[j].t || (flows[i].t == flows[j].t && flows[i].src <= flows[j].src)
  }

  /** What the loop keeps. */
  ghost predicate Queued(first: seq<int>, flows: seq<Flow>, gaps: seq<nat>, heap: seq<Arrival>) {
    Pending(first, flows, gaps, heap) && NotBefore(flows, heap) && OnePerHost(heap) && Ordered(heap)
  }

  lemma WriteFlow(first: seq<int>, horizon: int, flows: seq<Flow>, gaps: seq<nat>, heap: seq<Arrival>, f: Flow, gap: nat)
    requires Renewal(first, horizon, flows, gaps) && Queued(first, flows, gaps, heap) && InHostOrder(flows)
    requires heap != [] && heap[0] == Arrival(f.t, f.src)
    requires 0 <= f.dst < |first| && f.dst != f.src && f.size >= 1 && f.t + gap <= horizon
    ensures Renewal(first, horizon, flows + [f], gaps + [gap]) && InHostOrder(flows + [f])
  {
    hide NextArrival;
    assert heap[0] in heap;
    var fs, gs := flows + [f], gaps + [gap];
    assert fs[..|flows|] == flows && gs[..|flows|] == gaps;
    assert forall i | 0 <= i < |flows| :: fs[..i] == flows[..i] && gs[..i] == gaps[..i];
  }

  lemma Requeue(first: seq<int>, flows: seq<Flow>, gaps: seq<nat>, heap: seq<Arrival>, after: seq<Arrival>, f: Flow, gap: nat)
    requires Queued(first, flows, gaps, heap) && heap != [] && heap[0] == Arrival(f.t, f.src)
    requires Inserted(heap[1..], Arrival(f.t + gap, f.src), after)
    ensures Queued(first, flows + [f], gaps + [gap], after)
  {
    var next := Arrival(f.t + gap, f.src);
    assert heap[0] in heap;
    var fs, gs := flows + [f], gaps + [gap];
    assert fs[..|flows|] == flows && gs[..|flows|] == gaps;
    forall x | x in after ensures x == next || (x in heap && x.src != f.src && (f.t < x.t || (f.t == x.t && f.src <= x.src))) {
      if x in heap[1..] { QueueTail(heap, x); }
    }
    hide Ordered;
    hide OnePerHost;
  }

  lemma QueueTail(heap: seq<Arrival>, x: Arrival)
    requires Ordered(heap) && OnePerHost(heap) && heap != [] && x in heap[1..]
    ensures x in heap && x.src != heap[0].src && (heap[0].t < x.t || (heap[0].t == x.t && heap[0].src <= x.src))
  {
    var k :| 0 <= k < |heap[1..]| && heap[1..][k] == x;
    assert heap[0].Before(heap[k + 1]);
  }

  /** A host waits in the queue, or left it when a gap was drawn that leads beyond the horizon. */
  ghost predicate WaitsOrLeft(first: seq<int>, horizon: int, flows: seq<Flow>, gaps: seq<nat>, heap: seq<Arrival>,
                              used: seq<nat>, draws: seq<Draw>, rounds: nat, src: int)
    requires |flows| == |gaps| && 0 <= src < |first|
  {
    (exists a :: a in heap && a.src == src) || Left(first, horizon, flows, gaps, used, draws, rounds, src)
  }

  /** A draw that no flow has used led beyond the horizon. */
  ghost predicate Left(first: seq<int>, horizon: int, flows: seq<Flow>, gaps: seq<nat>, used: seq<nat>, draws: seq<Draw>, rounds: nat,
                       src: int)
    requires |flows| == |gaps| && 0 <= src < |first|
  {
    exists k: nat :: k < rounds && k < |draws| && k !in used && NextArrival(first, flows, gaps, src) + draws[k].inter > horizon
  }

  ghost predicate NoneLost(first: seq<int>, horizon: int, flows: seq<Flow>, gaps: seq<nat>, heap: seq<Arrival>,
                           used: seq<nat>, draws: seq<Draw>, rounds: nat) {
    |flows| == |gaps| && forall src | 0 <= src < |first| :: WaitsOrLeft(first, horizon, flows, gaps, heap, used, draws, rounds, src)
  }

  lemma WriteKeepsHosts(first: seq<int>, horizon: int, flows: seq<Flow>, gaps: seq<nat>, heap: seq<Arrival>,
                        after: seq<Arrival>, used: seq<nat>, draws: seq<Draw>, rounds: nat, f: Flow, gap: nat)
    requires NoneLost(first, horizon, flows, gaps, heap, used, draws, rounds) && heap != [] && heap[0].src == f.src
    requires Inserted(heap[1..], Arrival(f.t + gap, f.src), after)
    ensures NoneLost(first, horizon, flows + [f], gaps + [gap], after, used + [rounds], draws, rounds + 1)
  {
    var fs, gs, us, next := flows + [f], gaps + [gap], used + [rounds], rounds + 1;
    assert fs[..|flows|] == flows && gs[..|flows|] == gaps;
    forall src | 0 <= src < |first| ensures WaitsOrLeft(first, horizon, fs, gs, after, us, draws, next, src) {
      assert WaitsOrLeft(first, horizon, flows, gaps, heap, used, draws, rounds, src);
      if src == f.src {
        assert Arrival(f.t + gap, f.src) in after;
      } else if a :| a in heap && a.src == src {
        assert heap == [heap[0]] + heap[1..];
        assert a in after;
      } else {
        assert NextArrival(first, fs, gs, src) == NextArrival(first, flows, gaps, src);
      }
    }
  }

  lemma DropKeepsHosts(first: seq<int>, horizon: int, flows: seq<Flow>, gaps: seq<nat>, heap: seq<Arrival>,
                       used: seq<nat>, draws: seq<Draw>, rounds: nat)
    requires NoneLost(first, horizon, flows, gaps, heap, used, draws, rounds) && Queued(first, flows, gaps, heap)
    requires heap != [] && rounds < |draws| && rounds !in used && heap[0].t + draws[rounds].inter > horizon
    ensures NoneLost(first, horizon, flows, gaps, heap[1..], used, draws, rounds + 1)
  {
    assert heap[0] in heap;
    assert NextArrival(first, flows, gaps, heap[0].src) + draws[rounds].inter > horizon;
    var next := rounds + 1;
    assert Left(first, horizon, flows, gaps, used, draws, next, heap[0].src);
    hide Queued;
    hide NextArrival;
    forall src | 0 <= src < |first| && src != heap[0].src ensures WaitsOrLeft(first, horizon, flows, gaps, heap[1..], used, draws, next, src) {
      assert WaitsOrLeft(first, horizon, flows, gaps, heap, used, draws, rounds, src);
      if a :| a in heap && a.src == src {
        assert heap == [heap[0]] + heap[1..];
        assert a in heap[1..];
      }
    }
  }

  lemma Drop(first: seq<int>, flows: seq<Flow>, gaps: seq<nat>, heap: seq<Arrival>)
    requires Queued(first, flows, gaps, heap) && heap != []
    ensures Queued(first, flows, gaps, heap[1..]) && 0 <= heap[0].src < |first|
  {
  }

  method Heapify(first: seq<int>) returns (heap: seq<Arrival>)
    ensures Queued(first, [], [], heap) && |heap| == |first|
    ensures forall src | 0 <= src < |first| :: Arrival(first[src], src) in heap
  {
    heap := [];
    for i := 0 to |first|
      invariant Ordered(heap) && OnePerHost(heap) && |heap| == i
      invariant forall a | a in heap :: 0 <= a.src < i && a.t == first[a.src]
      invariant forall src | 0 <= src < i :: Arrival(first[src], src) in heap
    {
      heap := Push(heap, Arrival(first[i], i));
    }
  }

  lemma NoneLostYet(first: seq<int>, horizon: int, heap: seq<Arrival>, draws: seq<Draw>)
    requires forall src | 0 <= src < |first| :: Arrival(first[src], src) in heap
    ensures NoneLost(first, horizon, [], [], heap, [], draws, 0)
  {
    forall src | 0 <= src < |first| ensures WaitsOrLeft(first, horizon, [], [], heap, [], draws, 0, src) {
      assert Arrival(first[src], src).src == src;
    }
  }

  ghost predicate Kept(first: seq<int>, horizon: int, flows: seq<Flow>, gaps: seq<nat>, heap: seq<Arrival>,
                       used: seq<nat>, draws: seq<Draw>, rounds: nat) {
    && InHostOrder(flows) && Renewal(first, horizon, flows, gaps)
    && Queued(first, flows, gaps, heap) && NoneLost(first, horizon, flows, gaps, heap, used, draws, rounds)
  }

  predicate IsFirstOther(dsts: seq<int>, src: int, dst: int) {
    dst != src && exists k | 0 <= k < |dsts| :: dsts[k] == dst && forall j | 0 <= j < k :: dsts[j] == src
  }

  /** The flow and the gap after it are what the draw gives its source. */
  predicate FromDraw(f: Flow, gap: nat, d: Draw) {
    gap == d.inter && f.size == (if d.size <= 0 then 1 else d.size) && IsFirstOther(d.dsts, f.src, f.dst)
  }

  /** The flows use draws `used` in order, none twice. */
  ghost predicate Drawn(flows: seq<Flow>, gaps: seq<nat>, used: seq<nat>, draws: seq<Draw>, rounds: nat) {
    && |flows| == |gaps| == |used| && rounds <= |draws|
    && (forall i, j | 0 <= i < j < |used| :: used[i] < used[j])
    && (forall i | 0 <= i < |used| :: used[i] < rounds && FromDraw(flows[i], gaps[i], draws[used[i]]))
  }

  lemma DrawnHosts(nhost: nat, draws: seq<Draw>, n: nat, x: int)
    requires ValidDraws(nhost, draws) && n < |draws| && x in draws[n].dsts
    ensures 0 <= x < nhost
  {
  }

  lemma SkipDraw(flows: seq<Flow>, gaps: seq<nat>, used: seq<nat>, draws: seq<Draw>, rounds: nat)
    requires Drawn(flows, gaps, used, draws, rounds) && rounds < |draws|
    ensures Drawn(flows, gaps, used, draws, rounds + 1)
  {
  }

  lemma UseDraw(flows: seq<Flow>, gaps: seq<nat>, used: seq<nat>, draws: seq<Draw>, rounds: nat, f: Flow)
    requires Drawn(flows, gaps, used, draws, rounds) && rounds < |draws|
    requires f.size == (if draws[rounds].size <= 0 then 1 else draws[rounds].size) && IsFirstOther(draws[rounds].dsts, f.src, f.dst)
    ensures Drawn(flows + [f], gaps + [draws[rounds].inter], used + [rounds], draws, rounds + 1)
    ensures f.dst in draws[rounds].dsts && f.dst != f.src
  {
  }

  ghost predicate Looping(first: seq<int>, horizon: int, flows: seq<Flow>, gaps: seq<nat>, used: seq<nat>,
                          heap: seq<Arrival>, draws: seq<Draw>, rounds: nat)
  {
    && Kept(first, horizon, flows, gaps, heap, used, draws, rounds) && Drawn(flows, gaps, used, draws, rounds)
    && rounds == |flows| + |first| - |heap| && ValidDraws(|first|, draws)
  }

  lemma LoopingParts(first: seq<int>, horizon: int, flows: seq<Flow>, gaps: seq<nat>, used: seq<nat>,
                     heap: seq<Arrival>, draws: seq<Draw>, rounds: nat)
    requires Looping(first, horizon, flows, gaps, used, heap, draws, rounds)
    ensures Kept(first, horizon, flows, gaps, heap, used, draws, rounds) && Drawn(flows, gaps, used, draws, rounds)
    ensures rounds == |flows| + |first| - |heap| && rounds <= |draws|
  {
  }

  lemma WriteRound(first: seq<int>, horizon: int, flows: seq<Flow>, gaps: seq<nat>, used: seq<nat>, heap: seq<Arrival>,
                   after: seq<Arrival>, draws: seq<Draw>, rounds: nat, f: Flow)
    requires Looping(first, horizon, flows, gaps, used, heap, draws, rounds) && rounds < |draws|
    requires heap != [] && heap[0] == Arrival(f.t, f.src) && f.t + draws[rounds].inter <= horizon
    requires f.size == (if draws[rounds].size <= 0 then 1 else draws[rounds].size) && IsFirstOther(draws[rounds].dsts, f.src, f.dst)
    requires Inserted(heap[1..], Arrival(f.t + draws[rounds].inter, f.src), after)
    ensures Looping(first, horizon, flows + [f], gaps + [draws[rounds].inter], used + [rounds], after, draws, rounds + 1)
  {
    var gap := draws[rounds].inter;
    UseDraw(flows, gaps, used, draws, rounds, f);
    DrawnHosts(|first|, draws, rounds, f.dst);
    hide ValidDraws;
    hide Drawn;
    hide Renewal;
    hide Queued;
    hide NoneLost;
    hide InHostOrder;
    WriteFlow(first, horizon, flows, gaps, heap, f, gap);
    Requeue(first, flows, gaps, heap, after, f, gap);
    WriteKeepsHosts(first, horizon, flows, gaps, heap, after, used, draws, rounds, f, gap);
  }

  /** The queue without its head is still in order, so that an arrival of the same host can be put back. */
  lemma Rest(first: seq<int>, horizon: int, flows: seq<Flow>, gaps: seq<nat>, used: seq<nat>, heap: seq<Arrival>,
             draws: seq<Draw>, rounds: nat)
    requires Looping(first, horizon, flows, gaps, used, heap, draws, rounds) && heap != []
    ensures Ordered(heap[1..]) && OnePerHost(heap[1..]) && forall x | x in heap[1..] :: x.src != heap[0].src
  {
  }

  lemma DropRound(first: seq<int>, horizon: int, flows: seq<Flow>, gaps: seq<nat>, used: seq<nat>, heap: seq<Arrival>,
                  draws: seq<Draw>, rounds: nat)
    requires Looping(first, horizon, flows, gaps, used, heap, draws, rounds) && rounds < |draws|
    requires heap != [] && heap[0].t + draws[rounds].inter > horizon
    ensures Looping(first, horizon, flows, gaps, used, heap[1..], draws, rounds + 1)
  {
    assert rounds !in used;
    hide ValidDraws;
    hide Drawn;
    hide Renewal;
    hide Queued;
    hide NoneLost;
    hide InHostOrder;
    SkipDraw(flows, gaps, used, draws, rounds);
    DropKeepsHosts(first, horizon, flows, gaps, heap, used, draws, rounds);
    Drop(first, flows, gaps, heap);
  }

  /** The main loop, fed with a list of draws: it stops when no host is active, or with the draws. Once no host is
      active, the gap drawn after the first unwritten arrival of every host leads beyond the horizon: that arrival is
      lost even if it lies within. */
  method GenerateFlows(first: seq<int>, horizon: int, draws: seq<Draw>)
    returns (flows: seq<Flow>, ghost gaps: seq<nat>, ghost used: seq<nat>, rounds: nat, complete: bool)
    requires ValidDraws(|first|, draws)
    ensures InOrder(flows) && InHostOrder(flows)
    ensures Renewal(first, horizon, flows, gaps) && forall j: nat | j < |flows| :: Spaced(first, flows, gaps, j)
    ensures Drawn(flows, gaps, used, draws, rounds)
    ensures rounds <= |draws|
    ensures complete ==> rounds == |flows| + |first|
    ensures complete ==> forall src | 0 <= src < |first| :: Left(first, horizon, flows, gaps, used, draws, rounds, src)
    ensures !complete ==> rounds == |draws| || OneValued(draws[rounds].dsts)
  {
    var heap := Heapify(first);
    NoneLostYet(first, horizon, heap, draws);
    flows, gaps, used, rounds, heap := Rounds(first, horizon, draws, heap);
    complete := |heap| == 0;
    if complete { AllLeft(first, horizon, flows, gaps, used, draws, rounds); }
    forall j: nat | j < |flows| ensures Spaced(first, flows, gaps, j) { RenewalSpaces(first, horizon, flows, gaps, j); }
  }

  method Rounds(first: seq<int>, horizon: int, draws: seq<Draw>, start: seq<Arrival>)
    returns (flows: seq<Flow>, ghost gaps: seq<nat>, ghost used: seq<nat>, rounds: nat, heap: seq<Arrival>)
    requires ValidDraws(|first|, draws) && Kept(first, horizon, [], [], start, [], draws, 0) && |start| == |first|
    ensures Kept(first, horizon, flows, gaps, heap, used, draws, rounds) && Drawn(flows, gaps, used, draws, rounds)
    ensures rounds <= |draws| && rounds == |flows| + |first| - |heap|
    ensures heap != [] ==> rounds == |draws| || OneValued(draws[rounds].dsts)
  {
    flows, gaps, used, rounds, heap := [], [], [], 0, start;
    assert Looping(first, horizon, flows, gaps, used, heap, draws, rounds);
    hide *;
    while |heap| > 0 && rounds < |draws|
      invariant Looping(first, horizon, flows, gaps, used, heap, draws, rounds)
      decreases |draws| - rounds
    {
      var found, dst := FirstOther(draws[rounds].dsts, heap[0].src);
      if !found {
        LoopingParts(first, horizon, flows, gaps, used, heap, draws, rounds);
        return;
      }
      flows, gaps, used, heap := Round(first, horizon, draws, flows, gaps, used, rounds, heap, dst);
      rounds := rounds + 1;
    }
    LoopingParts(first, horizon, flows, gaps, used, heap, draws, rounds);
  }

  /** A host is dropped, or writes a flow to `dst` and is put back. */
  method Round(first: seq<int>, horizon: int, draws: seq<Draw>, flows0: seq<Flow>, ghost gaps0: seq<nat>, ghost used0: seq<nat>,
               rounds: nat, heap0: seq<Arrival>, dst: int)
    returns (flows: seq<Flow>, ghost gaps: seq<nat>, ghost used: seq<nat>, heap: seq<Arrival>)
    requires Looping(first, horizon, flows0, gaps0, used0, heap0, draws, rounds) && heap0 != [] && rounds < |draws|
    requires IsFirstOther(draws[rounds].dsts, heap0[0].src, dst)
    ensures Looping(first, horizon, flows, gaps, used, heap, draws, rounds + 1)
  {
    hide *;
    var t, src, inter := heap0[0].t, heap0[0].src, draws[rounds].inter;
    if t + inter > horizon {
      DropRound(first, horizon, flows0, gaps0, used0, heap0, draws, rounds);
      return flows0, gaps0, used0, heap0[1..];
    }
    var size := if draws[rounds].size <= 0 then 1 else draws[rounds].size;
    Rest(first, horizon, flows0, gaps0, used0, heap0, draws, rounds);
    heap := Push(heap0[1..], Arrival(t + inter, src));
    WriteRound(first, horizon, flows0, gaps0, used0, heap0, heap, draws, rounds, Flow(src, dst, size, t));
    flows, gaps, used := flows0 + [Flow(src, dst, size, t)], gaps0 + [inter], used0 + [rounds];
  }

  predicate OneValued(s: seq<int>) { forall i, j | 0 <= i < j < |s| :: s[i] == s[j] }

  predicate HasOther(s: seq<int>, x: int) { exists k | 0 <= k < |s| :: s[k] != x }

  lemma AllSame(s: seq<int>, x: int)
    requires !HasOther(s, x)
    ensures OneValued(s)
  {
  }

  lemma AllLeft(first: seq<int>, horizon: int, flows: seq<Flow>, gaps: seq<nat>, used: seq<nat>, draws: seq<Draw>, rounds: nat)
    requires NoneLost(first, horizon, flows, gaps, [], used, draws, rounds)
    ensures forall src | 0 <= src < |first| :: Left(first, horizon, flows, gaps, used, draws, rounds, src)
  {
    forall src | 0 <= src < |first| ensures Left(first, horizon, flows, gaps, used, draws, rounds, src) {
      assert WaitsOrLeft(first, horizon, flows, gaps, [], used, draws, rounds, src);
    }
  }

  /** Draw destinations until one is not the source. */
  method FirstOther(dsts: seq<int>, src: int) returns (found: bool, dst: int)
    ensures found <==> HasOther(dsts, src)
    ensures found ==> IsFirstOther(dsts, src, dst) && dst in dsts && dst != src
    ensures !found ==> OneValued(dsts)
  {
    dst := src;
    for i := 0 to |dsts|
      invariant forall k | 0 <= k < i :: dsts[k] == src
    {
      if dsts[i] != src {
        return true, dsts[i];
      }
    }
    AllSame(dsts, src);
    found := false;
  }

  // ---- termination ---------------------------------------------------------------------------------

  /** The time left to the first `n` hosts before the horizon. */
  function Slack(first: seq<int>, horizon: int, flows: seq<Flow>, gaps: seq<nat>, n: nat): nat
    requires |flows| == |gaps| && n <= |first|
  {
    if n == 0 then 0
    else
      var next := NextArrival(first, flows, gaps, n - 1);
      Slack(first, horizon, flows, gaps, n - 1) + if next <= horizon then horizon - next else 0
  }

  lemma {:induction false} SlackStep(first: seq<int>, horizon: int, flows: seq<Flow>, gaps: seq<nat>, n: nat)
    requires |flows| == |gaps| > 0 && n <= |first|
    requires var f := flows[|flows| - 1];
             && 0 <= f.src < |first| && f.t + gaps[|gaps| - 1] <= horizon
             && f.t == NextArrival(first, flows[..|flows| - 1], gaps[..|flows| - 1], f.src)
    ensures Slack(first, horizon, flows, gaps, n) + (if flows[|flows| - 1].src < n then gaps[|gaps| - 1] else 0)
            == Slack(first, horizon, flows[..|flows| - 1], gaps[..|flows| - 1], n)
  {
    if n > 0 { SlackStep(first, horizon, flows, gaps, n - 1); }
  }

  /** If no gap is zero only so many flows fit before the horizon: together with one round for every flow and every
      host this bounds the rounds of the loop. */
  lemma {:induction false} FlowBound(first: seq<int>, horizon: int, flows: seq<Flow>, gaps: seq<nat>)
    requires Renewal(first, horizon, flows, gaps) && forall i | 0 <= i < |gaps| :: gaps[i] >= 1
    ensures |flows| + Slack(first, horizon, flows, gaps, |first|) <= Slack(first, horizon, [], [], |first|)
  {
    if flows != [] {
      var n := |flows| - 1;
      assert forall i | 0 <= i < n :: flows[..n][..i] == flows[..i] && gaps[..n][..i] == gaps[..i];
      FlowBound(first, horizon, flows[..n], gaps[..n]);
      SlackStep(first, horizon, flows, gaps, |first|);
    }
  }

  // ---- the first line ----------------------------------------------------------------------------------

  predicate Digit(c: char) { '0' <= c <= '9' }

  function Decimal(n: nat): string {
    (if n < 10 then [] else Decimal(n / 10)) + ['0' + (n % 10) as char]
  }

  lemma {:induction false} DecimalDigits(n: nat)
    ensures |Decimal(n)| > 0 && forall i | 0 <= i < |Decimal(n)| :: Digit(Decimal(n)[i])
  {
    if n >= 10 { DecimalDigits(n / 10); }
  }

  /** What an extraction of a number takes from the start of a text. */
  function LeadingDigits(s: string): (ds: string)
    ensures forall i | 0 <= i < |ds| :: Digit(ds[i])
  {
    if s == [] || !Digit(s[0]) then [] else [s[0]] + LeadingDigits(s[1..])
  }

  /** Writing over the start of a file. */
  function Overwrite(file: string, s: string): string {
    s + if |s| <= |file| then file[|s|..] else []
  }

  /** The generator leaves room for an estimated number of flows in the first line and writes the actual one over it at
      the end; the lines of the flows follow. */
  function FlowFile(estimate: nat, count: nat, lines: string): string {
    Overwrite(Decimal(estimate) + " \n" + lines, Decimal(count))
  }

  /** The file reads as intended: the count, white space up to the end of the line, then the lines. */
  ghost predicate Readable(file: string, count: nat, lines: string) {
    LeadingDigits(file) == Decimal(count) && exists gap :: Blank(gap) && file == Decimal(count) + gap + lines
  }

  predicate Blank(s: string) { s != [] && s[|s| - 1] == '\n' && forall i | 0 <= i < |s| - 1 :: s[i] == ' ' }

  lemma {:induction false} LeadingOf(ds: string, rest: string)
    requires forall i | 0 <= i < |ds| :: Digit(ds[i])
    ensures LeadingDigits(ds + rest) == ds + LeadingDigits(rest)
  {
    if ds == [] {
      assert ds + rest == rest;
    } else {
      assert (ds + rest)[1..] == ds[1..] + rest;
      LeadingOf(ds[1..], rest);
    }
  }

  /** The first line is the number of flows only if this has as many digits as the estimate, or one more: a shorter one
      leaves digits of the estimate behind it, a longer one runs into the first flow. */
  lemma FirstLine(estimate: nat, count: nat, lines: string)
    requires lines != [] && Digit(lines[0])
    ensures Readable(FlowFile(estimate, count, lines), count, lines)
            <==> |Decimal(estimate)| <= |Decimal(count)| <= |Decimal(estimate)| + 1
  {
    var e, c := Decimal(estimate), Decimal(count);
    var file := FlowFile(estimate, count, lines);
    DecimalDigits(estimate);
    DecimalDigits(count);
    hide Decimal;
    hide LeadingDigits;
    hide Readable;
    if |c| == |e| {
      Reads(file, count, " \n", lines);
    } else if |c| == |e| + 1 {
      Reads(file, count, "\n", lines);
    } else if |c| < |e| {
      assert file == c + (e[|c|..] + (" \n" + lines));
      RunsOn(file, count, e[|c|..] + (" \n" + lines), lines);
    } else if |c| == |e| + 2 {
      assert file == c + lines;
      RunsOn(file, count, lines, lines);
    } else {
      assert |file| < |c| + 1 + |lines|;
      TooShort(file, count, lines);
    }
  }

  lemma RunsOn(file: string, count: nat, rest: string, lines: string)
    requires file == Decimal(count) + rest && rest != [] && Digit(rest[0])
    ensures !Readable(file, count, lines)
  {
    DecimalDigits(count);
    LeadingOf(Decimal(count), rest);
  }

  lemma TooShort(file: string, count: nat, lines: string)
    requires |file| < |Decimal(count)| + 1 + |lines|
    ensures !Readable(file, count, lines)
  {
  }

  lemma Reads(file: string, count: nat, gap: string, lines: string)
    requires file == Decimal(count) + gap + lines && Blank(gap)
    ensures Readable(file, count, lines)
  {
    DecimalDigits(count);
    assert file == Decimal(count) + (gap + lines);
    LeadingOf(Decimal(count), gap + lines);
  }

  // ---- the number in the first line ----------------------------------------------------------

  predicate Digits(s: string) { forall i | 0 <= i < |s| :: Digit(s[i]) }

  /** The number that a text of digits stands for. */
  function Number(s: string): nat
    requires Digits(s)
  {
    if s == [] then 0 else Number(s[..|s| - 1]) * 10 + (s[|s| - 1] as int - '0' as int)
  }

  function Power10(k: nat): (p: nat)
    ensures p > 0
  {
    if k == 0 then 1 else Power10(k - 1) * 10
  }

  lemma DecimalEnd(n: nat)
    ensures var s := Decimal(n);
            |s| > 0 && s[..|s| - 1] == (if n < 10 then [] else Decimal(n / 10)) && s[|s| - 1] as int == '0' as int + n % 10
  {
  }

  lemma {:induction false} NumberDecimal(n: nat)
    ensures Digits(Decimal(n)) && Number(Decimal(n)) == n
  {
    DecimalDigits(n);
    DecimalEnd(n);
    assert Number([]) == 0;
    if n >= 10 { NumberDecimal(n / 10); }
    hide Decimal;
  }

  lemma {:induction false} NumberConcat(s: string, r: string)
    requires Digits(s) && Digits(r)
    ensures Digits(s + r) && Number(s + r) == Number(s) * Power10(|r|) + Number(r)
  {
    if r == [] {
      assert s + r == s;
    } else {
      var k := |r| - 1;
      NumberConcat(s, r[..k]);
      assert (s + r)[..|s| + k] == s + r[..k] && (s + r)[|s| + k] == r[k];
      assert Number(s + r) == Number(s + r[..k]) * 10 + (r[k] as int - '0' as int);
      hide Number;
      Tenfold(Number(s), Power10(k), Number(r[..k]));
    }
  }

  lemma Tenfold(a: nat, p: nat, b: nat)
    ensures (a * p + b) * 10 == a * (p * 10) + b * 10
  {
  }

  /** How many digits of the estimate the count does not overwrite. */
  function LeftOver(estimate: nat, count: nat): nat {
    var e, c := |Decimal(estimate)|, |Decimal(count)|;
    if c < e then e - c else 0
  }

  /** The first line begins with the count, followed by the digits of the estimate left over. */
  lemma Header(estimate: nat, count: nat, lines: string)
    requires |Decimal(count)| <= |Decimal(estimate)| + 1
    ensures LeadingDigits(FlowFile(estimate, count, lines)) ==
              Decimal(count) + Decimal(estimate)[|Decimal(estimate)| - LeftOver(estimate, count)..]
  {
    var e, c := Decimal(estimate), Decimal(count);
    var k := LeftOver(estimate, count);
    DecimalDigits(estimate);
    DecimalDigits(count);
    hide Decimal;
    hide LeadingDigits;
    var rest := if |c| <= |e| then " \n" + lines else "\n" + lines;
    assert FlowFile(estimate, count, lines) == (c + e[|e| - k..]) + rest;
    LeadingOf(c + e[|e| - k..], rest);
    NoDigit(rest);
  }

  lemma NoDigit(s: string)
    requires s != [] && !Digit(s[0])
    ensures LeadingDigits(s) == []
  {
  }

  /** The number made of the last `k` digits. */
  function LastDigits(n: nat, k: nat): nat {
    if k == 0 then 0 else LastDigits(n / 10, k - 1) * 10 + n % 10
  }

  lemma {:induction false} NumberOfLast(n: nat, k: nat)
    requires k <= |Decimal(n)|
    ensures Digits(Decimal(n)[|Decimal(n)| - k..]) && Number(Decimal(n)[|Decimal(n)| - k..]) == LastDigits(n, k)
  {
    DecimalDigits(n);
    DecimalEnd(n);
    if k > 0 {
      var s := Decimal(n);
      var r := s[|s| - k..];
      if k > 1 {
        NumberOfLast(n / 10, k - 1);
        assert r[..k - 1] == Decimal(n / 10)[|s| - k..];
      } else {
        assert Number(r[..0]) == 0;
      }
      hide Decimal;
    }
  }

  /** The count, with the last digits of the estimate appended that are left over. */
  function Announced(estimate: nat, count: nat): nat {
    count * Power10(LeftOver(estimate, count)) + LastDigits(estimate, LeftOver(estimate, count))
  }

  /** With no digits left over this is the count, otherwise at least ten times as much. */
  lemma AnnouncedTooMany(estimate: nat, count: nat)
    ensures LeftOver(estimate, count) == 0 ==> Announced(estimate, count) == count
    ensures LeftOver(estimate, count) > 0 ==> Announced(estimate, count) >= 10 * count
  {
    var k := LeftOver(estimate, count);
    if k > 0 { AtLeastTenfold(count, k); }
  }

  /** So this is the number read from the first line. */
  lemma HeaderNumber(estimate: nat, count: nat, lines: string)
    requires |Decimal(count)| <= |Decimal(estimate)| + 1
    ensures Number(LeadingDigits(FlowFile(estimate, count, lines))) == Announced(estimate, count)
  {
    hide Number;
    hide LeadingDigits;
    hide FlowFile;
    hide Decimal;
    hide Power10;
    hide LastDigits;
    Header(estimate, count, lines);
    var k := LeftOver(estimate, count);
    NumberDecimal(count);
    NumberOfLast(estimate, k);
    NumberConcat(Decimal(count), Decimal(estimate)[|Decimal(estimate)| - k..]);
  }

  lemma AtLeastTenfold(count: nat, k: nat)
    requires k > 0
    ensures count * Power10(k) >= 10 * count
  {
  }

  /** How many characters of the flows the count overwrites. */
  function Overrun(estimate: nat, count: nat): nat {
    var e, c := |Decimal(estimate)|, |Decimal(count)|;
    if c > e + 2 then c - e - 2 else 0
  }

  /** The count continued by what is left of the number `src` behind it. */
  function Continued(estimate: nat, count: nat, src: nat): nat
    requires Overrun(estimate, count) <= |Decimal(src)|
  {
    var m := |Decimal(src)| - Overrun(estimate, count);
    count * Power10(m) + LastDigits(src, m)
  }

  lemma OverrunText(estimate: nat, count: nat, src: nat, rest: string)
    requires |Decimal(count)| >= |Decimal(estimate)| + 2 && Overrun(estimate, count) <= |Decimal(src)|
    requires rest != [] && !Digit(rest[0])
    ensures var digits := Decimal(count) + Decimal(src)[Overrun(estimate, count)..];
            var file := FlowFile(estimate, count, Decimal(src) + rest);
            file == digits + rest && LeadingDigits(file) == digits
  {
    var e, c, d := Decimal(estimate), Decimal(count), Decimal(src);
    DecimalDigits(count);
    DecimalDigits(src);
    hide Decimal;
    hide LeadingDigits;
    var digits := c + d[Overrun(estimate, count)..];
    Overwritten(e, c, d, rest);
    LeadingOf(digits, rest);
    NoDigit(rest);
  }

  /** A count with at least two digits more than the estimate runs into the flows: the number read is continued by what is
      left there of the first source. */
  lemma HeaderOverrun(estimate: nat, count: nat, src: nat, rest: string)
    requires |Decimal(count)| >= |Decimal(estimate)| + 2 && Overrun(estimate, count) <= |Decimal(src)|
    requires rest != [] && !Digit(rest[0])
    ensures var file := FlowFile(estimate, count, Decimal(src) + rest);
            file == LeadingDigits(file) + rest && Number(LeadingDigits(file)) == Continued(estimate, count, src)
  {
    hide Number;
    hide LeadingDigits;
    hide FlowFile;
    hide Decimal;
    hide Power10;
    hide LastDigits;
    var m := |Decimal(src)| - Overrun(estimate, count);
    OverrunText(estimate, count, src, rest);
    NumberDecimal(count);
    NumberOfLast(src, m);
    NumberConcat(Decimal(count), Decimal(src)[|Decimal(src)| - m..]);
  }

  lemma Overwritten(e: string, c: string, d: string, rest: string)
    requires |c| >= |e| + 2 && |c| - |e| - 2 <= |d|
    ensures Overwrite(e + " \n" + (d + rest), c) == (c + d[|c| - |e| - 2..]) + rest
  {
    var file := e + " \n" + (d + rest);
    assert file[|c|..] == (d + rest)[|c| - |e| - 2..];
  }

  /** At least the count itself is announced. */
  lemma ContinuedTooMany(estimate: nat, count: nat, src: nat)
    requires Overrun(estimate, count) <= |Decimal(src)|
    ensures Continued(estimate, count, src) >= count
  {
    var m := |Decimal(src)| - Overrun(estimate, count);
    if m > 0 { AtLeastTenfold(count, m); }
  }
}
