/** Route computation of the simulator: the equal-cost breadth-first search, the
    per-node forwarding tables and their rebuilding when a link goes down. */
module Routing {
  import opened Topology

  /** Bandwidth given to the source of the search. */
  const BW_MAX: nat := 0xffff_ffff_ffff_ffff

  /** 64-bit wrap-around. */
  function Wrap(x: int): int { x % TWO_64 }

  function Add64(a: int, b: int): int { Wrap(a + b) }

  /** Transmit time of one packet, with the 64-bit product of the C++ expression. */
  function TxTime(payload: nat, bw: nat): nat
    requires bw > 0
  {
    Wrap(payload * 8_000_000_000) / bw
  }

  function Min(a: int, b: int): int { if a < b then a else b }

  datatype Cost = Cost(delay: int, tx: int, bw: int)

  /** Cost of a route, accumulated hop by hop from the host outward. */
  ghost function RouteCost(g: Net, payload: nat, p: seq<Node>): Cost
    requires g.WellFormed() && g.Route(p)
  {
    if |p| == 1 then Cost(0, 0, BW_MAX)
    else
      g.RoutePrefix(p, |p| - 2);
      var c := RouteCost(g, payload, p[..|p| - 1]);
      var l := assert g.Up(p[|p| - 2], p[|p| - 2 + 1]); g.If(p[|p| - 2], p[|p| - 1]);
      Cost(Add64(c.delay, l.delay), Add64(c.tx, TxTime(payload, l.bw)), Min(c.bw, l.bw))
  }

  lemma ExtendCost(g: Net, payload: nat, p: seq<Node>, m: Node)
    requires g.WellFormed() && g.Route(p) && g.Up(p[|p| - 1], m) && g.Route(p + [m])
    ensures var c, l := RouteCost(g, payload, p), g.If(p[|p| - 1], m);
            RouteCost(g, payload, p + [m]) ==
              Cost(Add64(c.delay, l.delay), Add64(c.tx, TxTime(payload, l.bw)), Min(c.bw, l.bw))
  {
  }

  /** `c` is the cost of some one shortest route from `host` to `n`. */
  ghost predicate ShortestCost(g: Net, payload: nat, host: Node, n: Node, c: Cost)
    requires g.WellFormed()
  {
    exists p :: g.RouteTo(host, n, p) && g.Dist(host, n, |p| - 1) && RouteCost(g, payload, p) == c
  }

  // ---- the search ---------------------------------------------------------------------

  lemma {:induction false} DistinctBound(q: seq<Node>, all: set<Node>)
    requires forall a | 0 <= a < |q| :: q[a] in all
    requires forall a, b | 0 <= a < b < |q| :: q[a] != q[b]
    ensures |q| <= |all|
  {
    if q != [] {
      var k := |q| - 1;
      DistinctBound(q[..k], all - {q[k]});
    }
  }

  /** The variables of one search from `host`. `path` and `explored` are bookkeeping of the proof:
      the route by which a node was found, and the directed up links looked at so far. */
  datatype Search = Search(q: seq<Node>, dis: map<Node, int>, delay: map<Node, int>, tx: map<Node, int>,
                           bw: map<Node, int>, hops: map<Node, seq<Node>>,
                           path: map<Node, seq<Node>>, explored: set<(Node, Node)>) {

    function Hops(n: Node): seq<Node> { if n in hops then hops[n] else [] }

    /** The queue holds the host and every switch found, ... */
    ghost predicate Members(g: Net, host: Node) {
      && |q| >= 1 && q[0] == host
      && (forall a | 0 <= a < |q| :: q[a] in dis)
      && (forall a | 0 < a < |q| :: g.Switch(q[a]))
      && (forall n | n in dis && (n == host || g.Switch(n)) :: n in q)
    }

    /** ... each once, by non-decreasing distance. */
    ghost predicate Order() {
      && (forall a, b | 0 <= a < b < |q| :: q[a] != q[b])
      && (forall a | 0 <= a < |q| :: q[a] in dis)
      && (forall a, b | 0 <= a < b < |q| :: dis[q[a]] <= dis[q[b]])
    }

    /** `path[n]` is a route of `dis[n]` hops whose cost the three maps hold. */
    ghost predicate Witness(g: Net, payload: nat, host: Node)
      requires g.WellFormed()
    {
      && host in dis && dis[host] == 0
      && path.Keys == dis.Keys && delay.Keys == dis.Keys && tx.Keys == dis.Keys && bw.Keys == dis.Keys
      && (forall n | n in dis :: n in g.nodes && g.RouteTo(host, n, path[n]) && |path[n]| == dis[n] + 1)
      && (forall n | n in dis :: RouteCost(g, payload, path[n]) == Cost(delay[n], tx[n], bw[n]))
    }

    /** Of `q[i]` the neighbours in `done` have been looked at, of its predecessors all,
        of its successors none. */
    ghost predicate Progress(g: Net, i: nat, done: set<Node>)
      requires i < |q|
    {
      && (forall a, m | 0 <= a < i && g.Up(q[a], m) :: (q[a], m) in explored)
      && (forall m | g.Up(q[i], m) :: m in done <==> (q[i], m) in explored)
      && (forall a, m | i < a < |q| :: (q[a], m) !in explored)
    }

    /** What is known of every link looked at. */
    ghost predicate Edges(g: Net, host: Node) {
      && (forall e | e in explored :: g.Up(e.0, e.1) && (e.0 == host || g.Switch(e.0)))
      && (forall e | e in explored :: e.0 in dis && e.1 in dis && dis[e.1] <= dis[e.0] + 1)
    }

    ghost predicate Near(i: nat)
      requires i < |q|
    {
      q[i] in dis && forall n | n in dis :: dis[n] <= dis[q[i]] + 1
    }

    /** The next hops of `n` are the explored neighbours one hop closer, once each. */
    ghost predicate HopsOf(n: Node) {
      && (forall m | m in Hops(n) :: (m, n) in explored && m in dis && n in dis && dis[m] + 1 == dis[n])
      && (forall m | (m, n) in explored && m in dis && n in dis && dis[m] + 1 == dis[n] :: m in Hops(n))
      && (forall i, j | 0 <= i < j < |Hops(n)| :: Hops(n)[i] != Hops(n)[j])
    }

    ghost predicate Inv(g: Net, payload: nat, host: Node, i: nat, done: set<Node>)
      requires g.WellFormed()
    {
      && Members(g, host) && Order() && Witness(g, payload, host) && Edges(g, host)
      && i < |q| && Near(i) && Progress(g, i, done)
      && (forall n :: HopsOf(n))
    }

    /** The search after its last queue element. */
    ghost predicate Complete(g: Net, payload: nat, host: Node)
      requires g.WellFormed()
    {
      && Members(g, host) && Order() && Witness(g, payload, host) && Edges(g, host)
      && (forall a, m | 0 <= a < |q| && g.Up(q[a], m) :: (q[a], m) in explored)
      && (forall n :: HopsOf(n))
    }

    /** First visit of `m` from `now`. */
    ghost function Discover(g: Net, payload: nat, now: Node, m: Node): Search
      requires g.WellFormed() && g.Up(now, m)
      requires now in dis && now in delay && now in tx && now in bw && now in path
    {
      var l := g.If(now, m);
      Search(if m in g.hosts then q else q + [m],
             dis[m := dis[now] + 1],
             delay[m := Add64(delay[now], l.delay)],
             tx[m := Add64(tx[now], TxTime(payload, l.bw))],
             bw[m := Min(bw[now], l.bw)],
             hops, path[m := path[now] + [m]], explored)
    }

    ghost function Look(now: Node, m: Node): Search
      requires now in dis && m in dis
    {
      var s := this.(explored := explored + {(now, m)});
      if dis[now] + 1 == dis[m] then s.(hops := hops[m := Hops(m) + [now]]) else s
    }

    lemma DiscoverKeepsMembers(g: Net, payload: nat, host: Node, i: nat, m: Node)
      requires g.WellFormed() && Members(g, host) && Witness(g, payload, host)
      requires i < |q| && g.Up(q[i], m) && m !in dis
      ensures Discover(g, payload, q[i], m).Members(g, host)
    {
      assert m in g.nodes by { assert g.Linked(q[i], m); }
      var s := Discover(g, payload, q[i], m);
      hide Net.WellFormed;
      hide Witness;
      assert forall a | 0 <= a < |q| :: s.q[a] == q[a];
      forall n | n in s.dis && (n == host || g.Switch(n)) ensures n in s.q {
        if n == m { assert s.q[|q|] == m; } else { assert n in q; }
      }
    }

    lemma DiscoverKeepsOrder(g: Net, payload: nat, host: Node, i: nat, m: Node)
      requires g.WellFormed() && Order() && Witness(g, payload, host)
      requires i < |q| && Near(i) && g.Up(q[i], m) && m !in dis
      ensures Discover(g, payload, q[i], m).Order()
    {
      var s := Discover(g, payload, q[i], m);
      hide Net.WellFormed;
      hide Witness;
      assert forall a | 0 <= a < |q| :: s.q[a] == q[a] && q[a] != m;
    }

    /** The route by which `m` is found. */
    lemma DiscoverRoute(g: Net, payload: nat, host: Node, i: nat, m: Node)
      requires g.WellFormed() && Members(g, host) && Witness(g, payload, host)
      requires i < |q| && g.Up(q[i], m)
      ensures m in g.nodes && g.RouteTo(host, m, path[q[i]] + [m])
      ensures RouteCost(g, payload, path[q[i]] + [m]) ==
                var l := g.If(q[i], m);
                Cost(Add64(delay[q[i]], l.delay), Add64(tx[q[i]], TxTime(payload, l.bw)), Min(bw[q[i]], l.bw))
    {
      var now := q[i];
      assert m in g.nodes by { assert g.Linked(now, m); }
      hide Net.WellFormed;
      assert |path[now]| == 1 || g.Switch(now) by {
        if i == 0 { assert dis[now] == 0; }
      }
      g.RouteExtend(path[now], m);
      ExtendCost(g, payload, path[now], m);
    }

    lemma DiscoverKeepsWitness(g: Net, payload: nat, host: Node, i: nat, m: Node)
      requires g.WellFormed() && Members(g, host) && Witness(g, payload, host)
      requires i < |q| && g.Up(q[i], m) && m !in dis
      ensures Discover(g, payload, q[i], m).Witness(g, payload, host)
    {
      DiscoverRoute(g, payload, host, i, m);
      hide Net.WellFormed;
      hide Members;
      hide RouteCost;
      hide Net.RouteTo;
      hide Net.Up;
    }

    lemma DiscoverKeepsProgress(g: Net, payload: nat, host: Node, i: nat, done: set<Node>, m: Node)
      requires g.WellFormed() && Witness(g, payload, host) && Edges(g, host)
      requires i < |q| && Near(i) && Progress(g, i, done) && g.Up(q[i], m) && m !in dis
      ensures var s := Discover(g, payload, q[i], m);
              i < |s.q| && s.q[i] == q[i] && s.Near(i) && s.Progress(g, i, done) && s.Edges(g, host)
    {
      var s := Discover(g, payload, q[i], m);
      hide Net.WellFormed;
      hide Witness;
      assert forall a | 0 <= a < |q| :: s.q[a] == q[a];
      forall a, x | i < a < |s.q| ensures (s.q[a], x) !in s.explored {
        if a == |q| { assert s.q[a] == m; }
      }
    }

    lemma DiscoverKeepsHops(g: Net, payload: nat, host: Node, i: nat, m: Node, n: Node)
      requires g.WellFormed() && Edges(g, host) && HopsOf(n)
      requires i < |q| && q[i] in dis && q[i] in delay && q[i] in tx && q[i] in bw && q[i] in path
      requires g.Up(q[i], m) && m !in dis
      ensures Discover(g, payload, q[i], m).HopsOf(n)
    {
    }

    /** The state stays consistent when a neighbour is found. */
    lemma DiscoverKeeps(g: Net, payload: nat, host: Node, i: nat, done: set<Node>, m: Node)
      requires g.WellFormed() && Inv(g, payload, host, i, done) && g.Up(q[i], m) && m !in dis
      ensures Discover(g, payload, q[i], m).Inv(g, payload, host, i, done)
      ensures q <= Discover(g, payload, q[i], m).q
    {
      DiscoverKeepsMembers(g, payload, host, i, m);
      DiscoverKeepsOrder(g, payload, host, i, m);
      DiscoverKeepsWitness(g, payload, host, i, m);
      DiscoverKeepsProgress(g, payload, host, i, done, m);
      forall n ensures Discover(g, payload, q[i], m).HopsOf(n) {
        DiscoverKeepsHops(g, payload, host, i, m, n);
      }
    }

    lemma LookKeepsProgress(g: Net, host: Node, i: nat, done: set<Node>, m: Node)
      requires i < |q| && Near(i) && Progress(g, i, done) && Order() && g.Up(q[i], m) && m in dis
      ensures Look(q[i], m).Progress(g, i, done + {m})
    {
      var s := Look(q[i], m);
      assert s.q == q && s.explored == explored + {(q[i], m)};
    }

    lemma LookKeepsEdges(g: Net, host: Node, i: nat, m: Node)
      requires i < |q| && Near(i) && Members(g, host) && Edges(g, host) && g.Up(q[i], m) && m in dis
      ensures Look(q[i], m).Near(i) && Look(q[i], m).Edges(g, host)
    {
      var s := Look(q[i], m);
      forall e | e in s.explored
        ensures g.Up(e.0, e.1) && (e.0 == host || g.Switch(e.0))
        ensures e.0 in dis && e.1 in dis && dis[e.1] <= dis[e.0] + 1
      {
        if e != (q[i], m) { assert e in explored; }
      }
    }

    lemma LookKeepsHops(now: Node, m: Node, n: Node)
      requires now in dis && m in dis && (now, m) !in explored && HopsOf(n)
      ensures Look(now, m).HopsOf(n)
    {
      var s := Look(now, m);
      if n == m {
        assert now !in Hops(n);
      } else {
        assert s.Hops(n) == Hops(n);
      }
    }

    /** The state stays consistent when an up link is examined. */
    lemma LookKeeps(g: Net, payload: nat, host: Node, i: nat, done: set<Node>, m: Node)
      requires g.WellFormed() && Inv(g, payload, host, i, done)
      requires g.Up(q[i], m) && m in dis && m !in done
      ensures Look(q[i], m).Inv(g, payload, host, i, done + {m})
    {
      LookKeepsProgress(g, host, i, done, m);
      LookKeepsEdges(g, host, i, m);
      LookKeepsRest(g, payload, host, i, done, m);
      hide Members;
      hide Order;
      hide Witness;
      hide Edges;
      hide Near;
      hide Progress;
      hide HopsOf;
      forall n ensures Look(q[i], m).HopsOf(n) {
        LookKeepsHops(q[i], m, n);
      }
    }

    lemma LookKeepsRest(g: Net, payload: nat, host: Node, i: nat, done: set<Node>, m: Node)
      requires g.WellFormed() && Inv(g, payload, host, i, done)
      requires g.Up(q[i], m) && m in dis && m !in done
      ensures var s := Look(q[i], m); s.q == q && s.Members(g, host) && s.Order() && s.Witness(g, payload, host)
      ensures q[i] in dis && (q[i], m) !in explored
    {
      hide Edges;
      hide HopsOf;
      hide Net.WellFormed;
      SameSearch(g, payload, host, Look(q[i], m));
      hide Members;
      hide Order;
      hide Witness;
    }

    /** These three do not depend on the hops and the explored links. */
    lemma SameSearch(g: Net, payload: nat, host: Node, s: Search)
      requires g.WellFormed() && Members(g, host) && Order() && Witness(g, payload, host)
      requires s.q == q && s.dis == dis && s.delay == delay && s.tx == tx && s.bw == bw && s.path == path
      ensures s.Members(g, host) && s.Order() && s.Witness(g, payload, host)
    {
    }

    static ghost function Start(host: Node): Search {
      Search([host], map[host := 0], map[host := 0], map[host := 0], map[host := BW_MAX], map[], map[host := [host]], {})
    }

    static lemma StartInv(g: Net, payload: nat, host: Node)
      requires g.WellFormed() && host in g.hosts
      ensures Start(host).Inv(g, payload, host, 0, {})
    {
    }

    /** Looking at the up link from `q[i]` to `m`, found or not. */
    ghost function Step(g: Net, payload: nat, now: Node, m: Node): Search
      requires g.WellFormed() && g.Up(now, m)
      requires now in dis && now in delay && now in tx && now in bw && now in path
    {
      (if m in dis then this else Discover(g, payload, now, m)).Look(now, m)
    }

    lemma StepFields(g: Net, payload: nat, now: Node, m: Node)
      requires g.WellFormed() && g.Up(now, m)
      requires now in dis && now in delay && now in tx && now in bw && now in path
      ensures var s, l := Step(g, payload, now, m), g.If(now, m);
              if m in dis then s.q == q && s.dis == dis && s.delay == delay && s.tx == tx && s.bw == bw
              else
                && s.q == (if m in g.hosts then q else q + [m])
                && s.dis == dis[m := dis[now] + 1]
                && s.delay == delay[m := Add64(delay[now], l.delay)]
                && s.tx == tx[m := Add64(tx[now], TxTime(payload, l.bw))]
                && s.bw == bw[m := Min(bw[now], l.bw)]
    {
    }

    lemma StepKeeps(g: Net, payload: nat, host: Node, i: nat, done: set<Node>, m: Node)
      requires g.WellFormed() && Inv(g, payload, host, i, done)
      requires g.Up(q[i], m) && m !in done
      ensures var s := Step(g, payload, q[i], m);
              s.Inv(g, payload, host, i, done + {m}) && s.q[i] == q[i]
    {
      if m in dis {
        LookKeeps(g, payload, host, i, done, m);
      } else {
        DiscoverKeeps(g, payload, host, i, done, m);
        Discover(g, payload, q[i], m).LookKeeps(g, payload, host, i, done, m);
      }
    }

    /** A down link changes nothing. */
    lemma SkipKeeps(g: Net, payload: nat, host: Node, i: nat, done: set<Node>, m: Node)
      requires g.WellFormed() && Inv(g, payload, host, i, done) && !g.Up(q[i], m)
      ensures Inv(g, payload, host, i, done + {m})
    {
    }

    lemma Known(g: Net, payload: nat, host: Node, i: nat, m: Node)
      requires g.WellFormed() && Members(g, host) && Witness(g, payload, host) && i < |q| && g.Up(q[i], m)
      ensures q[i] in dis && q[i] in delay && q[i] in tx && q[i] in bw && q[i] in path
      ensures g.If(q[i], m).bw > 0
    {
    }

    lemma QueueBound(g: Net, payload: nat, host: Node)
      requires g.WellFormed() && Members(g, host) && Order() && Witness(g, payload, host)
      ensures |q| <= |g.nodes|
    {
      DistinctBound(q, g.nodes);
    }

    /** Moving on to the next queue element, or to the end of the search. */
    lemma Advance(g: Net, payload: nat, host: Node, i: nat, done: set<Node>)
      requires g.WellFormed() && Inv(g, payload, host, i, done)
      requires forall m | g.Up(q[i], m) :: m in done
      ensures if i + 1 < |q| then Inv(g, payload, host, i + 1, {}) else Complete(g, payload, host)
    {
      assert forall a, m | 0 <= a < i + 1 && g.Up(q[a], m) :: (q[a], m) in explored;
    }

    lemma {:induction false} RouteBound(g: Net, payload: nat, host: Node, p: seq<Node>, k: nat)
      requires g.WellFormed() && Complete(g, payload, host)
      requires g.Route(p) && p[0] == host && k < |p|
      ensures p[k] in dis && dis[p[k]] <= k
    {
      if k > 0 {
        RouteBound(g, payload, host, p, k - 1);
        assert g.Up(p[k - 1], p[k - 1 + 1]);
        var a :| 0 <= a < |q| && q[a] == p[k - 1];
        assert (p[k - 1], p[k]) in explored;
      }
    }

    /** The search finds exactly the reached nodes, at their distance. */
    lemma FoundAtDistance(g: Net, payload: nat, host: Node, n: Node)
      requires g.WellFormed() && Complete(g, payload, host)
      ensures n in dis <==> g.Reached(host, n)
      ensures n in dis ==> dis[n] >= 0 && g.Dist(host, n, dis[n]) &&
                           ShortestCost(g, payload, host, n, Cost(delay[n], tx[n], bw[n]))
    {
      if n in dis { KnownRoute(g, payload, host, n); }
      hide Complete;
      hide Net.WellFormed;
      hide Net.RouteTo;
      forall p | g.RouteTo(host, n, p) ensures n in dis && dis[n] < |p| {
        RouteToBound(g, payload, host, n, p);
      }
      if n in dis {
        assert g.RouteTo(host, n, path[n]);
        assert g.Dist(host, n, |path[n]| - 1);
      }
    }

    lemma SameKeys(g: Net, payload: nat, host: Node)
      requires g.WellFormed() && Complete(g, payload, host)
      ensures delay.Keys == dis.Keys && tx.Keys == dis.Keys && bw.Keys == dis.Keys
    {
    }

    lemma KnownRoute(g: Net, payload: nat, host: Node, n: Node)
      requires g.WellFormed() && Complete(g, payload, host) && n in dis
      ensures n in path && n in delay && n in tx && n in bw && g.RouteTo(host, n, path[n]) && |path[n]| == dis[n] + 1 >= 1
      ensures RouteCost(g, payload, path[n]) == Cost(delay[n], tx[n], bw[n])
    {
    }

    lemma RouteToBound(g: Net, payload: nat, host: Node, n: Node, p: seq<Node>)
      requires g.WellFormed() && Complete(g, payload, host) && g.RouteTo(host, n, p)
      ensures n in dis && dis[n] < |p|
    {
      RouteBound(g, payload, host, p, |p| - 1);
    }

    /** The recorded hops are the next hops, once each. */
    lemma HopsAreNextHops(g: Net, payload: nat, host: Node, n: Node)
      requires g.WellFormed() && Complete(g, payload, host)
      ensures NextHopList(g, host, n, Hops(n))
    {
      assert HopsOf(n);
      forall m ensures m in Hops(n) <==> g.NextHop(host, n, m) {
        FoundAtDistance(g, payload, host, n);
        FoundAtDistance(g, payload, host, m);
        if g.NextHop(host, n, m) {
          var d: nat :| g.Dist(host, m, d) && g.Dist(host, n, d + 1);
          g.DistUnique(host, m, d, dis[m]);
          g.DistUnique(host, n, d + 1, dis[n]);
          assert m in q;
          var a :| 0 <= a < |q| && q[a] == m;
          assert (m, n) in explored;
        }
        if m in Hops(n) {
          assert (m, n) in explored;
          assert g.Dist(host, m, dis[m]) && g.Dist(host, n, dis[m] + 1);
        }
      }
    }
  }

  /** `hops` lists the next hops of `n` towards `host`, each exactly once. */
  ghost predicate NextHopList(g: Net, host: Node, n: Node, hops: seq<Node>) {
    && (forall m :: m in hops <==> g.NextHop(host, n, m))
    && (forall i, j | 0 <= i < j < |hops| :: hops[i] != hops[j])
  }

  // ---- forwarding tables --------------------------------------------------------------

  const TWO_32: nat := 0x1_0000_0000

  /** Address of a node: 11.(id / 256).(id % 256).1 in 32-bit arithmetic. */
  function NodeIdToIp(id: int): int {
    (0x0b000001 + id / 256 * 0x10000 + id % 256 * 0x100) % TWO_32
  }

  function IpToNodeId(ip: int): int { ip / 256 % 0x10000 }

  /** The third byte up of the address and what is above. */
  lemma IpPrefix(id: int)
    requires 0 <= id < TWO_32
    ensures NodeIdToIp(id) / 256 == (0x0b0000 + id) % 0x1000000
  {
    var n := 0x0b0000 + id;
    assert 0x0b000001 + id / 256 * 0x10000 + id % 256 * 0x100 == 256 * n + 1;
    var w := n / 0x1000000;
    assert 256 * n + 1 == TWO_32 * w + (256 * (n % 0x1000000) + 1);
    RemainderIs(256 * n + 1, w, 256 * (n % 0x1000000) + 1);
  }

  lemma RemainderIs(x: int, w: int, r: int)
    requires x == TWO_32 * w + r && 0 <= r < TWO_32
    ensures x % TWO_32 == r
  {
  }

  /** The address determines a node id up to 16 bits, ... */
  lemma IpRoundTrip(id: int)
    requires 0 <= id < TWO_32
    ensures IpToNodeId(NodeIdToIp(id)) == id % 0x10000
    ensures IpToNodeId(NodeIdToIp(id)) == id <==> id < 0x10000
  {
    IpPrefix(id);
    hide NodeIdToIp;
    var w := (0x0b0000 + id) / 0x1000000;
    assert (0x0b0000 + id) % 0x1000000 == id + 0x10000 * (0x0b - 256 * w);
  }

  const ADDRESSES: nat := 0x100_0000

  /** ... but two ids have the same address exactly if they agree in their low 24 bits. */
  lemma IpInjective(a: int, b: int)
    requires 0 <= a < TWO_32 && 0 <= b < TWO_32
    ensures NodeIdToIp(a) == NodeIdToIp(b) <==> a % ADDRESSES == b % ADDRESSES
  {
    IpPrefix(a);
    IpPrefix(b);
    IpSuffix(a);
    IpSuffix(b);
    hide NodeIdToIp;
    Offset(0x0b0000, a, b);
  }

  lemma IpSuffix(id: int)
    requires 0 <= id < TWO_32
    ensures NodeIdToIp(id) % 256 == 1
  {
    var n := 0x0b0000 + id;
    assert 0x0b000001 + id / 256 * 0x10000 + id % 256 * 0x100 == 256 * n + 1;
    assert (256 * n + 1) % TWO_32 == 256 * (n % ADDRESSES) + 1 by {
      RemainderIs(256 * n + 1, n / ADDRESSES, 256 * (n % ADDRESSES) + 1);
    }
  }

  /** The address is 1 below the id counted from 11.0.0; up to two bytes of id are the two bytes in between. */
  lemma IpBytes(id: int)
    requires 0 <= id < TWO_32
    ensures NodeIdToIp(id) == 0x100 * ((0x0b0000 + id) % 0x100_0000) + 1
    ensures id < 0x1_0000 ==> NodeIdToIp(id) == 0x0b00_0000 + 0x100 * id + 1
  {
    IpPrefix(id);
    IpSuffix(id);
  }

  lemma Offset(c: int, a: int, b: int)
    ensures (c + a) % ADDRESSES == (c + b) % ADDRESSES <==> a % ADDRESSES == b % ADDRESSES
  {
  }

  type NextHops = map<(Node, Node), seq<Node>>
  type Tables = map<(Node, int), seq<int>>

  function Entry(t: NextHops, n: Node, host: Node): seq<Node> {
    if (n, host) in t then t[(n, host)] else []
  }

  function Table(t: Tables, n: Node, ip: int): seq<int> {
    if (n, ip) in t then t[(n, ip)] else []
  }

  /** Interface towards a neighbour; a map lookup of a missing key yields the default one. */
  function IfOrDefault(links: Links, n: Node, m: Node): Interface {
    if n in links && m in links[n] then links[n][m] else Interface(0, false, 0, 0)
  }

  function Ports(links: Links, n: Node, hops: seq<Node>): (r: seq<int>)
    ensures |r| == |hops|
  {
    seq(|hops|, i requires 0 <= i < |hops| => IfOrDefault(links, n, hops[i]).idx)
  }

  /** Host ids with addresses of their own. */
  ghost predicate Addressable(g: Net) { forall h | h in g.hosts :: 0 <= h < ADDRESSES }

  /** The next-hop map of a freshly routed network. */
  ghost predicate Routed(g: Net, t: NextHops) {
    && (forall h, n | h in g.hosts :: NextHopList(g, h, n, Entry(t, n, h)))
    && (forall k | k in t :: k.1 in g.hosts && t[k] != [])
  }

  /** The forwarding tables of a freshly routed network: for every host one port per next hop. */
  ghost predicate Installed(g: Net, t: NextHops, rt: Tables) {
    && (forall h, n | h in g.hosts :: Table(rt, n, NodeIdToIp(h)) == Ports(g.links, n, Entry(t, n, h)))
    && (forall n, ip | (forall h | h in g.hosts :: NodeIdToIp(h) != ip) :: Table(rt, n, ip) == [])
  }

  /** `s` has been merged into the next-hop map. */
  ghost predicate Merged(t0: NextHops, t: NextHops, host: Node, s: Search) {
    && (forall n, h :: Entry(t, n, h) == Entry(t0, n, h) + if h == host then s.Hops(n) else [])
    && (forall k | k in t :: k in t0 || k.1 == host)
    && (forall k | k in t :: t[k] != [] || (k in t0 && t0[k] == []))
  }

  lemma MergedFrame(t0: NextHops, t: NextHops, host: Node, s: Search)
    requires Merged(t0, t, host, s)
    ensures forall n, h | h != host :: Entry(t, n, h) == Entry(t0, n, h)
    ensures forall k | k in t :: k in t0 || k.1 == host
    ensures forall k | k in t :: t[k] != [] || (k in t0 && t0[k] == [])
  {
  }

  /** What merging a complete search into the next-hop map means for the caller. */
  lemma MergedComplete(g: Net, payload: nat, host: Node, t0: NextHops, t: NextHops, s: Search, n: Node)
    requires g.WellFormed() && s.Complete(g, payload, host) && Merged(t0, t, host, s)
    ensures Entry(t0, n, host) <= Entry(t, n, host)
    ensures NextHopList(g, host, n, Entry(t, n, host)[|Entry(t0, n, host)|..])
  {
    s.HopsAreNextHops(g, payload, host, n);
    assert Entry(t, n, host) == Entry(t0, n, host) + s.Hops(n);
    assert Entry(t, n, host)[|Entry(t0, n, host)|..] == s.Hops(n);
  }

  lemma MergedStart(t: NextHops, host: Node)
    ensures Merged(t, t, host, Search.Start(host))
  {
  }

  lemma MergeStep(g: Net, payload: nat, t0: NextHops, t: NextHops, host: Node, s: Search, now: Node, m: Node)
    requires g.WellFormed() && g.Up(now, m) && Merged(t0, t, host, s)
    requires now in s.dis && s.Witness(g, payload, host)
    ensures var s' := s.Step(g, payload, now, m);
            m in s'.dis && now in s'.dis &&
            Merged(t0, if s'.dis[now] + 1 == s'.dis[m] then t[(m, host) := Entry(t, m, host) + [now]] else t, host, s')
  {
    var u := if m in s.dis then s else s.Discover(g, payload, now, m);
    assert forall n :: u.Hops(n) == s.Hops(n);
    assert Merged(t0, t, host, u);
    MergeLook(t0, t, host, u, now, m);
  }

  lemma MergeEntry(t0: NextHops, t: NextHops, host: Node, s: Search, now: Node, m: Node, n: Node, h: Node)
    requires Entry(t, n, h) == Entry(t0, n, h) + if h == host then s.Hops(n) else []
    requires now in s.dis && m in s.dis && s.dis[now] + 1 == s.dis[m]
    ensures Entry(t[(m, host) := Entry(t, m, host) + [now]], n, h) ==
              Entry(t0, n, h) + if h == host then s.Look(now, m).Hops(n) else []
  {
  }

  lemma MergeLook(t0: NextHops, t: NextHops, host: Node, s: Search, now: Node, m: Node)
    requires Merged(t0, t, host, s) && now in s.dis && m in s.dis
    ensures Merged(t0, if s.dis[now] + 1 == s.dis[m] then t[(m, host) := Entry(t, m, host) + [now]] else t,
                   host, s.Look(now, m))
  {
    hide Entry;
    if s.dis[now] + 1 == s.dis[m] {
      forall n, h
        ensures Entry(t[(m, host) := Entry(t, m, host) + [now]], n, h) ==
                  Entry(t0, n, h) + if h == host then s.Look(now, m).Hops(n) else []
      {
        MergeEntry(t0, t, host, s, now, m, n, h);
      }
    } else {
      assert forall n :: s.Look(now, m).Hops(n) == s.Hops(n);
    }
  }

  type Pairs = map<(Node, Node), int>

  /** The values of `m` stored under destination `host`. */
  function Store(pairs: Pairs, m: map<Node, int>, host: Node): (r: Pairs)
    ensures forall n, h :: (n, h) in r <==> (n, h) in pairs || (n in m && h == host)
    ensures forall n, h | (n, h) in r :: r[(n, h)] == if n in m && h == host then m[n] else pairs[(n, h)]
  {
    var added := map n | n in m :: (n, host) := m[n];
    assert forall n | n in m :: (n, host) in added;
    pairs + added
  }

  /** The edge-to-edge measures of all pairs. */
  datatype PairMaps = PairMaps(delay: Pairs, tx: Pairs, bw: Pairs) {

    ghost predicate Has(n: Node, host: Node, c: Cost) {
      && (n, host) in delay && (n, host) in tx && (n, host) in bw
      && c == Cost(delay[(n, host)], tx[(n, host)], bw[(n, host)])
    }

    ghost predicate Agree(that: PairMaps, n: Node, host: Node) {
      && ((n, host) in delay <==> (n, host) in that.delay)
      && ((n, host) in tx <==> (n, host) in that.tx)
      && ((n, host) in bw <==> (n, host) in that.bw)
      && ((n, host) in delay ==> delay[(n, host)] == that.delay[(n, host)])
      && ((n, host) in tx ==> tx[(n, host)] == that.tx[(n, host)])
      && ((n, host) in bw ==> bw[(n, host)] == that.bw[(n, host)])
    }

    /** Towards `host`, every reached node has the cost of one shortest route;
        the others keep what they had. */
    ghost predicate Measured(g: Net, payload: nat, host: Node, before: PairMaps)
      requires g.WellFormed()
    {
      && (forall n | g.Reached(host, n) :: exists c :: Has(n, host, c) && ShortestCost(g, payload, host, n, c))
      && (forall n | !g.Reached(host, n) :: Agree(before, n, host))
    }

    ghost function StoreAll(s: Search, host: Node): PairMaps {
      PairMaps(Store(delay, s.delay, host), Store(tx, s.tx, host), Store(bw, s.bw, host))
    }

    /** What is stored about one node, whatever the maps say. */
    lemma StoreNode(s: Search, host: Node, n: Node)
      requires s.delay.Keys == s.dis.Keys && s.tx.Keys == s.dis.Keys && s.bw.Keys == s.dis.Keys
      ensures if n in s.dis then StoreAll(s, host).Has(n, host, Cost(s.delay[n], s.tx[n], s.bw[n]))
              else StoreAll(s, host).Agree(this, n, host)
    {
    }

    lemma StoreOne(g: Net, payload: nat, host: Node, s: Search, n: Node)
      requires g.WellFormed() && s.Complete(g, payload, host)
      ensures if g.Reached(host, n)
              then exists c :: StoreAll(s, host).Has(n, host, c) && ShortestCost(g, payload, host, n, c)
              else StoreAll(s, host).Agree(this, n, host)
    {
      s.SameKeys(g, payload, host);
      s.FoundAtDistance(g, payload, host, n);
      hide Search.Complete;
      hide Net.WellFormed;
      hide ShortestCost;
      hide Net.Reached;
      hide PairMaps.Has;
      hide PairMaps.Agree;
      hide PairMaps.StoreAll;
      hide Net.Dist;
      StoreNode(s, host, n);
    }

    lemma StoreKeeps(s: Search, host: Node)
      ensures forall n, h | h != host :: StoreAll(s, host).Agree(this, n, h)
    {
    }

    lemma StoreMeasures(g: Net, payload: nat, host: Node, s: Search)
      requires g.WellFormed() && s.Complete(g, payload, host)
      ensures StoreAll(s, host).Measured(g, payload, host, this)
      ensures forall n, h | h != host :: StoreAll(s, host).Agree(this, n, h)
    {
      StoreKeeps(s, host);
      hide Search.Complete;
      hide ShortestCost;
      hide PairMaps.Has;
      hide PairMaps.Agree;
      hide StoreAll;
      hide Net.WellFormed;
      hide Net.Reached;
      forall n
        ensures g.Reached(host, n) ==>
                  exists c :: StoreAll(s, host).Has(n, host, c) && ShortestCost(g, payload, host, n, c)
        ensures !g.Reached(host, n) ==> StoreAll(s, host).Agree(this, n, host)
      {
        StoreOne(g, payload, host, s, n);
      }
    }

    lemma AgreeTrans(mid: PairMaps, before: PairMaps, n: Node, h: Node)
      requires Agree(mid, n, h) && mid.Agree(before, n, h)
      ensures Agree(before, n, h)
    {
    }

    /** Storing other columns later keeps a measured column. */
    lemma MeasuredKept(g: Net, payload: nat, host: Node, mid: PairMaps, before: PairMaps)
      requires g.WellFormed() && mid.Measured(g, payload, host, before)
      requires forall n :: Agree(mid, n, host)
      ensures Measured(g, payload, host, before)
    {
      forall n | g.Reached(host, n)
        ensures exists c :: Has(n, host, c) && ShortestCost(g, payload, host, n, c)
      {
        var c :| mid.Has(n, host, c) && ShortestCost(g, payload, host, n, c);
        assert Agree(mid, n, host);
        assert Has(n, host, c);
      }
      forall n | !g.Reached(host, n) ensures Agree(before, n, host) {
        AgreeTrans(mid, before, n, host);
      }
    }
  }

  lemma AgreeRefl(m: PairMaps, n: Node, h: Node)
    ensures m.Agree(m, n, h)
  {
  }

  lemma MeasuredFrom(g: Net, payload: nat, host: Node, m: PairMaps, mid: PairMaps, before: PairMaps)
    requires g.WellFormed() && m.Measured(g, payload, host, mid)
    requires forall n :: mid.Agree(before, n, host)
    ensures m.Measured(g, payload, host, before)
  {
    forall n | !g.Reached(host, n) ensures m.Agree(before, n, host) {
      m.AgreeTrans(mid, before, n, host);
    }
  }

  /** Table contents when the keys in `done` have been installed on top of `rt0`. */
  ghost predicate InstalledSoFar(hosts: set<Node>, links: Links, t: NextHops, done: set<(Node, Node)>, rt0: Tables, rt: Tables) {
    && (forall h, n | h in hosts ::
          Table(rt, n, NodeIdToIp(h)) ==
            Table(rt0, n, NodeIdToIp(h)) + if (n, h) in done then Ports(links, n, Entry(t, n, h)) else [])
    && (forall n, ip | (forall h | h in hosts :: NodeIdToIp(h) != ip) :: Table(rt, n, ip) == Table(rt0, n, ip))
  }

  lemma InstallNone(hosts: set<Node>, links: Links, t: NextHops, rt: Tables)
    ensures InstalledSoFar(hosts, links, t, {}, rt, rt)
  {
  }

  /** Equal look-ups are all that matters. */
  lemma InstallSame(hosts: set<Node>, links: Links, t: NextHops, done: set<(Node, Node)>, rt0: Tables, rt: Tables, rt': Tables)
    requires InstalledSoFar(hosts, links, t, done, rt0, rt)
    requires forall n, ip :: Table(rt', n, ip) == Table(rt, n, ip)
    ensures InstalledSoFar(hosts, links, t, done, rt0, rt')
  {
  }

  lemma PortAt(links: Links, n: Node, hops: seq<Node>, k: nat)
    requires k < |hops|
    ensures Ports(links, n, hops)[k] == IfOrDefault(links, n, hops[k]).idx
  {
  }

  lemma InstallKey(hosts: set<Node>, links: Links, t: NextHops, done: set<(Node, Node)>, rt0: Tables, rt: Tables,
                   n: Node, host: Node, rt': Tables)
    requires forall h | h in hosts :: 0 <= h < ADDRESSES
    requires InstalledSoFar(hosts, links, t, done, rt0, rt) && host in hosts && (n, host) !in done
    requires rt' == rt[(n, NodeIdToIp(host)) := Table(rt, n, NodeIdToIp(host)) + Ports(links, n, Entry(t, n, host))]
    ensures InstalledSoFar(hosts, links, t, done + {(n, host)}, rt0, rt')
  {
    hide Ports;
    hide Entry;
    hide NodeIdToIp;
    var add := Ports(links, n, Entry(t, n, host));
    TableUpdate(rt, n, NodeIdToIp(host), add, rt');
    hide Table;
    forall h, m | h in hosts
      ensures Table(rt', m, NodeIdToIp(h)) ==
                Table(rt0, m, NodeIdToIp(h)) + if (m, h) in done + {(n, host)} then Ports(links, m, Entry(t, m, h)) else []
    {
      if NodeIdToIp(h) == NodeIdToIp(host) { IpInjective(h, host); }
      var old' := Table(rt0, m, NodeIdToIp(h));
      assert old' + [] == old';
    }
  }

  lemma TableUpdate(rt: Tables, n: Node, ip: int, add: seq<int>, rt': Tables)
    requires rt' == rt[(n, ip) := Table(rt, n, ip) + add]
    ensures forall m, ip' :: Table(rt', m, ip') == if m == n && ip' == ip then Table(rt, n, ip) + add else Table(rt, m, ip')
  {
  }

  /** `now` is `rt` with more ports for one destination of one node. */
  ghost predicate WithPorts(rt: Tables, now: Tables, node: Node, ip: int, ports: seq<int>) {
    forall n, a :: Table(now, n, a) == Table(rt, n, a) + if n == node && a == ip then ports else []
  }

  lemma OneMorePort(rt: Tables, now: Tables, node: Node, ip: int, ports: seq<int>, k: nat)
    requires k < |ports| && WithPorts(rt, now, node, ip, ports[..k])
    ensures WithPorts(rt, now[(node, ip) := Table(now, node, ip) + [ports[k]]], node, ip, ports[..k + 1])
  {
    assert Table(rt, node, ip) + ports[..k] + [ports[k]] == Table(rt, node, ip) + ports[..k + 1];
  }

  lemma NoPorts(rt: Tables, node: Node, ip: int)
    ensures WithPorts(rt, rt, node, ip, [])
  {
  }

  lemma AllPorts(rt: Tables, now: Tables, node: Node, ip: int, ports: seq<int>, full: Tables)
    requires WithPorts(rt, now, node, ip, ports) && full == rt[(node, ip) := Table(rt, node, ip) + ports]
    ensures forall n, a :: Table(now, n, a) == Table(full, n, a)
  {
    forall n, a ensures Table(now, n, a) == Table(full, n, a) {
      assert Table(rt, n, a) + [] == Table(rt, n, a);
    }
  }

  class Network {
    /** The node container, the hosts among it and the packet payload size in bytes. */
    const nodes: seq<Node>
    const hosts: set<Node>
    const payload: nat
    /** Neighbour map, next hops and edge-to-edge measures. The nested maps
        node -> destination -> value of the program are keyed by the pair. */
    var links: Links
    var nextHop: NextHops
    var pairDelay: Pairs
    var pairTxDelay: Pairs
    var pairBw: Pairs
    /** Forwarding tables of all nodes: node and destination address -> interfaces. */
    var rtTable: Tables

    ghost function G(): Net
      reads this`links
    {
      Net((set n | n in nodes), hosts, links)
    }

    ghost function M(): PairMaps
      reads this`pairDelay, this`pairTxDelay, this`pairBw
    {
      PairMaps(pairDelay, pairTxDelay, pairBw)
    }

    constructor (nodes: seq<Node>, hosts: set<Node>, payload: nat, links: Links)
      ensures this.nodes == nodes && this.hosts == hosts && this.payload == payload && this.links == links
      ensures nextHop == map[] && rtTable == map[] && M() == PairMaps(map[], map[], map[])
    {
      this.nodes, this.hosts, this.payload, this.links := nodes, hosts, payload, links;
      nextHop, rtTable, pairDelay, pairTxDelay, pairBw := map[], map[], map[], map[], map[];
    }

    /** Breadth-first search from `host`, through switches only. */
    method CalculateRoute(host: Node)
      requires G().WellFormed() && host in hosts
      modifies this`nextHop, this`pairDelay, this`pairTxDelay, this`pairBw
      ensures forall n, h | h != host :: Entry(nextHop, n, h) == Entry(old(nextHop), n, h)
      ensures forall n :: Entry(old(nextHop), n, host) <= Entry(nextHop, n, host)
      ensures forall n :: NextHopList(G(), host, n, Entry(nextHop, n, host)[|Entry(old(nextHop), n, host)|..])
      ensures forall k | k in nextHop :: k in old(nextHop) || k.1 == host
      ensures forall k | k in nextHop :: nextHop[k] != [] || (k in old(nextHop) && old(nextHop)[k] == [])
      ensures M().Measured(G(), payload, host, old(M()))
      ensures forall n, h | h != host :: M().Agree(old(M()), n, h)
    {
      hide Store;
      hide PairMaps.Measured;
      hide PairMaps.Agree;
      hide Search.Members;
      hide Search.Order;
      hide Search.Witness;
      hide Search.Progress;
      hide Search.Edges;
      hide Search.HopsOf;
      hide Search.Step;
      hide Merged;
      hide NextHopList;
      hide Net.WellFormed;
      ghost var g := G();
      var q := [host];
      var dis: map<Node, int> := map[host := 0];
      var delay: map<Node, int> := map[host := 0];
      var txDelay: map<Node, int> := map[host := 0];
      var bw: map<Node, int> := map[host := BW_MAX];
      ghost var s := Search.Start(host);
      Search.StartInv(g, payload, host);
      ghost var t0 := nextHop;
      MergedStart(t0, host);
      var i := 0;
      while i < |q|
        invariant s.q == q && s.dis == dis && s.delay == delay && s.tx == txDelay && s.bw == bw
        invariant if i < |q| then s.Inv(g, payload, host, i, {}) else s.Complete(g, payload, host)
        invariant i <= |q| && Merged(t0, nextHop, host, s)
        invariant unchanged(this`pairDelay) && unchanged(this`pairTxDelay) && unchanged(this`pairBw)
        decreases |g.nodes| - i
      {
        var now := q[i];
        s.QueueBound(g, payload, host);
        var nbrs := if now in links then links[now] else map[];
        var todo := nbrs.Keys;
        assert nbrs.Keys - todo == {};
        while todo != {}
          invariant s.q == q && s.dis == dis && s.delay == delay && s.tx == txDelay && s.bw == bw
          invariant i < |q| && q[i] == now && todo <= nbrs.Keys
          invariant s.Inv(g, payload, host, i, nbrs.Keys - todo)
          decreases todo
          invariant Merged(t0, nextHop, host, s)
          invariant unchanged(this`pairDelay) && unchanged(this`pairTxDelay) && unchanged(this`pairBw)
        {
          var next := Pick(todo);
          ghost var done := nbrs.Keys - todo;
          todo := todo - {next};
          assert done + {next} == nbrs.Keys - todo;
          var link := nbrs[next];
          if !link.up {
            s.SkipKeeps(g, payload, host, i, done, next);
            continue;
          }
          s.Known(g, payload, host, i, next);
          s.StepKeeps(g, payload, host, i, done, next);
          MergeStep(g, payload, t0, nextHop, host, s, now, next);
          s.StepFields(g, payload, now, next);
          s := s.Step(g, payload, now, next);
          if next !in dis {
            dis := dis[next := dis[now] + 1];
            delay := delay[next := Add64(delay[now], link.delay)];
            txDelay := txDelay[next := Add64(txDelay[now], TxTime(payload, link.bw))];
            bw := bw[next := Min(bw[now], link.bw)];
            if next !in hosts {
              q := q + [next];
            }
          }
          if dis[now] + 1 == dis[next] {
            nextHop := nextHop[(next, host) := Entry(nextHop, next, host) + [now]];
          }
        }
        assert nbrs.Keys - todo == nbrs.Keys;
        s.Advance(g, payload, host, i, nbrs.Keys);
        i := i + 1;
      }
      M().StoreMeasures(g, payload, host, s);
      pairDelay := Store(pairDelay, delay, host);
      pairTxDelay := Store(pairTxDelay, txDelay, host);
      pairBw := Store(pairBw, bw, host);
      MergedFrame(t0, nextHop, host, s);
      forall n
        ensures Entry(t0, n, host) <= Entry(nextHop, n, host)
        ensures NextHopList(g, host, n, Entry(nextHop, n, host)[|Entry(t0, n, host)|..])
      {
        MergedComplete(g, payload, host, t0, nextHop, s, n);
      }
    }

    /** One search per host of the node container. */
    method CalculateRoutes()
      requires G().WellFormed() && Distinct(nodes)
      requires nextHop == map[]
      modifies this`nextHop, this`pairDelay, this`pairTxDelay, this`pairBw
      ensures Routed(G(), nextHop)
      ensures forall k | k in nextHop :: k.1 in hosts
      ensures forall h | h in hosts :: M().Measured(G(), payload, h, old(M()))
    {
      hide PairMaps.Measured;
      hide PairMaps.Agree;
      hide NextHopList;
      ghost var g := G();
      var i := 0;
      forall n, h ensures M().Agree(M(), n, h) {
        AgreeRefl(M(), n, h);
      }
      while i < |nodes|
        invariant 0 <= i <= |nodes|
        invariant forall h, n | h in hosts && h in nodes[..i] :: NextHopList(g, h, n, Entry(nextHop, n, h))
        invariant forall k | k in nextHop :: k.1 in nodes[..i] && k.1 in hosts && nextHop[k] != []
        invariant forall h | h in hosts && h in nodes[..i] :: M().Measured(g, payload, h, old(M()))
        invariant forall n, h | h !in nodes[..i] :: M().Agree(old(M()), n, h)
      {
        ghost var mid := M();
        ghost var next := nodes[..i + 1];
        assert next == nodes[..i] + [nodes[i]];
        if nodes[i] in hosts {
          CalculateRoute(nodes[i]);
          forall n, h | h != nodes[i] && h !in nodes[..i] ensures M().Agree(old(M()), n, h) {
            M().AgreeTrans(mid, old(M()), n, h);
          }
          forall h | h in hosts && h in nodes[..i] ensures M().Measured(g, payload, h, old(M())) {
            M().MeasuredKept(g, payload, h, mid, old(M()));
          }
          MeasuredFrom(g, payload, nodes[i], M(), mid, old(M()));
        }
        i := i + 1;
      }
    }

    /** Append the interfaces of all next hops to the forwarding tables. */
    method SetRoutingEntries()
      requires Addressable(G()) && forall k | k in nextHop :: k.1 in hosts
      modifies this`rtTable
      ensures InstalledSoFar(hosts, links, nextHop, nextHop.Keys, old(rtTable), rtTable)
    {
      hide InstalledSoFar;
      hide Ports;
      hide Table;
      hide WithPorts;
      ghost var rt0 := rtTable;
      var todo := nextHop.Keys;
      InstallNone(hosts, links, nextHop, rt0);
      assert nextHop.Keys - todo == {};
      while todo != {}
        invariant todo <= nextHop.Keys
        invariant InstalledSoFar(hosts, links, nextHop, nextHop.Keys - todo, rt0, rtTable)
        decreases todo
      {
        var key := Pick(todo);
        var node, dst := key.0, key.1;
        var dstAddr := NodeIdToIp(dst);
        var nexts := nextHop[key];
        ghost var rt := rtTable;
        ghost var ports := Ports(links, node, nexts);
        NoPorts(rt, node, dstAddr);
        assert ports[..0] == [];
        var k := 0;
        while k < |nexts|
          invariant 0 <= k <= |nexts| && |ports| == |nexts|
          invariant WithPorts(rt, rtTable, node, dstAddr, ports[..k])
        {
          PortAt(links, node, nexts, k);
          OneMorePort(rt, rtTable, node, dstAddr, ports, k);
          rtTable := rtTable[(node, dstAddr) := Table(rtTable, node, dstAddr) + [IfOrDefault(links, node, nexts[k]).idx]];
          k := k + 1;
        }
        ghost var full := rt[(node, dstAddr) := Table(rt, node, dstAddr) + ports];
        assert ports[..|nexts|] == ports;
        AllPorts(rt, rtTable, node, dstAddr, ports, full);
        InstallKey(hosts, links, nextHop, nextHop.Keys - todo, rt0, rt, node, dst, full);
        assert (nextHop.Keys - todo) + {(node, dst)} == nextHop.Keys - (todo - {key});
        InstallSame(hosts, links, nextHop, nextHop.Keys - (todo - {key}), rt0, full, rtTable);
        todo := todo - {key};
      }
      assert nextHop.Keys - todo == nextHop.Keys;
    }

    /** The state between calls: links of a symmetric network, and next hops and
        forwarding tables that are those of the up links. */
    ghost predicate Valid()
      reads this
    {
      && G().WellFormed() && Addressable(G()) && Distinct(nodes)
      && Routed(G(), nextHop) && Installed(G(), nextHop, rtTable)
    }

    /** Initial routing. */
    method SetUpRouting()
      requires G().WellFormed() && Addressable(G()) && Distinct(nodes)
      requires nextHop == map[] && rtTable == map[]
      modifies this`nextHop, this`pairDelay, this`pairTxDelay, this`pairBw, this`rtTable
      ensures Valid()
      ensures forall h | h in hosts :: M().Measured(G(), payload, h, old(M()))
    {
      CalculateRoutes();
      SetRoutingEntries();
      AllInstalled(G(), nextHop, rtTable);
    }

    /** Take down the link between `a` and `b` and redo the routing. */
    method TakeDownLink(a: Node, b: Node)
      requires Valid() && a in nodes && b in nodes
      modifies this`links, this`nextHop, this`pairDelay, this`pairTxDelay, this`pairBw, this`rtTable
      ensures Valid() && WithoutLink(old(G()), G(), a, b)
      ensures if IfOrDefault(old(links), a, b).up
              then forall h | h in hosts :: M().Measured(G(), payload, h, old(M()))
              else M() == old(M())
    {
      hide Net.WellFormed;
      hide Routed;
      hide Installed;
      hide WithoutLink;
      hide SetIf;
      ghost var g := G();
      // a look-up of a missing key inserts the default interface
      var l := IfOrDefault(links, a, b);
      links := SetIf(links, a, b, l);
      LookUpKeeps(g, G(), a, b, nextHop, rtTable);
      if !l.up {
        return;
      }
      ghost var g1 := G();
      links := SetIf(links, a, b, l.(up := false));
      ghost var g2 := G();
      links := SetIf(links, b, a, IfOrDefault(links, b, a).(up := false));
      DownKeeps(g, g1, g2, G(), a, b);
      nextHop := map[];
      CalculateRoutes();
      rtTable := map[];
      SetRoutingEntries();
      AllInstalled(G(), nextHop, rtTable);
    }
  }

  lemma SetIfGet(g: Net, g': Net, a: Node, b: Node, l: Interface)
    requires g' == g.(links := SetIf(g.links, a, b, l))
    ensures forall n, m :: g'.Linked(n, m) <==> g.Linked(n, m) || (n == a && m == b)
    ensures forall n, m | g'.Linked(n, m) :: g'.If(n, m) == if n == a && m == b then l else g.If(n, m)
    ensures forall n, m :: IfOrDefault(g'.links, n, m) == if n == a && m == b then l else IfOrDefault(g.links, n, m)
  {
  }

  lemma LookUpWellFormed(g: Net, g': Net, a: Node, b: Node)
    requires g.WellFormed() && g'.nodes == g.nodes && g'.hosts == g.hosts && a in g.nodes && b in g.nodes
    requires forall n, m :: g'.Linked(n, m) <==> g.Linked(n, m) || (n == a && m == b)
    requires forall n, m | g.Linked(n, m) :: g'.If(n, m) == g.If(n, m)
    requires !g.Linked(a, b) ==> g'.If(a, b) == Interface(0, false, 0, 0)
    ensures g'.WellFormed()
  {
    assert forall n, m :: g'.Up(n, m) <==> g.Up(n, m);
    forall n, m, k | g'.Linked(n, m) && g'.Linked(n, k) && g'.If(n, m).idx == g'.If(n, k).idx > 0 ensures m == k {
      assert g.Linked(n, m) && g.Linked(n, k);
    }
  }

  lemma LookUpKeeps(g: Net, g': Net, a: Node, b: Node, t: NextHops, rt: Tables)
    requires g.WellFormed() && Routed(g, t) && Installed(g, t, rt) && a in g.nodes && b in g.nodes
    requires g' == g.(links := SetIf(g.links, a, b, IfOrDefault(g.links, a, b)))
    ensures g'.WellFormed() && Routed(g', t) && Installed(g', t, rt)
    ensures !IfOrDefault(g.links, a, b).up ==> WithoutLink(g, g', a, b)
  {
    hide Ports;
    hide Entry;
    hide Table;
    hide NodeIdToIp;
    hide SetIf;
    hide Net.NextHop;
    SetIfGet(g, g', a, b, IfOrDefault(g.links, a, b));
    assert forall n, m :: g'.Up(n, m) <==> g.Up(n, m);
    LookUpWellFormed(g, g', a, b);
    forall h, n | h in g.hosts
      ensures NextHopList(g', h, n, Entry(t, n, h))
      ensures Ports(g'.links, n, Entry(t, n, h)) == Ports(g.links, n, Entry(t, n, h))
    {
      SameRoutes(g, g', h);
      SamePorts(g, g', n, Entry(t, n, h));
    }
  }

  lemma SamePorts(g: Net, g': Net, n: Node, hops: seq<Node>)
    requires forall m :: IfOrDefault(g'.links, n, m).idx == IfOrDefault(g.links, n, m).idx
    ensures Ports(g'.links, n, hops) == Ports(g.links, n, hops)
  {
  }

  lemma DownKeeps(g: Net, g1: Net, g2: Net, g': Net, a: Node, b: Node)
    requires g.WellFormed() && g.Up(a, b)
    requires g1 == g.(links := SetIf(g.links, a, b, g.If(a, b)))
    requires g2 == g1.(links := SetIf(g1.links, a, b, g.If(a, b).(up := false)))
    requires g' == g2.(links := SetIf(g2.links, b, a, IfOrDefault(g2.links, b, a).(up := false)))
    ensures g'.WellFormed() && WithoutLink(g, g', a, b)
  {
    hide SetIf;
    SetIfGet(g, g1, a, b, g.If(a, b));
    SetIfGet(g1, g2, a, b, g.If(a, b).(up := false));
    SetIfGet(g2, g', b, a, IfOrDefault(g2.links, b, a).(up := false));
    assert g.Up(b, a);
    assert forall n, m :: g'.Linked(n, m) <==> g.Linked(n, m);
    DownOnly(g, g', a, b);
  }

  lemma DownOnly(g: Net, g': Net, a: Node, b: Node)
    requires g.WellFormed() && g'.nodes == g.nodes && g'.hosts == g.hosts
    requires forall n, m :: g'.Linked(n, m) <==> g.Linked(n, m)
    requires forall n, m | g.Linked(n, m) ::
               g'.If(n, m) == if (n == a && m == b) || (n == b && m == a) then g.If(n, m).(up := false) else g.If(n, m)
    ensures g'.WellFormed() && WithoutLink(g, g', a, b)
  {
    assert forall n, m :: g'.Up(n, m) <==> g.Up(n, m) && !(n == a && m == b) && !(n == b && m == a);
  }

  /** Routes, hence distances and next hops, depend on the up links only. */
  lemma SameRoutes(g: Net, g': Net, host: Node)
    requires g'.nodes == g.nodes && g'.hosts == g.hosts && forall n, m :: g'.Up(n, m) <==> g.Up(n, m)
    ensures forall n, d: nat :: g'.Dist(host, n, d) <==> g.Dist(host, n, d)
    ensures forall n, m :: g'.NextHop(host, n, m) <==> g.NextHop(host, n, m)
  {
  }

  lemma AllInstalled(g: Net, t: NextHops, rt: Tables)
    requires InstalledSoFar(g.hosts, g.links, t, t.Keys, map[], rt)
    ensures Installed(g, t, rt)
  {
  }

  /** `g'` is `g` with the link between `a` and `b` down and everything else as it was. */
  ghost predicate WithoutLink(g: Net, g': Net, a: Node, b: Node) {
    && g'.nodes == g.nodes && g'.hosts == g.hosts
    && (forall n, m :: g'.Up(n, m) <==> g.Up(n, m) && !(n == a && m == b) && !(n == b && m == a))
    && (forall n, m | g.Linked(n, m) :: g'.Linked(n, m) && g'.If(n, m) == g.If(n, m).(up := g'.Up(n, m)))
  }
}
