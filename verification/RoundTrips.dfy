/** Round-trip times and bandwidth-delay products of all host pairs. */
module RoundTrips {
  import opened Topology
  import opened Routing

  function Get(t: Pairs, a: Node, b: Node): int { if (a, b) in t then t[(a, b)] else 0 }

  /** `value` is `x` reduced to 64 bits. */
  ghost predicate Reduced(value: int, x: int) {
    0 <= value < 0x1_0000_0000_0000_0000 && (x - value) % 0x1_0000_0000_0000_0000 == 0
  }

  /** `bdp` is the whole number of bytes that come at `bw` bits a second in `rtt` nanoseconds, the product having been reduced
      to 64 bits. */
  ghost predicate IsBdp(rtt: int, bw: int, bdp: int) {
    exists product :: Reduced(product, rtt * bw) && 8 * 1_000_000_000 * bdp <= product < 8 * 1_000_000_000 * (bdp + 1)
  }

  lemma WrapReduces(x: int)
    ensures Reduced(Wrap(x), x)
  {
  }

  /** Twice the one-way delay plus the transmit times, in 64-bit arithmetic. */
  function Rtt(m: PairMaps, a: Node, b: Node): int {
    Add64(Wrap(Get(m.delay, a, b) * 2), Get(m.tx, a, b))
  }

  function Bdp(m: PairMaps, a: Node, b: Node): int {
    Wrap(Rtt(m, a, b) * Get(m.bw, a, b)) / 1_000_000_000 / 8
  }

  lemma ValuesAre(m: PairMaps, a: Node, b: Node)
    ensures Reduced(Rtt(m, a, b), 2 * Get(m.delay, a, b) + Get(m.tx, a, b))
    ensures IsBdp(Rtt(m, a, b), Get(m.bw, a, b), Bdp(m, a, b))
  {
    Mod64(Get(m.delay, a, b), Get(m.tx, a, b));
    RttWraps(m, a, b);
    var product := Wrap(Rtt(m, a, b) * Get(m.bw, a, b));
    WrapReduces(Rtt(m, a, b) * Get(m.bw, a, b));
    hide Wrap;
    hide Rtt;
    assert product / 1_000_000_000 / 8 == product / 8_000_000_000;
  }

  lemma RttWraps(m: PairMaps, a: Node, b: Node)
    ensures Reduced(Rtt(m, a, b), 2 * Get(m.delay, a, b) + Get(m.tx, a, b))
  {
    var d, t := Get(m.delay, a, b), Get(m.tx, a, b);
    assert Rtt(m, a, b) == Wrap(2 * d + t) by {
      AddMod(d * 2, t);
    }
    WrapReduces(2 * d + t);
  }

  /** What the tables hold for two hosts, from what has been measured; what has not counts as zero. */
  ghost predicate PairHolds(m: PairMaps, pairRtt: Pairs, pairBdp: Pairs, a: Node, b: Node) {
    && (a, b) in pairRtt && (a, b) in pairBdp
    && Reduced(pairRtt[(a, b)], 2 * (if (a, b) in m.delay then m.delay[(a, b)] else 0) + if (a, b) in m.tx then m.tx[(a, b)] else 0)
    && IsBdp(pairRtt[(a, b)], if (a, b) in m.bw then m.bw[(a, b)] else 0, pairBdp[(a, b)])
  }

  lemma AllHold(nodes: seq<Node>, hosts: set<Node>, m: PairMaps, f: (Node, Node) -> int, h: (Node, Node) -> int,
                pairRtt: Pairs, pairBdp: Pairs)
    requires Symmetric(nodes, hosts, f, pairRtt, |nodes|, 0) && Symmetric(nodes, hosts, h, pairBdp, |nodes|, 0)
    requires forall a, b :: f(a, b) == Rtt(m, a, b) && h(a, b) == Bdp(m, a, b)
    ensures forall x, y | Done(nodes, hosts, x, y, |nodes|, 0) :: PairHolds(m, pairRtt, pairBdp, nodes[x], nodes[y])
  {
    hide Symmetric;
    hide Rtt;
    hide Bdp;
    hide IsBdp;
    hide Reduced;
    forall x, y | Done(nodes, hosts, x, y, |nodes|, 0) ensures PairHolds(m, pairRtt, pairBdp, nodes[x], nodes[y]) {
      SymmetricAt(nodes, hosts, f, pairRtt, x, y);
      SymmetricAt(nodes, hosts, h, pairBdp, x, y);
      ValuesAre(m, nodes[x], nodes[y]);
    }
  }

  lemma SymmetricAt(nodes: seq<Node>, hosts: set<Node>, f: (Node, Node) -> int, t: Pairs, x: int, y: int)
    requires Symmetric(nodes, hosts, f, t, |nodes|, 0) && Done(nodes, hosts, x, y, |nodes|, 0)
    ensures (nodes[x], nodes[y]) in t && t[(nodes[x], nodes[y])] == f(nodes[x], nodes[y])
  {
  }

  /** Container positions of two hosts whose pair has been handled when the loops are at `i`, `j`. */
  ghost predicate Done(nodes: seq<Node>, hosts: set<Node>, x: int, y: int, i: int, j: int) {
    0 <= x < y < |nodes| && nodes[x] in hosts && nodes[y] in hosts && (x < i || (x == i && y < j))
  }

  /** Both directions of every handled pair hold the value computed from the pair in container order. */
  ghost predicate Symmetric(nodes: seq<Node>, hosts: set<Node>, f: (Node, Node) -> int, t: Pairs, i: int, j: int) {
    forall x, y | Done(nodes, hosts, x, y, i, j) ::
      && (nodes[x], nodes[y]) in t && (nodes[y], nodes[x]) in t
      && t[(nodes[x], nodes[y])] == f(nodes[x], nodes[y]) == t[(nodes[y], nodes[x])]
  }

  /** `max` bounds the values of the handled pairs and, unless 0, is one of them. */
  ghost predicate Maximum(nodes: seq<Node>, hosts: set<Node>, f: (Node, Node) -> int, max: int, i: int, j: int) {
    && max >= 0
    && (forall x, y | Done(nodes, hosts, x, y, i, j) :: f(nodes[x], nodes[y]) <= max)
    && (max > 0 ==> exists x, y :: Done(nodes, hosts, x, y, i, j) && f(nodes[x], nodes[y]) == max)
  }

  lemma SymmetricStep(nodes: seq<Node>, hosts: set<Node>, f: (Node, Node) -> int, t: Pairs, i: int, j: int)
    requires Distinct(nodes) && 0 <= i < j < |nodes| && Symmetric(nodes, hosts, f, t, i, j)
    ensures var a, b := nodes[i], nodes[j];
            Symmetric(nodes, hosts, f, if a in hosts && b in hosts then t[(a, b) := f(a, b)][(b, a) := f(a, b)] else t, i, j + 1)
  {
  }

  lemma MaximumStep(nodes: seq<Node>, hosts: set<Node>, f: (Node, Node) -> int, max: int, i: int, j: int)
    requires 0 <= i < j < |nodes| && Maximum(nodes, hosts, f, max, i, j)
    ensures var a, b := nodes[i], nodes[j];
            Maximum(nodes, hosts, f, if a in hosts && b in hosts && f(a, b) > max then f(a, b) else max, i, j + 1)
  {
  }

  /** The end of a row is the start of the next. */
  lemma NextRow(nodes: seq<Node>, hosts: set<Node>, f: (Node, Node) -> int, t: Pairs, max: int, i: int)
    requires Symmetric(nodes, hosts, f, t, i, |nodes|) && Maximum(nodes, hosts, f, max, i, |nodes|)
    ensures Symmetric(nodes, hosts, f, t, i + 1, i + 2) && Maximum(nodes, hosts, f, max, i + 1, i + 2)
  {
  }

  class Baseline {
    const nodes: seq<Node>
    const hosts: set<Node>
    const measures: PairMaps
    var pairRtt: Pairs
    var pairBdp: Pairs
    var maxRtt: int
    var maxBdp: int

    constructor (nodes: seq<Node>, hosts: set<Node>, measures: PairMaps)
      ensures this.nodes == nodes && this.hosts == hosts && this.measures == measures
    {
      this.nodes, this.hosts, this.measures := nodes, hosts, measures;
      pairRtt, pairBdp, maxRtt, maxBdp := map[], map[], 0, 0;
    }

    /** The tables of all host pairs are symmetric and hold the values of the pair in container
        order; the maxima bound every entry and are attained. */
    method Measure()
      requires Distinct(nodes)
      modifies this
      ensures Symmetric(nodes, hosts, (a, b) => Rtt(measures, a, b), pairRtt, |nodes|, 0)
      ensures Symmetric(nodes, hosts, (a, b) => Bdp(measures, a, b), pairBdp, |nodes|, 0)
      ensures forall x, y | Done(nodes, hosts, x, y, |nodes|, 0) :: PairHolds(measures, pairRtt, pairBdp, nodes[x], nodes[y])
      ensures Maximum(nodes, hosts, (a, b) => Rtt(measures, a, b), maxRtt, |nodes|, 0)
      ensures Maximum(nodes, hosts, (a, b) => Bdp(measures, a, b), maxBdp, |nodes|, 0)
    {
      hide Symmetric;
      hide Maximum;
      hide Rtt;
      hide Bdp;
      ghost var rttOf := (a, b) => Rtt(measures, a, b);
      ghost var bdpOf := (a, b) => Bdp(measures, a, b);
      maxRtt, maxBdp := 0, 0;
      None(nodes, hosts, rttOf, pairRtt);
      None(nodes, hosts, bdpOf, pairBdp);
      var i := 0;
      while i < |nodes|
        invariant 0 <= i <= |nodes|
        invariant Symmetric(nodes, hosts, rttOf, pairRtt, i, i + 1) && Symmetric(nodes, hosts, bdpOf, pairBdp, i, i + 1)
        invariant Maximum(nodes, hosts, rttOf, maxRtt, i, i + 1) && Maximum(nodes, hosts, bdpOf, maxBdp, i, i + 1)
      {
        var j := i + 1;
        while j < |nodes|
          invariant i < j <= |nodes|
          invariant Symmetric(nodes, hosts, rttOf, pairRtt, i, j) && Symmetric(nodes, hosts, bdpOf, pairBdp, i, j)
          invariant Maximum(nodes, hosts, rttOf, maxRtt, i, j) && Maximum(nodes, hosts, bdpOf, maxBdp, i, j)
        {
          SymmetricStep(nodes, hosts, rttOf, pairRtt, i, j);
          SymmetricStep(nodes, hosts, bdpOf, pairBdp, i, j);
          MaximumStep(nodes, hosts, rttOf, maxRtt, i, j);
          MaximumStep(nodes, hosts, bdpOf, maxBdp, i, j);
          if nodes[i] in hosts && nodes[j] in hosts {
            var a, b := nodes[i], nodes[j];
            var rtt := Rtt(measures, a, b);
            var bdp := Bdp(measures, a, b);
            pairBdp := pairBdp[(a, b) := bdp][(b, a) := bdp];
            pairRtt := pairRtt[(a, b) := rtt][(b, a) := rtt];
            if bdp > maxBdp { maxBdp := bdp; }
            if rtt > maxRtt { maxRtt := rtt; }
          }
          j := j + 1;
        }
        NextRow(nodes, hosts, rttOf, pairRtt, maxRtt, i);
        NextRow(nodes, hosts, bdpOf, pairBdp, maxBdp, i);
        i := i + 1;
      }
      Last(nodes, hosts, rttOf, pairRtt, maxRtt);
      Last(nodes, hosts, bdpOf, pairBdp, maxBdp);
      AllHold(nodes, hosts, measures, rttOf, bdpOf, pairRtt, pairBdp);
      hide PairHolds;
    }
  }

  lemma None(nodes: seq<Node>, hosts: set<Node>, f: (Node, Node) -> int, t: Pairs)
    ensures Symmetric(nodes, hosts, f, t, 0, 1) && Maximum(nodes, hosts, f, 0, 0, 1)
  {
  }

  lemma Last(nodes: seq<Node>, hosts: set<Node>, f: (Node, Node) -> int, t: Pairs, max: int)
    requires Symmetric(nodes, hosts, f, t, |nodes|, |nodes| + 1) && Maximum(nodes, hosts, f, max, |nodes|, |nodes| + 1)
    ensures Symmetric(nodes, hosts, f, t, |nodes|, 0) && Maximum(nodes, hosts, f, max, |nodes|, 0)
  {
  }

  // ---- meaning of a measured pair -----------------------------------------------------

  function Sum(s: seq<int>): int { if s == [] then 0 else s[0] + Sum(s[1..]) }

  lemma {:induction false} SumSnoc(s: seq<int>, x: int)
    ensures Sum(s + [x]) == Sum(s) + x
  {
    if s != [] {
      assert (s + [x])[1..] == s[1..] + [x];
      SumSnoc(s[1..], x);
    }
  }

  /** The link used in the `i`-th hop of a route. */
  ghost function Hop(g: Net, p: seq<Node>, i: int): Interface
    requires g.Route(p) && 0 <= i < |p| - 1
  {
    assert g.Up(p[i], p[i + 1]);
    g.If(p[i], p[i + 1])
  }

  ghost function Delays(g: Net, p: seq<Node>): seq<int>
    requires g.Route(p)
  {
    seq(|p| - 1, i requires 0 <= i < |p| - 1 => Hop(g, p, i).delay)
  }

  ghost function TxTimes(g: Net, payload: nat, p: seq<Node>): seq<int>
    requires g.WellFormed() && g.Route(p)
  {
    seq(|p| - 1, i requires 0 <= i < |p| - 1 => assert g.Up(p[i], p[i + 1]); TxTime(payload, Hop(g, p, i).bw))
  }

  /** The hops of a route are those of its prefix and the last one. */
  lemma LastHop(g: Net, payload: nat, p: seq<Node>)
    requires g.WellFormed() && g.Route(p) && |p| > 1 && g.Route(p[..|p| - 1])
    ensures var q, l := p[..|p| - 1], Hop(g, p, |p| - 2);
            && l.bw > 0 && (forall i | 0 <= i < |q| - 1 :: Hop(g, p, i) == Hop(g, q, i))
            && Sum(Delays(g, p)) == Sum(Delays(g, q)) + l.delay
            && Sum(TxTimes(g, payload, p)) == Sum(TxTimes(g, payload, q)) + TxTime(payload, l.bw)
  {
    var k := |p| - 2;
    var q := p[..|p| - 1];
    assert forall i | 0 <= i < k :: Hop(g, q, i) == Hop(g, p, i);
    assert Delays(g, p) == Delays(g, q) + [Hop(g, p, k).delay];
    assert g.Up(p[k], p[k + 1]);
    assert TxTimes(g, payload, p) == TxTimes(g, payload, q) + [TxTime(payload, Hop(g, p, k).bw)];
    SumSnoc(Delays(g, q), Hop(g, p, k).delay);
    SumSnoc(TxTimes(g, payload, q), TxTime(payload, Hop(g, p, k).bw));
  }

  /** `t` is the whole number of nanoseconds that `payload` bytes take at `bw` bits a second, the product having been
      reduced to 64 bits. */
  ghost predicate IsTxTime(payload: nat, bw: nat, t: int) {
    var bits := 8 * payload * 1_000_000_000;
    var product := if bits < 0x1_0000_0000_0000_0000 then bits else bits % 0x1_0000_0000_0000_0000;
    0 <= t && t * bw <= product < (t + 1) * bw
  }

  lemma Quotient(p: nat, n: nat) returns (q: nat)
    requires n > 0
    ensures q == p / n && q * n <= p < (q + 1) * n && q <= p
  {
    q := p / n;
    var r := p % n;
    assert p == q * n + r;
    Bounds(p, n, q, r);
  }

  lemma Bounds(p: nat, n: nat, q: nat, r: nat)
    requires p == q * n + r && r < n
    ensures q * n <= p < (q + 1) * n && q <= p
  {
    assert (q + 1) * n == q * n + n;
    assert q <= q * n;
  }

  lemma TxTimeIs(payload: nat, bw: nat)
    requires IsRate(bw)
    ensures IsTxTime(payload, bw, TxTime(payload, bw)) && TxTime(payload, bw) < 0x1_0000_0000_0000_0000
  {
    var product := (payload * 8_000_000_000) % 0x1_0000_0000_0000_0000;
    assert payload * 8_000_000_000 == 8 * payload * 1_000_000_000;
    var t := Quotient(product, bw);
  }

  /** Every link's part of the transmit times is the time it takes. */
  lemma TxTimesAre(g: Net, payload: nat, p: seq<Node>, i: nat)
    requires g.WellFormed() && g.Route(p) && i < |p| - 1
    ensures IsTxTime(payload, Hop(g, p, i).bw, TxTimes(g, payload, p)[i])
  {
    assert g.Up(p[i], p[i + 1]);
    TxTimeIs(payload, Hop(g, p, i).bw);
  }

  /** The sum of the link delays and of the times the packet takes on each link, `times`. */
  ghost predicate AreTxTimes(g: Net, payload: nat, p: seq<Node>, times: seq<int>)
    requires g.Route(p)
  {
    |times| == |p| - 1 && forall i | 0 <= i < |times| :: IsTxTime(payload, Hop(g, p, i).bw, times[i])
  }

  lemma AllTxTimes(g: Net, payload: nat, p: seq<Node>)
    requires g.WellFormed() && g.Route(p)
    ensures AreTxTimes(g, payload, p, TxTimes(g, payload, p))
  {
    forall i: nat | i < |p| - 1 { TxTimesAre(g, payload, p, i); }
    hide IsTxTime;
  }

  lemma AddMod(x: int, y: int)
    ensures Add64(Wrap(x), y) == Wrap(x + y)
  {
  }

  /** The accumulated times are the sums over the hops, reduced to 64 bits. */
  lemma {:induction false} CostIsSum(g: Net, payload: nat, p: seq<Node>)
    requires g.WellFormed() && g.Route(p)
    ensures RouteCost(g, payload, p).delay == Wrap(Sum(Delays(g, p)))
    ensures RouteCost(g, payload, p).tx == Wrap(Sum(TxTimes(g, payload, p)))
    ensures Reduced(RouteCost(g, payload, p).delay, Sum(Delays(g, p)))
    ensures Reduced(RouteCost(g, payload, p).tx, Sum(TxTimes(g, payload, p)))
    ensures AreTxTimes(g, payload, p, TxTimes(g, payload, p))
    decreases |p|
  {
    AllTxTimes(g, payload, p);
    WrapReduces(Sum(Delays(g, p)));
    WrapReduces(Sum(TxTimes(g, payload, p)));
    hide AreTxTimes;
    hide Reduced;
    hide Sum;
    hide Delays;
    hide TxTimes;
    if |p| == 1 {
      NoHop(g, payload, p);
    } else {
      g.RoutePrefix(p, |p| - 2);
      var q := p[..|p| - 1];
      CostIsSum(g, payload, q);
      LastHop(g, payload, p);
      AddMod(Sum(Delays(g, q)), Hop(g, p, |p| - 2).delay);
      AddMod(Sum(TxTimes(g, payload, q)), TxTime(payload, Hop(g, p, |p| - 2).bw));
    }
  }

  lemma NoHop(g: Net, payload: nat, p: seq<Node>)
    requires g.WellFormed() && g.Route(p) && |p| == 1
    ensures Sum(Delays(g, p)) == 0 && Sum(TxTimes(g, payload, p)) == 0
  {
  }

  /** `bw` bounds the rates of the hops from below and is one of them; without a hop it is the start value. */
  ghost predicate LeastRate(g: Net, p: seq<Node>, bw: int)
    requires g.Route(p)
  {
    if |p| == 1 then bw == BW_MAX
    else (forall i | 0 <= i < |p| - 1 :: bw <= Hop(g, p, i).bw) && exists i :: 0 <= i < |p| - 1 && bw == Hop(g, p, i).bw
  }

  lemma LastRate(g: Net, p: seq<Node>)
    requires g.WellFormed() && g.Route(p) && |p| > 1
    ensures IsRate(Hop(g, p, |p| - 2).bw)
  {
    assert g.Up(p[|p| - 2], p[|p| - 2 + 1]);
  }

  lemma RateStep(g: Net, p: seq<Node>, q: seq<Node>, bw: int)
    requires g.WellFormed() && g.Route(p) && |p| > 1 && g.Route(q) && q == p[..|p| - 1] && LeastRate(g, q, bw)
    ensures LeastRate(g, p, Min(bw, Hop(g, p, |p| - 2).bw))
  {
    var l := Hop(g, p, |p| - 2);
    LastRate(g, p);
    hide Net.WellFormed;
    assert forall i | 0 <= i < |q| - 1 :: Hop(g, p, i) == Hop(g, q, i);
    if bw < l.bw {
      var i :| 0 <= i < |q| - 1 && bw == Hop(g, q, i).bw;
      assert bw == Hop(g, p, i).bw;
    }
  }

  /** The rate is the least over the hops. */
  lemma {:induction false} CostIsLeastRate(g: Net, payload: nat, p: seq<Node>)
    requires g.WellFormed() && g.Route(p)
    ensures LeastRate(g, p, RouteCost(g, payload, p).bw)
    decreases |p|
  {
    hide LeastRate;
    if |p| > 1 {
      g.RoutePrefix(p, |p| - 2);
      CostIsLeastRate(g, payload, p[..|p| - 1]);
      RateStep(g, p, p[..|p| - 1], RouteCost(g, payload, p[..|p| - 1]).bw);
      LastCost(g, payload, p);
    } else {
      NoHopRate(g, payload, p);
    }
  }

  lemma NoHopRate(g: Net, payload: nat, p: seq<Node>)
    requires g.WellFormed() && g.Route(p) && |p| == 1
    ensures LeastRate(g, p, RouteCost(g, payload, p).bw)
  {
  }

  lemma LastCost(g: Net, payload: nat, p: seq<Node>)
    requires g.WellFormed() && g.Route(p) && |p| > 1 && g.Route(p[..|p| - 1])
    ensures RouteCost(g, payload, p).bw == Min(RouteCost(g, payload, p[..|p| - 1]).bw, Hop(g, p, |p| - 2).bw)
  {
  }

  /** The measured transmit time of a host and its neighbour is that of their link. */
  lemma OneHopTx(g: Net, payload: nat, m: PairMaps, before: PairMaps, a: Node, b: Node)
    requires g.WellFormed() && m.Measured(g, payload, b, before) && g.Up(b, a) && a != b
    ensures (a, b) in m.tx && IsTxTime(payload, g.If(b, a).bw, m.tx[(a, b)])
    ensures (a, b) in m.delay && Reduced(m.delay[(a, b)], g.If(b, a).delay)
  {
    NeighbourRoute(g, b, a);
    hide Net.WellFormed;
    hide Net.RouteTo;
    hide Net.Dist;
    hide IsTxTime;
    hide Reduced;
    var c :| m.Has(a, b, c) && ShortestCost(g, payload, b, a, c);
    var p :| g.RouteTo(b, a, p) && g.Dist(b, a, |p| - 1) && RouteCost(g, payload, p) == c;
    assert p == [b, a];
    OneHopCost(g, payload, b, a);
  }

  lemma NeighbourRoute(g: Net, b: Node, a: Node)
    requires g.Up(b, a) && a != b
    ensures g.Reached(b, a) && g.Route([b, a])
    ensures forall p | g.RouteTo(b, a, p) && g.Dist(b, a, |p| - 1) :: p == [b, a]
  {
    assert g.RouteTo(b, a, [b, a]);
  }

  lemma OneHopCost(g: Net, payload: nat, b: Node, a: Node)
    requires g.WellFormed() && g.Up(b, a) && g.Route([b, a])
    ensures IsTxTime(payload, g.If(b, a).bw, RouteCost(g, payload, [b, a]).tx)
    ensures Reduced(RouteCost(g, payload, [b, a]).delay, g.If(b, a).delay)
  {
    var l := g.If(b, a);
    var t := OneHopIs(g, payload, b, a);
    hide RouteCost;
    hide IsTxTime;
    hide Reduced;
    hide TxTime;
    hide Wrap;
    TxTimeIs(payload, l.bw);
    WrapReduces(l.delay);
    SmallStays(t);
  }

  lemma SmallStays(x: int)
    requires 0 <= x < TWO_64
    ensures Wrap(x) == x
  {
  }

  lemma OneHopIs(g: Net, payload: nat, b: Node, a: Node) returns (t: int)
    requires g.WellFormed() && g.Up(b, a) && g.Route([b, a])
    ensures IsRate(g.If(b, a).bw) && t == TxTime(payload, g.If(b, a).bw)
    ensures RouteCost(g, payload, [b, a]).tx == Wrap(t) && RouteCost(g, payload, [b, a]).delay == Wrap(g.If(b, a).delay)
  {
    var p := [b, a];
    g.RoutePrefix(p, 0);
    assert p[..|p| - 1] == [b] && RouteCost(g, payload, [b]) == Cost(0, 0, BW_MAX);
    t := TxTime(payload, g.If(b, a).bw);
  }

  ghost predicate ShortestRoute(g: Net, b: Node, a: Node, p: seq<Node>) {
    g.RouteTo(b, a, p) && g.Dist(b, a, |p| - 1)
  }

  ghost predicate Explains(g: Net, payload: nat, m: PairMaps, a: Node, b: Node, p: seq<Node>)
    requires g.WellFormed() && g.Route(p)
  {
    && Reduced(Rtt(m, a, b), 2 * Sum(Delays(g, p)) + Sum(TxTimes(g, payload, p)))
    && AreTxTimes(g, payload, p, TxTimes(g, payload, p))
    && LeastRate(g, p, Get(m.bw, a, b))
  }

  /** The round-trip time of a reached pair is twice the delays plus the transmit times of one and
      the same shortest route, the rate used for the bandwidth-delay product its least link rate. */
  lemma RttOfRoute(g: Net, payload: nat, m: PairMaps, before: PairMaps, a: Node, b: Node)
    requires g.WellFormed() && m.Measured(g, payload, b, before) && g.Reached(b, a)
    ensures exists p :: ShortestRoute(g, b, a, p) && Explains(g, payload, m, a, b, p)
  {
    hide Explains;
    var c :| m.Has(a, b, c) && ShortestCost(g, payload, b, a, c);
    var p :| g.RouteTo(b, a, p) && g.Dist(b, a, |p| - 1) && RouteCost(g, payload, p) == c;
    RttOfCost(g, payload, m, a, b, p);
    assert ShortestRoute(g, b, a, p);
  }

  lemma RttOfCost(g: Net, payload: nat, m: PairMaps, a: Node, b: Node, p: seq<Node>)
    requires g.WellFormed() && g.Route(p) && m.Has(a, b, RouteCost(g, payload, p))
    ensures Explains(g, payload, m, a, b, p)
  {
    hide Reduced;
    hide AreTxTimes;
    hide LeastRate;
    hide Sum;
    hide Delays;
    hide TxTimes;
    hide Wrap;
    CostIsSum(g, payload, p);
    CostIsLeastRate(g, payload, p);
    Mod64(Sum(Delays(g, p)), Sum(TxTimes(g, payload, p)));
    WrapReduces(2 * Sum(Delays(g, p)) + Sum(TxTimes(g, payload, p)));
  }

  lemma Mod64(x: int, y: int)
    ensures Add64(Wrap(Wrap(x) * 2), Wrap(y)) == Wrap(2 * x + y)
  {
    var u := (x % TWO_64) * 2;
    AddMod(u, y % TWO_64);
    assert 2 * x + y == u + y % TWO_64 + TWO_64 * (2 * (x / TWO_64) + y / TWO_64);
  }
}
