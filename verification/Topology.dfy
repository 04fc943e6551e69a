/** The simulated network as a value: hosts, switches and the directed halves of
    its links, with the routes that packets may take through it. */
module Topology {

  type Node = int

  /** One end of a link: interface index, state, propagation delay (ns) and rate (bit/s). */
  datatype Interface = Interface(idx: nat, up: bool, delay: nat, bw: nat)

  const TWO_64: nat := 0x1_0000_0000_0000_0000

  /** Rates are positive 64-bit numbers. */
  predicate IsRate(bw: int) { 0 < bw < TWO_64 }

  ghost predicate Distinct(s: seq<Node>) { forall i, j | 0 <= i < j < |s| :: s[i] != s[j] }

  type Links = map<Node, map<Node, Interface>>

  datatype Net = Net(nodes: set<Node>, hosts: set<Node>, links: Links) {

    ghost predicate Switch(n: Node) { n in nodes && n !in hosts }

    /** `m` is in the neighbour map of `n`, whatever the state of the link. */
    ghost predicate Linked(n: Node, m: Node) { n in links && m in links[n] }

    ghost predicate Up(n: Node, m: Node) { Linked(n, m) && links[n][m].up }

    ghost function If(n: Node, m: Node): Interface
      requires Linked(n, m)
    {
      links[n][m]
    }

    /** What building the topology from a link list guarantees: both halves of a link
        exist and go up and down together, a node's interfaces are numbered apart from 1,
        and rates are positive 64-bit numbers. */
    ghost predicate WellFormed() {
      && hosts <= nodes
      && (forall n, m | Linked(n, m) :: n in nodes && m in nodes)
      && (forall n, m | Up(n, m) :: Up(m, n))
      && (forall n, m | Up(n, m) :: IsRate(If(n, m).bw) && If(n, m).idx > 0)
      && (forall n, m, k | Linked(n, m) && Linked(n, k) && If(n, m).idx == If(n, k).idx > 0 :: m == k)
    }

    /** A route: consecutive nodes joined by up links, every interior node a switch. */
    ghost predicate Route(p: seq<Node>) {
      && |p| >= 1
      && (forall i | 0 <= i < |p| - 1 :: Up(p[i], p[i + 1]))
      && (forall i | 0 < i < |p| - 1 :: Switch(p[i]))
    }

    ghost predicate RouteTo(host: Node, n: Node, p: seq<Node>) {
      Route(p) && p[0] == host && p[|p| - 1] == n
    }

    /** `d` is the least number of hops of any route between `host` and `n`. */
    ghost predicate Dist(host: Node, n: Node, d: nat) {
      && (exists p :: RouteTo(host, n, p) && |p| == d + 1)
      && (forall p | RouteTo(host, n, p) :: |p| >= d + 1)
    }

    ghost predicate Reached(host: Node, n: Node) { exists p :: RouteTo(host, n, p) }

    /** `m` forwards traffic of `n` towards `host` along a shortest route. */
    ghost predicate NextHop(host: Node, n: Node, m: Node) {
      && (m == host || Switch(m))
      && Up(m, n)
      && exists d: nat :: Dist(host, m, d) && Dist(host, n, d + 1)
    }

    lemma DistUnique(host: Node, n: Node, d: nat, e: nat)
      requires Dist(host, n, d) && Dist(host, n, e)
      ensures d == e
    {
    }

    lemma DistSeparates(host: Node, n: Node, d: nat, m: Node, e: nat)
      requires Dist(host, n, d) && Dist(host, m, e) && d != e
      ensures n != m
    {
    }

    /** A reached node has a distance. */
    lemma {:induction false} DistExists(host: Node, n: Node, p: seq<Node>) returns (d: nat)
      requires RouteTo(host, n, p)
      ensures Dist(host, n, d) && d + 1 <= |p|
      decreases |p|
    {
      if q :| RouteTo(host, n, q) && |q| < |p| {
        d := DistExists(host, n, q);
      } else {
        d := |p| - 1;
      }
    }

    lemma RoutePrefix(p: seq<Node>, i: nat)
      requires Route(p) && i < |p|
      ensures Route(p[..i + 1])
    {
    }

    lemma RouteExtend(p: seq<Node>, n: Node)
      requires Route(p) && Up(p[|p| - 1], n)
      requires |p| == 1 || Switch(p[|p| - 1])
      ensures Route(p + [n])
    {
    }

  }

  function SetIf(links: Links, n: Node, m: Node, l: Interface): Links {
    links[n := (if n in links then links[n] else map[])[m := l]]
  }

  /** An arbitrary element: the iteration order of a map of the program is not modelled. */
  method Pick<T>(s: set<T>) returns (x: T)
    requires s != {}
    ensures x in s
  {
    x :| x in s;
  }

  function Reverse(p: seq<Node>): (q: seq<Node>)
    ensures |q| == |p|
    ensures forall i | 0 <= i < |p| :: q[i] == p[|p| - 1 - i]
  {
    seq(|p|, i requires 0 <= i < |p| => p[|p| - 1 - i])
  }
}
