/** What packets experience when every node forwards by its table. */
module Forwarding {
  import opened Topology
  import opened Routing

  /** A network whose tables have just been installed. */
  datatype Fabric = Fabric(g: Net, t: NextHops, rt: Tables) {

    ghost predicate Valid() {
      && g.WellFormed() && Addressable(g)
      && Routed(g, t) && Installed(g, t, rt)
    }

    function Entries(host: Node, n: Node): seq<int> { Table(rt, n, NodeIdToIp(host)) }

    /** `n` may hand a packet for `host` to `m`: some entry names the interface towards `m`. */
    ghost predicate Forwards(host: Node, n: Node, m: Node) {
      g.Linked(n, m) && g.If(n, m).idx in Entries(host, n)
    }

    /** A packet for `host` may travel along `w`. */
    ghost predicate Walk(host: Node, w: seq<Node>) {
      |w| >= 1 && forall i | 0 <= i < |w| - 1 :: Forwards(host, w[i], w[i + 1])
    }

    lemma ValidParts()
      requires Valid()
      ensures g.WellFormed() && Addressable(g)
    {
    }

    lemma EntriesOf(host: Node, n: Node)
      requires Valid() && host in g.hosts
      ensures NextHopList(g, host, n, Entry(t, n, host))
      ensures Entries(host, n) == Ports(g.links, n, Entry(t, n, host))
    {
    }

    /** The entries are the interfaces of the next hops, each once; in particular none
        belongs to a link that is down. */
    lemma EntriesAreNextHops(host: Node, n: Node)
      requires Valid() && host in g.hosts
      ensures forall m :: Forwards(host, n, m) <==> g.NextHop(host, n, m)
      ensures forall port | port in Entries(host, n) :: exists m :: g.Up(n, m) && g.If(n, m).idx == port
      ensures Distinct(Entries(host, n))
    {
      hide Installed;
      hide Routed;
      EntriesOf(host, n);
      var hops := Entry(t, n, host);
      forall k | 0 <= k < |hops| ensures g.NextHop(host, n, hops[k]) && g.Up(n, hops[k]) &&
                                         Entries(host, n)[k] == g.If(n, hops[k]).idx > 0 {
        assert hops[k] in hops;
        assert g.Up(hops[k], n);
      }
      forall m | g.NextHop(host, n, m) ensures Forwards(host, n, m) {
        var k :| 0 <= k < |hops| && hops[k] == m;
        assert Entries(host, n)[k] == g.If(n, m).idx;
      }
      forall m | Forwards(host, n, m) ensures g.NextHop(host, n, m) {
        var k :| 0 <= k < |hops| && Entries(host, n)[k] == g.If(n, m).idx;
        assert g.Linked(n, hops[k]);
      }
    }

    /** A node at a positive distance has a next hop. */
    lemma NextHopExists(host: Node, n: Node, d: nat) returns (m: Node)
      requires g.Dist(host, n, d) && d > 0
      ensures g.NextHop(host, n, m)
    {
      var p :| g.RouteTo(host, n, p) && |p| == d + 1;
      m := p[d - 1];
      g.RoutePrefix(p, d - 1);
      assert g.Up(p[d - 1], p[d - 1 + 1]);
      assert g.RouteTo(host, m, p[..d]);
      forall q | g.RouteTo(host, m, q) ensures |q| >= d {
        if |q| == 1 || g.Switch(m) {
          g.RouteExtend(q, n);
          assert g.RouteTo(host, n, q + [n]);
        } else {
          assert d == 1;
        }
      }
      assert g.Dist(host, m, d - 1) && g.Dist(host, n, d - 1 + 1);
    }

    /** Exactly the host itself and the nodes it cannot reach have no entry. */
    lemma NoEntry(host: Node, n: Node)
      requires Valid() && host in g.hosts
      ensures Entries(host, n) == [] <==> n == host || !g.Reached(host, n)
    {
      EntriesAreNextHops(host, n);
      if Entries(host, n) != [] {
        assert Entries(host, n)[0] in Entries(host, n);
        var m :| g.Up(n, m) && g.If(n, m).idx == Entries(host, n)[0];
        assert Forwards(host, n, m);
        var d: nat :| g.Dist(host, m, d) && g.Dist(host, n, d + 1);
        if n == host {
          assert g.RouteTo(host, host, [host]);
        }
      }
      if n != host && g.Reached(host, n) {
        var p :| g.RouteTo(host, n, p);
        var d := g.DistExists(host, n, p);
        if d > 0 {
          var m := NextHopExists(host, n, d);
          assert Forwards(host, n, m);
        }
      }
    }

    /** Whatever entries are taken, each step comes exactly one hop closer, through switches only. */
    lemma {:induction false} WalkApproaches(host: Node, w: seq<Node>, d: nat, i: nat)
      requires Valid() && host in g.hosts && Walk(host, w) && g.Dist(host, w[0], d) && i < |w|
      ensures i <= d && g.Dist(host, w[i], d - i)
      ensures i > 0 ==> w[i] == host || g.Switch(w[i])
    {
      hide Fabric.Valid;
      if i > 0 {
        WalkApproaches(host, w, d, i - 1);
        assert Forwards(host, w[i - 1], w[i - 1 + 1]);
        EntriesAreNextHops(host, w[i - 1]);
        var e: nat :| g.Dist(host, w[i], e) && g.Dist(host, w[i - 1], e + 1);
        g.DistUnique(host, w[i - 1], e + 1, d - (i - 1));
      }
    }

    lemma NoNodeTwice(host: Node, w: seq<Node>, d: nat)
      requires Valid() && host in g.hosts && Walk(host, w) && g.Dist(host, w[0], d)
      ensures Distinct(w)
    {
      hide Fabric.Valid;
      hide Walk;
      forall i, j | 0 <= i < j < |w| ensures w[i] != w[j] {
        WalkApproaches(host, w, d, i);
        WalkApproaches(host, w, d, j);
        g.DistSeparates(host, w[i], d - i, w[j], d - j);
      }
    }

    /** Delivery: a packet at distance `d` reaches the host after exactly `d` hops whatever entries
        are taken, can always go on until then, and visits no node twice and no other host. */
    lemma Delivery(host: Node, w: seq<Node>, d: nat)
      requires Valid() && host in g.hosts && Walk(host, w) && g.Dist(host, w[0], d)
      ensures |w| - 1 <= d
      ensures w[|w| - 1] == host <==> |w| - 1 == d
      ensures |w| - 1 < d ==> exists m :: Walk(host, w + [m])
      ensures Distinct(w)
      ensures forall i | 0 < i < |w| - 1 :: g.Switch(w[i])
    {
      hide Fabric.Valid;
      hide Net.WellFormed;
      var k := |w| - 1;
      WalkApproaches(host, w, d, k);
      assert g.RouteTo(host, host, [host]);
      assert g.Dist(host, host, 0);
      if w[k] == host { g.DistUnique(host, host, 0, d - k); }
      if k < d {
        var m := NextHopExists(host, w[k], d - k);
        EntriesAreNextHops(host, w[k]);
        assert Forwards(host, w[k], m);
        assert forall i | 0 <= i < k :: Forwards(host, w[i], w[i + 1]);
        assert Walk(host, w + [m]);
      }
      NoNodeTwice(host, w, d);
      forall i | 0 < i < |w| - 1 ensures g.Switch(w[i]) {
        WalkApproaches(host, w, d, i);
        g.DistSeparates(host, host, 0, w[i], d - i);
      }
    }

    /** Tables rebuilt incrementally hold the same interfaces as tables computed from scratch
        on any network with the same up links and interface numbers. */
    lemma SameAsFromScratch(that: Fabric, host: Node, n: Node)
      requires Valid() && that.Valid() && host in g.hosts
      requires that.g.nodes == g.nodes && that.g.hosts == g.hosts
      requires forall x, y :: that.g.Up(x, y) <==> g.Up(x, y)
      requires forall x, y | g.Up(x, y) :: that.g.If(x, y).idx == g.If(x, y).idx
      ensures forall port :: port in Entries(host, n) <==> port in that.Entries(host, n)
      ensures Distinct(Entries(host, n)) && Distinct(that.Entries(host, n))
    {
      EntriesAreNextHops(host, n);
      that.EntriesAreNextHops(host, n);
      hide Fabric.Valid;
      SameHops(that, host, n);
      forall port ensures port in Entries(host, n) <==> port in that.Entries(host, n) {
        if port in Entries(host, n) {
          var m :| g.Up(n, m) && g.If(n, m).idx == port;
          assert Forwards(host, n, m) && that.Forwards(host, n, m);
        }
        if port in that.Entries(host, n) {
          var m :| that.g.Up(n, m) && that.g.If(n, m).idx == port;
          assert that.Forwards(host, n, m) && Forwards(host, n, m);
        }
      }
    }

    lemma SameHops(that: Fabric, host: Node, n: Node)
      requires that.g.nodes == g.nodes && that.g.hosts == g.hosts
      requires forall x, y :: that.g.Up(x, y) <==> g.Up(x, y)
      ensures forall m :: that.g.NextHop(host, n, m) <==> g.NextHop(host, n, m)
    {
      SameRoutes(g, that.g, host);
    }
  }
}
