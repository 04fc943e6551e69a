/** Switch-to-switch paths below a single-homed host: how the distances of the route search
    from the host mirror the paths between its switch and the others. */
module TorPaths {
  import opened Topology
  import opened Routing
  import opened Forwarding

  /** A path of switches joined by up links. */
  ghost predicate SwitchPath(g: Net, a: Node, b: Node, p: seq<Node>) {
    && |p| >= 1 && p[0] == a && p[|p| - 1] == b
    && (forall i | 0 <= i < |p| :: g.Switch(p[i]))
    && (forall i | 0 <= i < |p| - 1 :: g.Up(p[i], p[i + 1]))
  }

  /** A switch path with the fewest hops. */
  ghost predicate Shortest(g: Net, a: Node, b: Node, p: seq<Node>) {
    && SwitchPath(g, a, b, p)
    && forall q | SwitchPath(g, a, b, q) :: |p| <= |q|
  }

  /** The only link of `host` leads to switch `tor`. */
  ghost predicate Under(g: Net, host: Node, tor: Node) {
    && host in g.hosts && host in g.nodes && g.Switch(tor)
    && forall m :: g.Up(host, m) <==> m == tor
  }

  lemma PathToRoute(g: Net, host: Node, tor: Node, n: Node, p: seq<Node>)
    requires g.WellFormed() && Under(g, host, tor) && SwitchPath(g, n, tor, p)
    ensures g.RouteTo(host, n, [host] + Reverse(p))
  {
  }

  lemma RouteToPath(g: Net, host: Node, tor: Node, n: Node, r: seq<Node>)
    requires g.WellFormed() && Under(g, host, tor) && g.Switch(n) && g.RouteTo(host, n, r)
    ensures |r| >= 2 && SwitchPath(g, n, tor, Reverse(r[1..]))
  {
  }

  lemma PathsOfDistance(g: Net, host: Node, tor: Node, n: Node, k: nat)
    requires g.WellFormed() && Under(g, host, tor) && g.Switch(n) && g.Dist(host, n, k + 1)
    ensures exists p :: SwitchPath(g, n, tor, p) && |p| == k + 1
    ensures forall p | SwitchPath(g, n, tor, p) :: |p| >= k + 1
  {
    var r :| g.RouteTo(host, n, r) && |r| == k + 2;
    RouteToPath(g, host, tor, n, r);
    assert |Reverse(r[1..])| == k + 1;
    forall p | SwitchPath(g, n, tor, p) ensures |p| >= k + 1 {
      PathToRoute(g, host, tor, n, p);
    }
  }

  lemma DistanceOfPath(g: Net, host: Node, tor: Node, n: Node, p: seq<Node>)
    requires g.WellFormed() && Under(g, host, tor) && Shortest(g, n, tor, p)
    ensures g.Dist(host, n, |p|)
  {
    PathToRoute(g, host, tor, n, p);
    assert g.Switch(p[0]);
    forall r | g.RouteTo(host, n, r) ensures |r| >= |p| + 1 {
      RouteToPath(g, host, tor, n, r);
    }
  }

  /** A switch is `k + 1` hops from the host iff its shortest switch paths to the host's switch have `k`
      hops, and then every switch path of `k` hops is a shortest one. */
  lemma DistanceIsPathLength(g: Net, host: Node, tor: Node, n: Node, k: nat)
    requires g.WellFormed() && Under(g, host, tor) && g.Switch(n)
    ensures g.Dist(host, n, k + 1) <==> exists p :: Shortest(g, n, tor, p) && |p| == k + 1
    ensures g.Dist(host, n, k + 1) ==> forall p | SwitchPath(g, n, tor, p) :: Shortest(g, n, tor, p) <==> |p| == k + 1
  {
    hide SwitchPath;
    hide Under;
    if g.Dist(host, n, k + 1) {
      PathsOfDistance(g, host, tor, n, k);
      var p :| SwitchPath(g, n, tor, p) && |p| == k + 1;
      assert Shortest(g, n, tor, p);
    }
    if p :| Shortest(g, n, tor, p) && |p| == k + 1 {
      DistanceOfPath(g, host, tor, n, p);
    }
  }

  /** From a switch at distance `k + 1` the next hops are the switches that continue a shortest path. */
  lemma NextHopContinues(g: Net, host: Node, tor: Node, n: Node, k: nat, m: Node)
    requires g.WellFormed() && Under(g, host, tor) && g.Switch(n) && g.Dist(host, n, k + 1) && k > 0
    ensures g.NextHop(host, n, m) <==> g.Switch(m) && g.Up(n, m) && g.Dist(host, m, k)
  {
    if g.NextHop(host, n, m) {
      var d: nat :| g.Dist(host, m, d) && g.Dist(host, n, d + 1);
      g.DistUnique(host, n, d + 1, k + 1);
      assert g.RouteTo(host, host, [host]);
      assert g.Dist(host, host, 0);
      g.DistSeparates(host, host, 0, m, d);
      assert g.Up(n, m);
    }
    if g.Switch(m) && g.Up(n, m) && g.Dist(host, m, k) {
      assert g.Up(m, n);
    }
  }

  /** At distance 1 there is only the switch of the host. */
  lemma DistanceOne(g: Net, host: Node, tor: Node, n: Node)
    requires g.WellFormed() && Under(g, host, tor)
    ensures g.Dist(host, n, 1) <==> n == tor
  {
    if g.Dist(host, n, 1) {
      var r :| g.RouteTo(host, n, r) && |r| == 2;
      assert g.Up(r[0], r[0 + 1]);
    }
    assert g.Up(host, tor);
    assert g.RouteTo(host, tor, [host, tor]);
    forall r | g.RouteTo(host, tor, r) ensures |r| >= 2 {
    }
  }

  // ---- port sequences -----------------------------------------------------------------

  function Port(f: Fabric, n: Node, m: Node): int { IfOrDefault(f.g.links, n, m).idx }

  /** The port sequences of all walks of `k` steps along next hops towards `host`. */
  ghost function PortSeqs(f: Fabric, host: Node, n: Node, k: nat): set<seq<int>>
    decreases k
  {
    if k == 0 then {[]}
    else set m, s | m in Entry(f.t, n, host) && s in PortSeqs(f, host, m, k - 1) :: [Port(f, n, m)] + s
  }

  /** The outgoing ports along a path. */
  ghost function PortsAlong(f: Fabric, p: seq<Node>): (r: seq<int>)
    requires |p| >= 1
    ensures |r| == |p| - 1
  {
    seq(|p| - 1, i requires 0 <= i < |p| - 1 => Port(f, p[i], p[i + 1]))
  }

  lemma PortsTail(f: Fabric, p: seq<Node>)
    requires |p| >= 2
    ensures PortsAlong(f, p) == [Port(f, p[0], p[1])] + PortsAlong(f, p[1..])
  {
    hide Port;
    var q := p[1..];
    forall i | 0 <= i < |q| - 1 ensures PortsAlong(f, p)[i + 1] == PortsAlong(f, q)[i] {
      assert q[i] == p[i + 1] && q[i + 1] == p[i + 1 + 1];
    }
  }

  lemma PathTail(f: Fabric, n: Node, tor: Node, p: seq<Node>)
    requires |p| >= 2 && SwitchPath(f.g, n, tor, p)
    ensures SwitchPath(f.g, p[1], tor, p[1..]) && f.g.Up(n, p[1]) && f.g.Switch(p[1])
    ensures PortsAlong(f, p) == [Port(f, n, p[1])] + PortsAlong(f, p[1..])
  {
    PortsTail(f, p);
    hide Net.Up;
    hide Port;
    hide PortsAlong;
    var q := p[1..];
    assert f.g.Up(p[0], p[0 + 1]);
    forall i | 0 <= i < |q| - 1 ensures f.g.Up(q[i], q[i + 1]) {
      assert f.g.Up(p[i + 1], p[i + 1 + 1]);
    }
  }

  lemma PathCons(f: Fabric, n: Node, m: Node, tor: Node, p: seq<Node>)
    requires SwitchPath(f.g, m, tor, p) && f.g.Switch(n) && f.g.Up(n, m)
    ensures SwitchPath(f.g, n, tor, [n] + p)
    ensures PortsAlong(f, [n] + p) == [Port(f, n, m)] + PortsAlong(f, p)
  {
  }

  /** `s` is the port sequence of some path of `k` hops. */
  ghost predicate PathWithPorts(f: Fabric, n: Node, tor: Node, k: nat, s: seq<int>, p: seq<Node>) {
    SwitchPath(f.g, n, tor, p) && |p| == k + 1 && PortsAlong(f, p) == s
  }

  lemma OneNode(f: Fabric, n: Node)
    requires f.g.Switch(n)
    ensures PathWithPorts(f, n, n, 0, [], [n])
  {
  }

  lemma NoPorts(f: Fabric, host: Node, n: Node, s: seq<int>)
    ensures s in PortSeqs(f, host, n, 0) <==> s == []
  {
  }

  lemma FirstPort(f: Fabric, host: Node, n: Node, k: nat, s: seq<int>) returns (m: Node, s': seq<int>)
    requires k > 0 && s in PortSeqs(f, host, n, k)
    ensures m in Entry(f.t, n, host) && s' in PortSeqs(f, host, m, k - 1) && s == [Port(f, n, m)] + s'
  {
    m, s' :| m in Entry(f.t, n, host) && s' in PortSeqs(f, host, m, k - 1) && s == [Port(f, n, m)] + s';
  }

  lemma EntryContinues(f: Fabric, host: Node, tor: Node, n: Node, k: nat, m: Node)
    requires f.Valid() && Under(f.g, host, tor) && f.g.Switch(n) && f.g.Dist(host, n, k + 1) && k > 0
    requires m in Entry(f.t, n, host)
    ensures f.g.Switch(m) && f.g.Up(n, m) && f.g.Dist(host, m, k)
  {
    f.EntriesOf(host, n);
    NextHopContinues(f.g, host, tor, n, k, m);
  }

  lemma {:induction false} PortSeqIsPath(f: Fabric, host: Node, tor: Node, n: Node, k: nat, s: seq<int>)
    requires f.Valid() && Under(f.g, host, tor) && f.g.Switch(n) && f.g.Dist(host, n, k + 1)
    requires s in PortSeqs(f, host, n, k)
    ensures exists p :: PathWithPorts(f, n, tor, k, s, p)
    decreases k
  {
    hide PortSeqs;
    hide PortsAlong;
    hide SwitchPath;
    hide Net.Up;
    hide Net.WellFormed;
    hide Routed;
    hide Installed;
    hide Under;
    hide Net.Dist;
    if k == 0 {
      DistanceOne(f.g, host, tor, n);
      NoPorts(f, host, n, s);
      OneNode(f, n);
    } else {
      var m, s' := FirstPort(f, host, n, k, s);
      EntryContinues(f, host, tor, n, k, m);
      hide Fabric.Valid;
      PortSeqIsPath(f, host, tor, m, k - 1, s');
      var p :| PathWithPorts(f, m, tor, k - 1, s', p);
      PathCons(f, n, m, tor, p);
      assert |[n] + p| == k + 1;
      assert PathWithPorts(f, n, tor, k, s, [n] + p);
    }
  }

  lemma {:induction false} PathIsPortSeq(f: Fabric, host: Node, tor: Node, n: Node, k: nat, p: seq<Node>)
    requires f.Valid() && Under(f.g, host, tor) && f.g.Switch(n) && f.g.Dist(host, n, k + 1)
    requires SwitchPath(f.g, n, tor, p) && |p| == k + 1
    ensures PortsAlong(f, p) in PortSeqs(f, host, n, k)
    decreases k
  {
    hide Net.WellFormed;
    hide Routed;
    hide Installed;
    hide Under;
    hide Net.Dist;
    if k == 0 {
      assert PortsAlong(f, p) == [];
    } else {
      PathTail(f, n, tor, p);
      PathStep(f, host, tor, n, k, p);
      PathIsPortSeq(f, host, tor, p[1], k - 1, p[1..]);
    }
  }

  /** The next hops spell out exactly the switch paths of minimal length. */
  lemma PortSeqsArePaths(f: Fabric, host: Node, tor: Node, n: Node, k: nat, s: seq<int>)
    requires f.Valid() && Under(f.g, host, tor) && f.g.Switch(n) && f.g.Dist(host, n, k + 1)
    ensures s in PortSeqs(f, host, n, k) <==> exists p :: PathWithPorts(f, n, tor, k, s, p)
  {
    hide PortSeqs;
    if s in PortSeqs(f, host, n, k) {
      PortSeqIsPath(f, host, tor, n, k, s);
    }
    if p :| PathWithPorts(f, n, tor, k, s, p) {
      PathIsPortSeq(f, host, tor, n, k, p);
    }
  }

  /** The second node of a shortest path is a next hop of the first. */
  lemma PathStep(f: Fabric, host: Node, tor: Node, n: Node, k: nat, p: seq<Node>)
    requires f.Valid() && Under(f.g, host, tor) && f.g.Switch(n) && f.g.Dist(host, n, k + 1) && k > 0
    requires SwitchPath(f.g, n, tor, p) && |p| == k + 1
    ensures p[1] in Entry(f.t, n, host) && f.g.Dist(host, p[1], k)
  {
    var q, m := p[1..], p[1];
    PathTail(f, n, tor, p);
    forall q' | SwitchPath(f.g, m, tor, q') ensures |q'| >= |q| {
      PathCons(f, n, m, tor, q');
      PathsOfDistance(f.g, host, tor, n, k);
    }
    assert Shortest(f.g, m, tor, q);
    DistanceOfPath(f.g, host, tor, m, q);
    NextHopContinues(f.g, host, tor, n, k, m);
    f.EntriesOf(host, n);
  }

  /** Different paths from a node leave different port sequences. */
  lemma {:induction false} PortsIdentifyPath(f: Fabric, n: Node, p: seq<Node>, q: seq<Node>, a: Node, b: Node)
    requires f.g.WellFormed() && SwitchPath(f.g, n, a, p) && SwitchPath(f.g, n, b, q)
    requires PortsAlong(f, p) == PortsAlong(f, q)
    ensures p == q
    decreases |p|
  {
    assert |p| == |q|;
    if |p| == 1 {
      assert p == q;
    } else {
      PathTail(f, n, a, p);
      PathTail(f, n, b, q);
      assert Port(f, n, p[1]) == PortsAlong(f, p)[0] == PortsAlong(f, q)[0] == Port(f, n, q[1]);
      assert PortsAlong(f, p[1..]) == PortsAlong(f, p)[1..] == PortsAlong(f, q[1..]);
      PortsIdentifyPath(f, p[1], p[1..], q[1..], a, b);
      assert p == [n] + p[1..] && q == [n] + q[1..];
    }
  }
}
