/** From a generated file to the path ids of its network: the file is built into a network, routed and configured, and
    the enumeration enters exactly the ids of the listed shortest paths. */
module FatTreePaths {
  import opened Topology
  import opened Routing
  import opened Forwarding
  import opened TorPaths
  import opened PathIds
  import opened Wiring
  import opened TorConfig
  import opened FatTree

  // ---- hosts and their switches ------------------------------------------------------------------

  /** The only link of a server leads to the switch of its rack. */
  lemma ServerUnderRack(g: Net, t: Tree, r: nat, s: nat)
    requires Realizes(g, t) && t.In(Server(r, s))
    ensures t.half > 0 && t.In(RackSwitch(t, r))
    ensures Under(g, t.Id(Server(r, s)), t.Id(RackSwitch(t, r))) && Connected(g, t.Id(Server(r, s)))
  {
    var x := Server(r, s);
    RackSwitchIs(t, r, s);
    var tor := RackSwitch(t, r);
    t.IdRange(x);
    t.IdRange(tor);
    FatTree.Joined(g, t, x, tor);
    forall m ensures g.Up(t.Id(x), m) <==> m == t.Id(tor) {
      NeighboursAreLinked(t, x, m);
    }
  }

  /** The hosts with a link are the servers of the racks. */
  lemma ConnectedIsServer(g: Net, t: Tree, h: Node) returns (x: Place)
    requires Realizes(g, t) && Connected(g, h)
    ensures x.Server? && t.In(x) && t.Id(x) == h
  {
    x := t.IdSurjective(h);
    var m :| g.Up(h, m);
    if x.Spare? { SpareIsolated(g, t, x, m); }
  }

  /** A line names a server first exactly if it leads to the switch of its rack. */
  lemma RackLine(g: Net, t: Tree, lines: seq<Line>, delay: nat, bw: nat, r: nat, s: nat)
    requires Realizes(g, t) && (forall l :: l in lines <==> IsLine(t, l, delay, bw)) && t.In(Server(r, s))
    ensures t.half > 0 && NamedFirst(g.hosts, lines, t.Id(Server(r, s)), t.Id(RackSwitch(t, r)))
  {
    var x := Server(r, s);
    RackSwitchIs(t, r, s);
    var tor := RackSwitch(t, r);
    t.IdRange(x);
    t.IdRange(tor);
    LinkMeansWired(t, x, tor);
    var l := Line(t.Id(x), t.Id(tor), delay, bw);
    assert IsLine(t, l, delay, bw) && l in lines;
    assert HostLine(g.hosts, l);
  }

  lemma NamedIsRack(g: Net, t: Tree, lines: seq<Line>, delay: nat, bw: nat, h: Node, n: Node) returns (x: Place)
    requires Realizes(g, t) && (forall l :: l in lines <==> IsLine(t, l, delay, bw)) && NamedFirst(g.hosts, lines, h, n)
    ensures x.Server? && t.In(x) && t.Id(x) == h && t.half > 0 && t.In(RackSwitch(t, x.rack)) && n == t.Id(RackSwitch(t, x.rack))
  {
    var l :| l in lines && HostLine(g.hosts, l) && l.src == h && l.dst == n;
    assert IsLine(t, l, delay, bw);
    assert g.Up(h, n);
    x := ConnectedIsServer(g, t, h);
    ServerUnderRack(g, t, x.rack, x.slot);
  }

  /** `table` is configured from the lines of a file of the tree. */
  ghost predicate FromFile(table: PathTable, t: Tree, lines: seq<Line>, delay: nat, bw: nat) {
    && table.f.Valid() && Realizes(table.f.g, t) && (forall l :: l in lines <==> IsLine(t, l, delay, bw))
    && Configured(table.f.g.hosts, lines, table.tors, table.hostIp2SwitchId)
  }

  lemma SwitchOfServer(table: PathTable, t: Tree, lines: seq<Line>, delay: nat, bw: nat, r: nat, s: nat)
    requires FromFile(table, t, lines, delay, bw) && t.In(Server(r, s))
    ensures t.half > 0 && table.SwitchOf(t.Id(Server(r, s))) == t.Id(RackSwitch(t, r))
  {
    var g, h := table.f.g, t.Id(Server(r, s));
    table.f.ValidParts();
    RackLine(g, t, lines, delay, bw, r, s);
    ServerUnderRack(g, t, r, s);
    OwnSwitch(g, lines, table.tors, table.hostIp2SwitchId, h);
    hide NodeIdToIp;
    hide Fabric.Valid;
    hide Configured;
    hide Realizes;
    var x := NamedIsRack(g, t, lines, delay, bw, h, table.SwitchOf(h));
    t.IdInjective(x, Server(r, s));
  }

  /** What the enumeration needs holds of every generated file. */
  lemma FileIsSingleHomed(table: PathTable, t: Tree, lines: seq<Line>, delay: nat, bw: nat)
    requires FromFile(table, t, lines, delay, bw)
    ensures table.SingleHomed()
  {
    var g := table.f.g;
    forall h | Connected(g, h) ensures Under(g, h, table.SwitchOf(h)) {
      var x := ConnectedIsServer(g, t, h);
      ServerUnderRack(g, t, x.rack, x.slot);
      SwitchOfServer(table, t, lines, delay, bw, x.rack, x.slot);
    }
    forall n | n in table.tors ensures g.Switch(n) {
      var h :| NamedFirst(g.hosts, lines, h, n);
      var x := NamedIsRack(g, t, lines, delay, bw, h, n);
      PlaceSwitch(g, t, RackSwitch(t, x.rack));
    }
  }

  /** `n` is the number of an edge switch. */
  ghost predicate IsTor(t: Tree, x: Place, n: Node) { x.Tor? && t.In(x) && t.Id(x) == n }

  /** With servers in the racks, every edge switch has a host, and no other switch has. */
  lemma TorsAreRacks(table: PathTable, t: Tree, lines: seq<Line>, delay: nat, bw: nat, n: Node)
    requires FromFile(table, t, lines, delay, bw)
    ensures n in table.tors <==> t.slots > 0 && exists x :: IsTor(t, x, n)
    ensures (exists h :: Connected(table.f.g, h) && table.SwitchOf(h) == n) <==> t.slots > 0 && exists x :: IsTor(t, x, n)
  {
    var g := table.f.g;
    if n in table.tors {
      var h :| NamedFirst(g.hosts, lines, h, n);
      var x := NamedIsRack(g, t, lines, delay, bw, h, n);
      assert IsTor(t, RackSwitch(t, x.rack), n);
    }
    if h :| Connected(g, h) && table.SwitchOf(h) == n {
      var x := ConnectedIsServer(g, t, h);
      SwitchOfServer(table, t, lines, delay, bw, x.rack, x.slot);
      ServerUnderRack(g, t, x.rack, x.slot);
      assert IsTor(t, RackSwitch(t, x.rack), n);
    }
    if t.slots > 0 && exists x :: IsTor(t, x, n) {
      var x :| IsTor(t, x, n);
      var r := RackOfTor(t, x);
      RackLine(g, t, lines, delay, bw, r, 0);
      SwitchOfServer(table, t, lines, delay, bw, r, 0);
      ServerUnderRack(g, t, r, 0);
      assert NamedFirst(g.hosts, lines, t.Id(Server(r, 0)), n);
    }
  }

  lemma RackOfTor(t: Tree, x: Place) returns (r: nat)
    requires x.Tor? && t.In(x) && t.slots > 0
    ensures t.half > 0 && r < t.Racks() && t.In(Server(r, 0)) && RackSwitch(t, r) == x
  {
    r := Join(t.half, x.pod, x.t, 2 * t.half);
  }

  // ---- the ids of a pair ---------------------------------------------------------------------------

  /** Two different edge switches with servers. */
  ghost predicate Pairing(t: Tree, x: Place, y: Place, src: Node, tor: Node) {
    t.slots > 0 && Edges(t, x, y) && t.Id(x) == src && t.Id(y) == tor
  }

  lemma ApartAreEdges(table: PathTable, t: Tree, lines: seq<Line>, delay: nat, bw: nat, src: Node, tor: Node)
    requires FromFile(table, t, lines, delay, bw)
    ensures table.Apart(src, tor) <==> exists x, y :: Pairing(t, x, y, src, tor)
  {
    TorsAreRacks(table, t, lines, delay, bw, src);
    TorsAreRacks(table, t, lines, delay, bw, tor);
    hide FromFile;
    hide Connected;
    if table.Apart(src, tor) {
      var x :| IsTor(t, x, src);
      var y :| IsTor(t, y, tor);
      assert Pairing(t, x, y, src, tor);
    }
    if x, y :| Pairing(t, x, y, src, tor) {
      assert IsTor(t, x, src) && IsTor(t, y, tor);
      if src == tor { t.IdInjective(x, y); }
    }
  }

  /** `id` is that of one of the listed paths between the edge switches with these numbers. */
  ghost predicate Listed(f: Fabric, t: Tree, src: Node, tor: Node, id: int) {
    exists x, y :: Pairing(t, x, y, src, tor) && PacksOne(f, ShortestPaths(t, x, y), id)
  }

  lemma PairNear(table: PathTable, t: Tree, x: Place, y: Place)
    requires Realizes(table.f.g, t) && Edges(t, x, y)
    ensures table.NearPair(t.Id(x), t.Id(y))
  {
    PathsBetweenEdges(table.f.g, t, x, y);
  }

  lemma ListedIds(table: PathTable, t: Tree, lines: seq<Line>, delay: nat, bw: nat, src: Node, tor: Node, id: int)
    requires FromFile(table, t, lines, delay, bw)
    ensures table.Apart(src, tor) && PathId(table.f, src, tor, id) <==> Listed(table.f, t, src, tor, id)
  {
    ApartAreEdges(table, t, lines, delay, bw, src, tor);
    forall x, y | Pairing(t, x, y, src, tor) ensures PathId(table.f, src, tor, id) <==> PacksOne(table.f, ShortestPaths(t, x, y), id) {
      PathIdsAreListed(table.f, t, x, y);
    }
    hide FromFile;
    hide PathTable.Apart;
    hide PathId;
    hide PacksOne;
  }

  /** A list has as many different values as elements exactly if none repeats. */
  lemma {:induction false} CountValues<T>(s: seq<T>, values: set<T>)
    requires forall v :: v in values <==> v in s
    ensures |values| <= |s| && (|values| == |s| <==> forall i, j | 0 <= i < j < |s| :: s[i] != s[j])
  {
    if s == [] {
      assert values == {};
    } else {
      var k := |s| - 1;
      assert s == s[..k] + [s[k]];
      if s[k] in s[..k] {
        CountValues(s[..k], values);
        var i :| 0 <= i < k && s[..k][i] == s[k];
        assert s[i] == s[k];
      } else {
        CountValues(s[..k], values - {s[k]});
        forall i | 0 <= i < k ensures s[i] != s[k] { assert s[..k][i] == s[i]; }
      }
    }
  }

  /** The ids of the listed paths, in their order. */
  ghost function IdList(f: Fabric, t: Tree, x: Place, y: Place): seq<int>
    requires Edges(t, x, y)
  {
    var ps := ShortestPaths(t, x, y);
    seq(|ps|, i requires 0 <= i < |ps| => if |ps[i]| > 0 then Pack(PortsAlong(f, ps[i])) else 0)
  }

  lemma IdListMembers(f: Fabric, t: Tree, x: Place, y: Place)
    requires Realizes(f.g, t) && Edges(t, x, y)
    ensures |IdList(f, t, x, y)| == PathCount(t, x, y)
    ensures forall id :: id in IdList(f, t, x, y) <==> PacksOne(f, ShortestPaths(t, x, y), id)
  {
    var ps, ids := ShortestPaths(t, x, y), IdList(f, t, x, y);
    forall i | 0 <= i < |ps| ensures |ps[i]| > 0 { PathNonempty(f.g, t, x, y, ps[i]); }
    hide ShortestPaths;
    hide Pack;
    hide PortsAlong;
    hide Edges;
    hide Realizes;
    forall id ensures id in ids <==> PacksOne(f, ps, id) {
      if id in ids {
        var i :| 0 <= i < |ids| && ids[i] == id;
        assert ps[i] in ps;
      }
      if PacksOne(f, ps, id) {
        var p :| p in ps && |p| > 0 && id == Pack(PortsAlong(f, p));
        var i :| 0 <= i < |ps| && ps[i] == p;
        assert ids[i] == id;
      }
    }
  }

  lemma PathNonempty(g: Net, t: Tree, x: Place, y: Place, p: seq<Node>)
    requires Realizes(g, t) && Edges(t, x, y) && p in ShortestPaths(t, x, y)
    ensures |p| > 0
  {
    PathsBetweenEdges(g, t, x, y);
  }

  lemma IdListDistinct(f: Fabric, t: Tree, x: Place, y: Place)
    requires Realizes(f.g, t) && Numbered(f.g, t) && Edges(t, x, y)
    ensures Distinct(IdList(f, t, x, y)) <==> t.half <= 256
  {
    var ps, ids := ShortestPaths(t, x, y), IdList(f, t, x, y);
    GeneratedIds(f, t, x, y);
    forall i, j | 0 <= i < j < |ps| ensures ids[i] != ids[j] <==> DifferentIds(f, t, x, y, i, j) {
      PathNonempty(f.g, t, x, y, ps[i]);
      PathNonempty(f.g, t, x, y, ps[j]);
      hide ShortestPaths;
      hide Pack;
      hide PortsAlong;
      hide Edges;
    }
    hide *;
    assert |ids| == |ps| == PathCount(t, x, y) by { IdListMembers(f, t, x, y); }
    SameDistinct(f, t, x, y, ids);
  }

  lemma SameDistinct(f: Fabric, t: Tree, x: Place, y: Place, ids: seq<int>)
    requires Edges(t, x, y) && |ids| == PathCount(t, x, y)
    requires forall i, j | 0 <= i < j < |ids| :: ids[i] != ids[j] <==> DifferentIds(f, t, x, y, i, j)
    ensures Distinct(ids) <==> forall i, j | 0 <= i < j < PathCount(t, x, y) :: DifferentIds(f, t, x, y, i, j)
  {
    hide Edges;
    hide PathCount;
    hide DifferentIds;
  }

  /** The ids entered are exactly those listed; a pair has as many as shortest paths exactly up to an arity of 512. */
  lemma CountIds(f: Fabric, t: Tree, x: Place, y: Place, ids: set<int>)
    requires Realizes(f.g, t) && Numbered(f.g, t) && Edges(t, x, y) && t.slots > 0
    requires forall id :: id in ids <==> Listed(f, t, t.Id(x), t.Id(y), id)
    ensures |ids| == PathCount(t, x, y) <==> t.half <= 256
  {
    IdListMembers(f, t, x, y);
    IdListDistinct(f, t, x, y);
    hide Numbered;
    hide Realizes;
    hide IdList;
    hide PacksOne;
    hide PathCount;
    forall id ensures id in ids <==> id in IdList(f, t, x, y) {
      if id in ids {
        var x', y' :| Pairing(t, x', y', t.Id(x), t.Id(y)) && PacksOne(f, ShortestPaths(t, x', y'), id);
        t.IdInjective(x, x');
        t.IdInjective(y, y');
      }
      if id in IdList(f, t, x, y) {
        assert Pairing(t, x, y, t.Id(x), t.Id(y));
      }
    }
    CountValues(IdList(f, t, x, y), ids);
  }

  // ---- the whole way -------------------------------------------------------------------------------

  /** The nodes in the order in which they are created. */
  function Container(n: nat): (nodes: seq<Node>)
    ensures |nodes| == n && forall i | 0 <= i < n :: nodes[i] == i
  {
    seq(n, i => i)
  }

  lemma ContainerHolds(n: nat)
    ensures (set m | m in Container(n)) == Below(n) && Distinct(Container(n))
  {
    var all := set m | m in Container(n);
    forall m ensures m in all <==> m in Below(n) {
      if m in Below(n) { assert Container(n)[m] == m; }
    }
    SameSet(all, Below(n));
  }

  lemma SameSet<T>(a: set<T>, b: set<T>)
    requires forall x :: x in a <==> x in b
    ensures a == b
  {
  }

  /** The file of a fat tree is generated, built, routed and configured, and its path ids are enumerated. This always
      succeeds, and the ids of any two switches are exactly those of the listed paths between edge switches. */
  method PathIdsOfFatTree(k: nat, oversubscript: real, delay: nat, bw: nat, payload: nat, oneHopDelay: nat)
    returns (table: PathTable, ok: bool)
    requires k % 2 == 0 && oversubscript >= 0.0 && IsRate(bw) && TreeOf(k, oversubscript).Servers() <= ADDRESSES
    ensures ok && table.f.Valid() && Realizes(table.f.g, TreeOf(k, oversubscript)) && Numbered(table.f.g, TreeOf(k, oversubscript))
    ensures Entered(table, TreeOf(k, oversubscript))
    ensures var t := TreeOf(k, oversubscript);
            forall x, y | Edges(t, x, y) && t.slots > 0 :: |table.IdsOf(t.Id(x), t.Id(y))| == PathCount(t, x, y) <==> t.half <= 256
    ensures TimesEntered(table.baseRtt, TreeOf(k, oversubscript), oneHopDelay)
  {
    hide *;
    var t := TreeOf(k, oversubscript);
    var g, lines := BuildFatTree(k, oversubscript, delay, bw);
    table := Configure(g, lines, t, delay, bw, payload, oneHopDelay);
    FileIsSingleHomed(table, t, lines, delay, bw);
    FileParts(table, t, lines, delay, bw);
    ok := table.Build();
    forall src, tor | table.Apart(src, tor) ensures table.NearPair(src, tor) {
      ApartIsNear(table, t, lines, delay, bw, src, tor);
    }
    AllEntered(table, t, lines, delay, bw);
    AllTimesEntered(table, t, lines, delay, bw);
  }

  /** Exactly the pairs of edge switches with servers have a base round-trip time: four hops within a pod, eight across. */
  ghost predicate TimesEntered(times: map<(Node, Node), int>, t: Tree, oneHopDelay: nat) {
    && (forall src, tor :: (src, tor) in times <==> exists x, y :: Pairing(t, x, y, src, tor))
    && (forall x, y, src, tor | Pairing(t, x, y, src, tor) ::
          (src, tor) in times && times[(src, tor)] == (if x.pod == y.pod then 4 else 8) * oneHopDelay)
  }

  lemma PairTime(table: PathTable, t: Tree, x: Place, y: Place)
    requires Realizes(table.f.g, t) && Edges(t, x, y) && table.PairTimed(table.baseRtt, true, t.Id(x), t.Id(y))
    ensures (t.Id(x), t.Id(y)) in table.baseRtt
    ensures table.baseRtt[(t.Id(x), t.Id(y))] == (if x.pod == y.pod then 4 else 8) * table.oneHopDelay
  {
    PathsBetweenEdges(table.f.g, t, x, y);
    assert t.half > 0 && PathCount(t, x, y) > 0 by { assert t.half > 0; }
    var p := ShortestPaths(t, x, y)[0];
    assert p in ShortestPaths(t, x, y);
    hide ShortestPaths;
    hide Shortest;
    hide Realizes;
    assert Shortest(table.f.g, t.Id(x), t.Id(y), p) && |p| == if x.pod == y.pod then 3 else 5;
  }

  lemma AllTimesEntered(table: PathTable, t: Tree, lines: seq<Line>, delay: nat, bw: nat)
    requires FromFile(table, t, lines, delay, bw)
    requires forall src, tor :: table.PairTimed(table.baseRtt, table.Apart(src, tor), src, tor)
    ensures TimesEntered(table.baseRtt, t, table.oneHopDelay)
  {
    FileParts(table, t, lines, delay, bw);
    forall x, y, src, tor | Pairing(t, x, y, src, tor)
      ensures (src, tor) in table.baseRtt && table.baseRtt[(src, tor)] == (if x.pod == y.pod then 4 else 8) * table.oneHopDelay
    {
      ApartAreEdges(table, t, lines, delay, bw, src, tor);
      assert table.PairTimed(table.baseRtt, table.Apart(src, tor), src, tor);
      hide PathTable.PairTimed;
      PairTime(table, t, x, y);
    }
    forall src, tor ensures (src, tor) in table.baseRtt ==> exists x, y :: Pairing(t, x, y, src, tor) {
      ApartAreEdges(table, t, lines, delay, bw, src, tor);
      assert table.PairTimed(table.baseRtt, table.Apart(src, tor), src, tor);
    }
  }

  /** The ids of the table are those of the listed paths. */
  ghost predicate Entered(table: PathTable, t: Tree)
    reads table`ids
  {
    forall src, tor, id :: id in table.IdsOf(src, tor) <==> Listed(table.f, t, src, tor, id)
  }

  lemma FileParts(table: PathTable, t: Tree, lines: seq<Line>, delay: nat, bw: nat)
    requires FromFile(table, t, lines, delay, bw)
    ensures table.f.Valid() && Realizes(table.f.g, t)
  {
  }

  lemma AllEntered(table: PathTable, t: Tree, lines: seq<Line>, delay: nat, bw: nat)
    requires FromFile(table, t, lines, delay, bw) && Numbered(table.f.g, t)
    requires forall src, tor, id :: id in table.IdsOf(src, tor) <==> table.Apart(src, tor) && PathId(table.f, src, tor, id)
    ensures Entered(table, t)
    ensures forall x, y | Edges(t, x, y) && t.slots > 0 :: |table.IdsOf(t.Id(x), t.Id(y))| == PathCount(t, x, y) <==> t.half <= 256
  {
    FileParts(table, t, lines, delay, bw);
    hide PathTable.Apart;
    hide PathId;
    hide PathTable.IdsOf;
    hide Listed;
    hide FromFile;
    hide Numbered;
    hide Realizes;
    hide Edges;
    hide PathCount;
    hide Tree.Id;
    forall src, tor, id ensures id in table.IdsOf(src, tor) <==> Listed(table.f, t, src, tor, id) {
      ListedIds(table, t, lines, delay, bw, src, tor, id);
    }
    forall x, y | Edges(t, x, y) && t.slots > 0
      ensures |table.IdsOf(t.Id(x), t.Id(y))| == PathCount(t, x, y) <==> t.half <= 256
    {
      CountIds(table.f, t, x, y, table.IdsOf(t.Id(x), t.Id(y)));
    }
  }

  lemma ApartIsNear(table: PathTable, t: Tree, lines: seq<Line>, delay: nat, bw: nat, src: Node, tor: Node)
    requires FromFile(table, t, lines, delay, bw) && table.Apart(src, tor)
    ensures table.NearPair(src, tor)
  {
    ApartAreEdges(table, t, lines, delay, bw, src, tor);
    var x, y :| Pairing(t, x, y, src, tor);
    PairNear(table, t, x, y);
  }

  /** Route the built network and configure its switches. */
  method Configure(g: Net, lines: seq<Line>, t: Tree, ghost delay: nat, ghost bw: nat, payload: nat, oneHopDelay: nat)
    returns (table: PathTable)
    requires Realizes(g, t) && Numbered(g, t) && g == NetOf(t, g.links) && t.Servers() <= ADDRESSES
    requires forall l :: l in lines <==> IsLine(t, l, delay, bw)
    ensures fresh(table) && FromFile(table, t, lines, delay, bw) && Numbered(table.f.g, t) && table.ids == map[]
    ensures table.baseRtt == map[] && table.oneHopDelay == oneHopDelay
  {
    ContainerHolds(t.Nodes());
    RealizesParts(g, t);
    assert g.nodes == Below(t.Nodes());
    hide *;
    var network := new Network(Container(t.Nodes()), g.hosts, payload, g.links);
    assert network.G() == g by { NetworkIs(network, g, t.Nodes()); }
    network.SetUpRouting();
    assert network.G() == g by { NetworkIs(network, g, t.Nodes()); }
    NetworkIsFabric(network);
    var tors, switchOf := ConfigureTors(g.hosts, lines);
    table := new PathTable(Fabric(g, network.nextHop, network.rtTable), oneHopDelay, tors, switchOf);
    ConfiguredFromFile(table, t, lines, delay, bw);
  }

  lemma RealizesParts(g: Net, t: Tree)
    requires Realizes(g, t) && t.Servers() <= ADDRESSES
    ensures g.WellFormed() && Addressable(g)
  {
  }

  lemma NetworkIs(network: Network, g: Net, n: nat)
    requires network.nodes == Container(n) && g.nodes == Below(n) && network.hosts == g.hosts && network.links == g.links
    ensures network.G() == g
  {
    ContainerHolds(n);
  }

  lemma NetworkIsFabric(network: Network)
    requires network.Valid()
    ensures Fabric(network.G(), network.nextHop, network.rtTable).Valid()
  {
  }

  lemma ConfiguredFromFile(table: PathTable, t: Tree, lines: seq<Line>, delay: nat, bw: nat)
    requires table.f.Valid() && Realizes(table.f.g, t) && forall l :: l in lines <==> IsLine(t, l, delay, bw)
    requires Configured(table.f.g.hosts, lines, table.tors, table.hostIp2SwitchId)
    ensures FromFile(table, t, lines, delay, bw)
  {
  }
}
