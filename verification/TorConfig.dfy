/** Which switches have hosts, and the switch of every host, as taken from the lines of a topology file. */
module TorConfig {
  import opened Topology
  import opened Routing
  import opened Forwarding
  import opened TorPaths
  import opened PathIds
  import opened Wiring

  /** Only a line that names the host first counts. */
  predicate HostLine(hosts: set<Node>, l: Line) { l.src in hosts && l.dst !in hosts }

  ghost predicate NamedFirst(hosts: set<Node>, lines: seq<Line>, h: Node, s: Node) {
    exists l :: l in lines && HostLine(hosts, l) && l.src == h && l.dst == s
  }

  /** The switches that have a host, ... */
  ghost predicate TorsOf(hosts: set<Node>, lines: seq<Line>, tors: set<Node>) {
    forall s :: s in tors <==> exists h :: NamedFirst(hosts, lines, h, s)
  }

  /** ... and a switch for every address of a host, from one of the lines of such a host. */
  ghost predicate SwitchesOf(hosts: set<Node>, lines: seq<Line>, switchOf: map<int, Node>) {
    && (forall h, s :: NamedFirst(hosts, lines, h, s) ==> NodeIdToIp(h) in switchOf)
    && (forall ip | ip in switchOf :: exists h :: NodeIdToIp(h) == ip && NamedFirst(hosts, lines, h, switchOf[ip]))
  }

  ghost predicate Configured(hosts: set<Node>, lines: seq<Line>, tors: set<Node>, switchOf: map<int, Node>) {
    TorsOf(hosts, lines, tors) && SwitchesOf(hosts, lines, switchOf)
  }

  ghost predicate FromHostAt(hosts: set<Node>, l: Line, ip: int) { l.src in hosts && l.dst !in hosts && NodeIdToIp(l.src) == ip }

  /** The last line that names a host of this address first. */
  ghost predicate LastFor(hosts: set<Node>, lines: seq<Line>, ip: int, k: int) {
    && 0 <= k < |lines| && FromHostAt(hosts, lines[k], ip)
    && forall j | k < j < |lines| :: !FromHostAt(hosts, lines[j], ip)
  }

  /** The switch of an address is the one on the last such line. */
  ghost predicate LastCounts(hosts: set<Node>, lines: seq<Line>, switchOf: map<int, Node>) {
    && (forall i | 0 <= i < |lines| && lines[i].src in hosts && lines[i].dst !in hosts :: NodeIdToIp(lines[i].src) in switchOf)
    && (forall ip | ip in switchOf :: exists k :: LastFor(hosts, lines, ip, k) && switchOf[ip] == lines[k].dst)
  }

  lemma LastStep(hosts: set<Node>, lines: seq<Line>, l: Line, switchOf: map<int, Node>)
    requires LastCounts(hosts, lines, switchOf)
    ensures LastCounts(hosts, lines + [l], if HostLine(hosts, l) then switchOf[NodeIdToIp(l.src) := l.dst] else switchOf)
  {
    hide NodeIdToIp;
    var more := lines + [l];
    var now := if HostLine(hosts, l) then switchOf[NodeIdToIp(l.src) := l.dst] else switchOf;
    forall ip | ip in now ensures exists k :: LastFor(hosts, more, ip, k) && now[ip] == more[k].dst {
      if HostLine(hosts, l) && ip == NodeIdToIp(l.src) {
        assert LastFor(hosts, more, ip, |lines|);
      } else {
        var k :| LastFor(hosts, lines, ip, k) && switchOf[ip] == lines[k].dst;
        assert LastFor(hosts, more, ip, k);
      }
    }
  }

  lemma NamedAppend(hosts: set<Node>, lines: seq<Line>, l: Line, h: Node, s: Node)
    ensures NamedFirst(hosts, lines + [l], h, s) <==>
              NamedFirst(hosts, lines, h, s) || (HostLine(hosts, l) && l.src == h && l.dst == s)
  {
    if NamedFirst(hosts, lines, h, s) {
      var k :| k in lines && HostLine(hosts, k) && k.src == h && k.dst == s;
      assert k in lines + [l];
    }
    assert l in lines + [l];
  }

  lemma TorsStep(hosts: set<Node>, lines: seq<Line>, l: Line, tors: set<Node>)
    requires TorsOf(hosts, lines, tors)
    ensures TorsOf(hosts, lines + [l], if HostLine(hosts, l) then tors + {l.dst} else tors)
  {
    forall h, s { NamedAppend(hosts, lines, l, h, s); }
    hide NamedFirst;
    assert HostLine(hosts, l) ==> NamedFirst(hosts, lines + [l], l.src, l.dst);
  }

  lemma SwitchesStep(hosts: set<Node>, lines: seq<Line>, l: Line, switchOf: map<int, Node>)
    requires SwitchesOf(hosts, lines, switchOf)
    ensures SwitchesOf(hosts, lines + [l], if HostLine(hosts, l) then switchOf[NodeIdToIp(l.src) := l.dst] else switchOf)
  {
    forall h, s { NamedAppend(hosts, lines, l, h, s); }
    hide NamedFirst;
    hide NodeIdToIp;
    var now := if HostLine(hosts, l) then switchOf[NodeIdToIp(l.src) := l.dst] else switchOf;
    forall ip | ip in now ensures exists h :: NodeIdToIp(h) == ip && NamedFirst(hosts, lines + [l], h, now[ip]) {
      if HostLine(hosts, l) && ip == NodeIdToIp(l.src) {
        assert NamedFirst(hosts, lines + [l], l.src, now[ip]);
      }
    }
  }

  /** The two loops over the lines. */
  method ConfigureTors(hosts: set<Node>, lines: seq<Line>) returns (tors: set<Node>, switchOf: map<int, Node>)
    ensures Configured(hosts, lines, tors, switchOf) && LastCounts(hosts, lines, switchOf)
  {
    tors, switchOf := {}, map[];
    assert lines[..|lines|] == lines && lines[..0] == [];
    hide TorsOf;
    hide SwitchesOf;
    hide LastCounts;
    NothingConfigured(hosts);
    for i := 0 to |lines|
      invariant TorsOf(hosts, lines[..i], tors)
    {
      assert lines[..i + 1] == lines[..i] + [lines[i]];
      TorsStep(hosts, lines[..i], lines[i], tors);
      if HostLine(hosts, lines[i]) {
        tors := tors + {lines[i].dst};
      }
    }
    for i := 0 to |lines|
      invariant SwitchesOf(hosts, lines[..i], switchOf) && LastCounts(hosts, lines[..i], switchOf)
    {
      assert lines[..i + 1] == lines[..i] + [lines[i]];
      SwitchesStep(hosts, lines[..i], lines[i], switchOf);
      LastStep(hosts, lines[..i], lines[i], switchOf);
      if HostLine(hosts, lines[i]) {
        switchOf := switchOf[NodeIdToIp(lines[i].src) := lines[i].dst];
      }
    }
  }

  lemma NothingConfigured(hosts: set<Node>)
    ensures TorsOf(hosts, [], {}) && SwitchesOf(hosts, [], map[]) && LastCounts(hosts, [], map[])
  {
  }

  /** Different hosts have different addresses, so the switch entered for a host is one of its own lines. */
  lemma OwnSwitch(g: Net, lines: seq<Line>, tors: set<Node>, switchOf: map<int, Node>, h: Node)
    requires Configured(g.hosts, lines, tors, switchOf) && Addressable(g) && h in g.hosts
    ensures NodeIdToIp(h) in switchOf <==> exists s :: NamedFirst(g.hosts, lines, h, s)
    ensures NodeIdToIp(h) in switchOf ==> NamedFirst(g.hosts, lines, h, switchOf[NodeIdToIp(h)])
  {
    hide NodeIdToIp;
    if NodeIdToIp(h) in switchOf {
      var h' :| NodeIdToIp(h') == NodeIdToIp(h) && NamedFirst(g.hosts, lines, h', switchOf[NodeIdToIp(h)]);
      IpInjective(h, h');
    }
  }

  /** `s` is the only neighbour of `h`, and some line names the host before it; a look-up that finds nothing gives 0. */
  ghost predicate HangsOff(g: Net, lines: seq<Line>, h: Node, s: Node) {
    Under(g, h, s) && (NamedFirst(g.hosts, lines, h, s) || (s == 0 && forall s' :: !NamedFirst(g.hosts, lines, h, s')))
  }

  /** A table configured from the lines of its network knows the switch of every host with a link iff each of these has
      one neighbour, a switch, on a line that names the host first. */
  lemma SingleHomedIff(table: PathTable, lines: seq<Line>)
    requires table.f.Valid() && Wired(lines, table.f.g.links) && (forall l | l in lines :: ValidLine(table.f.g.nodes, l))
    requires Configured(table.f.g.hosts, lines, table.tors, table.hostIp2SwitchId)
    ensures table.SingleHomed() <==> forall h | Connected(table.f.g, h) :: exists s :: HangsOff(table.f.g, lines, h, s)
  {
    var g := table.f.g;
    table.f.ValidParts();
    forall h | Connected(g, h) ensures Under(g, h, table.SwitchOf(h)) <==> exists s :: HangsOff(g, lines, h, s) {
      SwitchOfIff(table, lines, h);
    }
    forall n | n in table.tors ensures g.Switch(n) {
      var h :| NamedFirst(g.hosts, lines, h, n);
      var l :| l in lines && HostLine(g.hosts, l) && l.src == h && l.dst == n;
      assert ValidLine(g.nodes, l);
    }
  }

  lemma SwitchOfIff(table: PathTable, lines: seq<Line>, h: Node)
    requires table.f.g.WellFormed() && Addressable(table.f.g) && Wired(lines, table.f.g.links) && h in table.f.g.hosts
    requires Configured(table.f.g.hosts, lines, table.tors, table.hostIp2SwitchId)
    ensures Under(table.f.g, h, table.SwitchOf(h)) <==> exists s :: HangsOff(table.f.g, lines, h, s)
    ensures forall s :: HangsOff(table.f.g, lines, h, s) ==> s == table.SwitchOf(h)
  {
    var g := table.f.g;
    OwnSwitch(g, lines, table.tors, table.hostIp2SwitchId, h);
    hide NodeIdToIp;
    hide Configured;
    var s := table.SwitchOf(h);
    if NodeIdToIp(h) in table.hostIp2SwitchId { NamedIsLinked(g, lines, h, s); }
    hide NamedFirst;
    if Under(g, h, s) { assert HangsOff(g, lines, h, s); }
    forall s' | HangsOff(g, lines, h, s') ensures s' == s {
      assert g.Up(h, s');
    }
  }

  lemma NamedIsLinked(g: Net, lines: seq<Line>, h: Node, s: Node)
    requires Wired(lines, g.links) && NamedFirst(g.hosts, lines, h, s)
    ensures g.Up(h, s)
  {
    var l :| l in lines && HostLine(g.hosts, l) && l.src == h && l.dst == s;
    assert Joins(l, h, s);
    assert WiredPair(lines, g.links, h, s);
  }
}
