/** Path identifiers of the load balancers: the ports along every switch-to-switch path,
    packed into the four bytes of a 32-bit number. */
module PathIds {
  import opened Topology
  import opened Routing
  import opened Forwarding
  import opened TorPaths

  /** Little-endian number made of the low bytes of the ports. */
  function Pack(ports: seq<int>): int {
    if ports == [] then 0 else ports[0] % 256 + 256 * Pack(ports[1..])
  }

  /** The ports up to the first zero byte. */
  function Unpack(id: int): seq<int>
    requires id >= 0
  {
    if id == 0 then [] else [id % 256] + Unpack(id / 256)
  }

  ghost predicate BytePorts(ports: seq<int>) { forall i | 0 <= i < |ports| :: 1 <= ports[i] <= 255 }

  lemma {:induction false} PackBound(ports: seq<int>)
    ensures Pack(ports) >= 0
    ensures |ports| <= 4 ==> Pack(ports) < TWO_32
    ensures |ports| <= 3 ==> Pack(ports) < 0x100_0000
    ensures |ports| <= 2 ==> Pack(ports) < 0x1_0000
    ensures |ports| <= 1 ==> Pack(ports) < 0x100
  {
    if ports != [] { PackBound(ports[1..]); }
  }

  /** Packing loses nothing as long as all ports are in 1..255, whatever the length of the path. */
  lemma {:induction false} UnpackPack(ports: seq<int>)
    requires BytePorts(ports)
    ensures Pack(ports) >= 0 && Unpack(Pack(ports)) == ports
  {
    PackBound(ports);
    if ports != [] {
      UnpackPack(ports[1..]);
      PackBound(ports[1..]);
      var id := Pack(ports);
      assert id % 256 == ports[0] && id / 256 == Pack(ports[1..]);
      assert ports == [ports[0]] + ports[1..];
    }
  }

  predicate SameByte(a: int, b: int) { a % 256 == b % 256 }

  /** The same low bytes, port by port. */
  ghost predicate Alike(s: seq<int>, t: seq<int>) {
    |s| == |t| && forall i | 0 <= i < |s| :: SameByte(s[i], t[i])
  }

  lemma AlikeTail(s: seq<int>, t: seq<int>)
    requires |s| == |t| > 0
    ensures Alike(s, t) <==> SameByte(s[0], t[0]) && Alike(s[1..], t[1..])
  {
    hide SameByte;
    if SameByte(s[0], t[0]) && Alike(s[1..], t[1..]) {
      forall i | 0 <= i < |s| ensures SameByte(s[i], t[i]) {
        assert i > 0 ==> s[i] == s[1..][i - 1] && t[i] == t[1..][i - 1];
      }
    }
  }

  lemma LowByte(a: int, x: int, b: int, y: int)
    ensures a % 256 + 256 * x == b % 256 + 256 * y <==> SameByte(a, b) && x == y
  {
  }

  /** Port sequences of one length have the same id exactly if they agree port by port in the low byte. */
  lemma {:induction false} PackAlike(s: seq<int>, t: seq<int>)
    requires |s| == |t|
    ensures Pack(s) == Pack(t) <==> Alike(s, t)
  {
    if s != [] {
      AlikeTail(s, t);
      PackAlike(s[1..], t[1..]);
      LowByte(s[0], Pack(s[1..]), t[0], Pack(t[1..]));
    }
  }

  /** So ports above 255 collide with lower ones in every id, at every hop. */
  lemma LargePortsCollide(ports: seq<int>, i: nat)
    requires i < |ports|
    ensures Pack(ports[i := ports[i] + 256]) == Pack(ports)
  {
    var high := ports[i := ports[i] + 256];
    assert SameByte(ports[i] + 256, ports[i]);
    assert forall a :: SameByte(a, a);
    hide SameByte;
    PackAlike(high, ports);
    hide Pack;
    assert forall k | 0 <= k < |ports| :: k != i ==> high[k] == ports[k];
  }

  // ---- enumeration of the paths to one destination -------------------------------------

  /** The ids contributed by the walks that start with ports `pre` and go on from `n` for `k` steps. */
  ghost function Ids(f: Fabric, host: Node, pre: seq<int>, n: Node, k: nat): set<int> {
    set s | s in PortSeqs(f, host, n, k) :: Pack(pre + s)
  }

  /** The same for the walks that go on with one of `ms`. */
  ghost function IdsVia(f: Fabric, host: Node, pre: seq<int>, n: Node, k: nat, ms: seq<Node>): set<int>
    decreases |ms|
  {
    if ms == [] then {}
    else IdsVia(f, host, pre, n, k, ms[..|ms| - 1]) + Ids(f, host, pre + [Port(f, n, ms[|ms| - 1])], ms[|ms| - 1], k)
  }

  lemma {:induction false} IdsViaAll(f: Fabric, host: Node, pre: seq<int>, n: Node, k: nat, ms: seq<Node>, id: int)
    ensures id in IdsVia(f, host, pre, n, k, ms) <==>
              exists m :: m in ms && id in Ids(f, host, pre + [Port(f, n, m)], m, k)
    decreases |ms|
  {
    if ms != [] {
      var i := |ms| - 1;
      IdsViaAll(f, host, pre, n, k, ms[..i], id);
      assert ms == ms[..i] + [ms[i]];
    }
  }

  lemma IdsSplit(f: Fabric, host: Node, pre: seq<int>, n: Node, k: nat, id: int)
    ensures id in Ids(f, host, pre, n, k + 1) <==> id in IdsVia(f, host, pre, n, k, Entry(f.t, n, host))
  {
    hide IdsVia;
    hide Pack;
    hide Port;
    var ms := Entry(f.t, n, host);
    IdsViaAll(f, host, pre, n, k, ms, id);
    if id in Ids(f, host, pre, n, k + 1) {
      var s :| s in PortSeqs(f, host, n, k + 1) && id == Pack(pre + s);
      var m, s' := FirstPort(f, host, n, k + 1, s);
      assert pre + s == pre + [Port(f, n, m)] + s';
      assert id in Ids(f, host, pre + [Port(f, n, m)], m, k);
    }
    if id in IdsVia(f, host, pre, n, k, ms) {
      var m :| m in ms && id in Ids(f, host, pre + [Port(f, n, m)], m, k);
      var s' :| s' in PortSeqs(f, host, m, k) && id == Pack(pre + [Port(f, n, m)] + s');
      assert pre + [Port(f, n, m)] + s' == pre + ([Port(f, n, m)] + s');
      assert [Port(f, n, m)] + s' in PortSeqs(f, host, n, k + 1);
    }
  }

  /** A next hop is one hop closer. */
  lemma CloserHop(f: Fabric, host: Node, n: Node, d: nat, m: Node)
    requires f.Valid() && host in f.g.hosts && f.g.Dist(host, n, d) && m in Entry(f.t, n, host)
    ensures d > 0 && f.g.Dist(host, m, d - 1) && (m == host || f.g.Switch(m))
  {
  }

  /** The test for the last hop: the host's switch is the only next hop exactly at distance 2. */
  lemma LastHopTest(f: Fabric, host: Node, tor: Node, n: Node, d: nat)
    requires f.Valid() && Under(f.g, host, tor) && f.g.Dist(host, n, d)
    ensures Entry(f.t, n, host) == [tor] <==> d == 2
    ensures d > 0 ==> Entry(f.t, n, host) != []
    ensures d == 0 ==> Entry(f.t, n, host) == []
  {
    var hops := Entry(f.t, n, host);
    if d > 0 {
      var m := f.NextHopExists(host, n, d);
      f.EntriesOf(host, n);
    } else if hops != [] {
      CloserHop(f, host, n, d, hops[0]);
    }
    if hops == [tor] {
      CloserHop(f, host, n, d, tor);
      DistanceOne(f.g, host, tor, tor);
      f.g.DistUnique(host, tor, 1, d - 1);
    }
    if d == 2 { OnlyTheTor(f, host, tor, n); }
  }

  lemma HopAtTwo(f: Fabric, host: Node, tor: Node, n: Node, m: Node)
    requires f.Valid() && Under(f.g, host, tor) && f.g.Dist(host, n, 2) && m in Entry(f.t, n, host)
    ensures m == tor
  {
    CloserHop(f, host, n, 2, m);
    hide Fabric.Valid;
    DistanceOne(f.g, host, tor, m);
  }

  lemma OnlyTheTor(f: Fabric, host: Node, tor: Node, n: Node)
    requires f.Valid() && Under(f.g, host, tor) && f.g.Dist(host, n, 2)
    ensures Entry(f.t, n, host) == [tor]
  {
    var hops := Entry(f.t, n, host);
    f.EntriesOf(host, n);
    var m := f.NextHopExists(host, n, 2);
    forall i | 0 <= i < |hops| ensures hops[i] == tor { HopAtTwo(f, host, tor, n, hops[i]); }
    hide Net.Dist;
    assert |hops| == 1;
  }

  lemma LastIds(f: Fabric, host: Node, tor: Node, pre: seq<int>, n: Node, id: int)
    requires Entry(f.t, n, host) == [tor]
    ensures id in Ids(f, host, pre, n, 1) <==> id == Pack(pre + [Port(f, n, tor)])
  {
    hide Pack;
    IdsSplit(f, host, pre, n, 0, id);
    IdsViaAll(f, host, pre, n, 0, [tor], id);
    var q := pre + [Port(f, n, tor)];
    assert q + [] == q;
    assert [] in PortSeqs(f, host, tor, 0);
  }

  type IdMap = map<(Node, Node), set<int>>

  function Get(m: IdMap, src: Node, tor: Node): set<int> {
    if (src, tor) in m then m[(src, tor)] else {}
  }

  /** A host with a link that is up. */
  ghost predicate Connected(g: Net, h: Node) { h in g.hosts && exists m :: g.Up(h, m) }

  /** Path ids between pairs of switches, and the base round-trip times of their paths. */
  class PathTable {
    const f: Fabric
    const oneHopDelay: nat
    /** Switches that have a host, and the switch of every host by its address. */
    const tors: set<Node>
    const hostIp2SwitchId: map<int, Node>
    /** Source and destination switch -> path ids. */
    var ids: IdMap
    var baseRtt: map<(Node, Node), int>

    ghost function IdsOf(src: Node, tor: Node): set<int>
      reads this`ids
    {
      Get(ids, src, tor)
    }

    function SwitchOf(host: Node): Node {
      if NodeIdToIp(host) in hostIp2SwitchId then hostIp2SwitchId[NodeIdToIp(host)] else 0
    }

    /** Every host that has a link hangs off one switch, known by the map. */
    ghost predicate SingleHomed() {
      && (forall h | Connected(f.g, h) :: Under(f.g, h, SwitchOf(h)))
      && (forall n | n in tors :: f.g.Switch(n))
    }

    constructor (f: Fabric, oneHopDelay: nat, tors: set<Node>, hostIp2SwitchId: map<int, Node>)
      ensures this.f == f && this.oneHopDelay == oneHopDelay && this.tors == tors && this.hostIp2SwitchId == hostIp2SwitchId
      ensures ids == map[] && baseRtt == map[]
    {
      this.f, this.oneHopDelay, this.tors, this.hostIp2SwitchId := f, oneHopDelay, tors, hostIp2SwitchId;
      ids, baseRtt := map[], map[];
    }

    /** Enter the path whose ports are in the buffer. */
    method Insert(ports: array<int>, src: Node, tor: Node, hops: nat)
      requires ports.Length == 4
      modifies this`ids, this`baseRtt
      ensures ids == old(ids)[(src, tor) := old(IdsOf(src, tor)) + {Pack(ports[..])}]
      ensures Pack(ports[..]) == ports[0] % 256 + 0x100 * (ports[1] % 256) + 0x1_0000 * (ports[2] % 256) + 0x100_0000 * (ports[3] % 256)
      ensures baseRtt == old(baseRtt)[(src, tor) := oneHopDelay * 2 * hops]
    {
      var id := ports[0] % 256 + 0x100 * (ports[1] % 256) + 0x1_0000 * (ports[2] % 256) + 0x100_0000 * (ports[3] % 256);
      FourBytes(ports[..]);
      ids := ids[(src, tor) := (if (src, tor) in ids then ids[(src, tor)] else {}) + {id}];
      baseRtt := baseRtt[(src, tor) := oneHopDelay * 2 * hops];
    }

    // The three methods below are the three nested loops of the program, innermost first. `k` is the
    // number of hops between the switches `src` and `tor`, fixed by the distance of `src` from `dst`.
    // Buffer bytes from `k` on are never written.

    method ThirdHops(pathPorts: array<int>, src: Node, dst: Node, tor: Node,
                     outPort1: int, outPort2: int, next2: Node, ghost k: nat) returns (ok: bool)
      requires f.Valid() && Under(f.g, dst, tor) && pathPorts.Length == 4
      requires k > 0 && k != 2 && k != 3 && f.g.Dist(dst, next2, if k == 1 then 0 else k - 1)
      modifies pathPorts, this`ids, this`baseRtt
      ensures ok <==> k <= 4
      ensures ok ==> Grew(old(IdsOf(src, tor)), IdsOf(src, tor), if k == 4 then Ids(f, dst, [outPort1, outPort2], next2, 2) else {})
      ensures OthersKept(old(ids), ids, (src, tor))
      ensures ok ==> baseRtt == if k == 4 then old(baseRtt)[(src, tor) := oneHopDelay * 2 * k] else old(baseRtt)
      ensures forall x | k <= x < 4 :: pathPorts[x] == old(pathPorts[x])
    {
      hide Fabric.Valid;
      hide Under;
      hide Net.Dist;
      hide Ids;
      hide IdsVia;
      hide Pack;
      hide Grew;
      hide OthersKept;
      ghost var d := if k == 1 then 0 else k - 1;
      ghost var ids0, a, pre := ids, IdsOf(src, tor), [outPort1, outPort2];
      var nexts3 := Entry(f.t, next2, dst);
      Level(f, dst, tor, pre, next2, d, 1, a, ids0, (src, tor));
      assert nexts3[..0] == [];
      var l := 0;
      while l < |nexts3|
        invariant baseRtt == if k == 4 && l > 0 then old(baseRtt)[(src, tor) := oneHopDelay * 2 * k] else old(baseRtt)
        invariant 0 <= l <= |nexts3| && (k > 4 ==> l == 0) && (k < 4 ==> |nexts3| == 0)
        invariant OthersKept(ids0, ids, (src, tor))
        invariant Grew(a, IdsOf(src, tor), if k == 4 then IdsVia(f, dst, pre, next2, 1, nexts3[..l]) else {})
        invariant forall x | k <= x < 4 :: pathPorts[x] == old(pathPorts[x])
      {
        ghost var ids1, b := ids, IdsOf(src, tor);
        var next3 := nexts3[l];
        NextLevel(f, dst, tor, next2, d, l);
        var outPort3 := Port(f, next2, next3);
        var nexts4 := Entry(f.t, next3, dst);
        if |nexts4| == 1 && nexts4[0] == tor {
          var outPort4 := Port(f, next3, nexts4[0]);
          pathPorts[0], pathPorts[1], pathPorts[2], pathPorts[3] := outPort1, outPort2, outPort3, outPort4;
          Insert(pathPorts, src, tor, 4);
          BufferId(pathPorts[..], pre + [outPort3] + [outPort4]);
          Leaf(f, dst, tor, pre + [outPort3], next3, b, IdsOf(src, tor));
          Accumulate(f, dst, pre, next2, 1, nexts3, l, a, b, IdsOf(src, tor));
          KeptStep(ids0, ids1, ids, (src, tor));
        } else {
          return false;
        }
        l := l + 1;
      }
      assert nexts3[..l] == nexts3;
      if k == 4 { WholeLevel(f, dst, pre, next2, 1, a, IdsOf(src, tor)); }
      return true;
    }

    method SecondHops(pathPorts: array<int>, src: Node, dst: Node, tor: Node,
                      outPort1: int, next1: Node, ghost k: nat) returns (ok: bool)
      requires f.Valid() && Under(f.g, dst, tor) && pathPorts.Length == 4
      requires k > 0 && k != 2 && f.g.Dist(dst, next1, k) && forall x | k <= x < 4 :: pathPorts[x] == 0
      modifies pathPorts, this`ids, this`baseRtt
      ensures ok <==> k <= 4
      ensures ok ==> Grew(old(IdsOf(src, tor)), IdsOf(src, tor), if 3 <= k <= 4 then Ids(f, dst, [outPort1], next1, k - 1) else {})
      ensures OthersKept(old(ids), ids, (src, tor))
      ensures ok ==> baseRtt == if k >= 3 then old(baseRtt)[(src, tor) := oneHopDelay * 2 * k] else old(baseRtt)
      ensures forall x | k <= x < 4 :: pathPorts[x] == 0
    {
      hide Fabric.Valid;
      hide Under;
      hide Net.Dist;
      hide Ids;
      hide IdsVia;
      hide Pack;
      hide Grew;
      hide OthersKept;
      ghost var ids0, a, pre, kk := ids, IdsOf(src, tor), [outPort1], if k >= 3 then k - 2 else 0;
      var nexts2 := Entry(f.t, next1, dst);
      Level(f, dst, tor, pre, next1, k, kk, a, ids0, (src, tor));
      assert nexts2[..0] == [];
      var j := 0;
      while j < |nexts2|
        invariant baseRtt == if k >= 3 && j > 0 then old(baseRtt)[(src, tor) := oneHopDelay * 2 * k] else old(baseRtt)
        invariant 0 <= j <= |nexts2| && (k > 4 ==> j == 0)
        invariant OthersKept(ids0, ids, (src, tor))
        invariant Grew(a, IdsOf(src, tor), if 3 <= k <= 4 then IdsVia(f, dst, pre, next1, kk, nexts2[..j]) else {})
        invariant forall x | k <= x < 4 :: pathPorts[x] == 0
      {
        ghost var ids1, b := ids, IdsOf(src, tor);
        var next2 := nexts2[j];
        NextLevel(f, dst, tor, next1, k, j);
        var outPort2 := Port(f, next1, next2);
        var nexts3 := Entry(f.t, next2, dst);
        if |nexts3| == 1 && nexts3[0] == tor {
          var outPort3 := Port(f, next2, nexts3[0]);
          pathPorts[0], pathPorts[1], pathPorts[2] := outPort1, outPort2, outPort3;
          Insert(pathPorts, src, tor, 3);
          BufferId(pathPorts[..], pre + [outPort2] + [outPort3]);
          Leaf(f, dst, tor, pre + [outPort2], next2, b, IdsOf(src, tor));
          KeptStep(ids0, ids1, ids, (src, tor));
        } else {
          assert pre + [outPort2] == [outPort1, outPort2];
          var deeper := ThirdHops(pathPorts, src, dst, tor, outPort1, outPort2, next2, k);
          KeptStep(ids0, ids1, ids, (src, tor));
          if !deeper {
            return false;
          }
        }
        if k >= 3 { Accumulate(f, dst, pre, next1, kk, nexts2, j, a, b, IdsOf(src, tor)); }
        else { GrewNothing(a, b, IdsOf(src, tor)); }
        j := j + 1;
      }
      assert nexts2[..j] == nexts2;
      if k >= 3 { WholeLevel(f, dst, pre, next1, kk, a, IdsOf(src, tor)); }
      return true;
    }

    /** Enumerate the paths from switch `src` to the switch `tor` of `dst`. Fails exactly when the switches
        are more than four hops apart; adds exactly the ids of all shortest paths of two to four hops. */
    method Enumerate(src: Node, dst: Node, tor: Node, ghost k: nat) returns (ok: bool)
      requires f.Valid() && Under(f.g, dst, tor) && f.g.Dist(dst, src, k + 1) && k > 0
      modifies this`ids, this`baseRtt
      ensures ok <==> k <= 4
      ensures ok ==> Grew(old(IdsOf(src, tor)), IdsOf(src, tor), if k >= 2 then Ids(f, dst, [], src, k) else {})
      ensures OthersKept(old(ids), ids, (src, tor))
      ensures ok ==> baseRtt == if k >= 2 then old(baseRtt)[(src, tor) := oneHopDelay * 2 * k] else old(baseRtt)
    {
      hide Fabric.Valid;
      hide Under;
      hide Net.Dist;
      hide Ids;
      hide IdsVia;
      hide Pack;
      hide Grew;
      hide OthersKept;
      ghost var ids0, a := ids, IdsOf(src, tor);
      var pathPorts := new int[4](_ => 0);
      var nexts1 := Entry(f.t, src, dst);
      Level(f, dst, tor, [], src, k + 1, k - 1, a, ids0, (src, tor));
      assert nexts1[..0] == [];
      var i := 0;
      while i < |nexts1|
        invariant baseRtt == if k >= 2 && i > 0 then old(baseRtt)[(src, tor) := oneHopDelay * 2 * k] else old(baseRtt)
        invariant 0 <= i <= |nexts1| && (k > 4 ==> i == 0)
        invariant OthersKept(ids0, ids, (src, tor))
        invariant Grew(a, IdsOf(src, tor), if 2 <= k <= 4 then IdsVia(f, dst, [], src, k - 1, nexts1[..i]) else {})
        invariant forall x | k <= x < 4 :: pathPorts[x] == 0
      {
        ghost var ids1, b := ids, IdsOf(src, tor);
        var next1 := nexts1[i];
        NextLevel(f, dst, tor, src, k + 1, i);
        var outPort1 := Port(f, src, next1);
        var nexts2 := Entry(f.t, next1, dst);
        assert [] + [outPort1] == [outPort1];
        if |nexts2| == 1 && nexts2[0] == tor {
          var outPort2 := Port(f, next1, nexts2[0]);
          pathPorts[0], pathPorts[1] := outPort1, outPort2;
          Insert(pathPorts, src, tor, 2);
          BufferId(pathPorts[..], [outPort1] + [outPort2]);
          Leaf(f, dst, tor, [outPort1], next1, b, IdsOf(src, tor));
          KeptStep(ids0, ids1, ids, (src, tor));
        } else {
          var deeper := SecondHops(pathPorts, src, dst, tor, outPort1, next1, k);
          KeptStep(ids0, ids1, ids, (src, tor));
          if !deeper {
            return false;
          }
        }
        if k >= 2 { Accumulate(f, dst, [], src, k - 1, nexts1, i, a, b, IdsOf(src, tor)); }
        else { GrewNothing(a, b, IdsOf(src, tor)); }
        i := i + 1;
      }
      assert nexts1[..i] == nexts1;
      if k >= 2 { WholeLevel(f, dst, [], src, k - 1, a, IdsOf(src, tor)); }
      return true;
    }

    // ---- all pairs ----

    /** Some host below `tor` has been handled for `src`. */
    ghost predicate Handled(done: set<(Node, Node)>, src: Node, tor: Node) {
      exists h :: (src, h) in done && SwitchOf(h) == tor && src in tors && src != tor
    }

    ghost predicate Collected(m: IdMap, done: set<(Node, Node)>) {
      forall src, tor :: PairCollected(m, done, src, tor)
    }

    ghost predicate PairCollected(m: IdMap, done: set<(Node, Node)>, src: Node, tor: Node) {
      forall id :: id in Get(m, src, tor) <==> Handled(done, src, tor) && PathId(f, src, tor, id)
    }

    /** Exactly the handled pairs at least two hops apart have a time, which is that of a shortest path there and back. */
    ghost predicate Timed(times: map<(Node, Node), int>, done: set<(Node, Node)>) {
      forall src, tor :: PairTimed(times, Handled(done, src, tor), src, tor)
    }

    ghost predicate PairTimed(times: map<(Node, Node), int>, handled: bool, src: Node, tor: Node) {
      && ((src, tor) in times <==> handled && exists p :: Shortest(f.g, src, tor, p) && |p| >= 3)
      && ((src, tor) in times ==> forall p | Shortest(f.g, src, tor, p) :: times[(src, tor)] == oneHopDelay * 2 * (|p| - 1))
    }

    lemma TimedStep(times: map<(Node, Node), int>, done: set<(Node, Node)>, src: Node, dst: Node, k: nat)
      requires f.Valid() && Under(f.g, dst, SwitchOf(dst)) && f.g.Switch(src) && f.g.Dist(dst, src, k + 1)
      requires src in tors && src != SwitchOf(dst) && Timed(times, done)
      ensures Timed(if k >= 2 then times[(src, SwitchOf(dst)) := oneHopDelay * 2 * k] else times, done + {(src, dst)})
    {
      var tor := SwitchOf(dst);
      var now := if k >= 2 then times[(src, tor) := oneHopDelay * 2 * k] else times;
      f.ValidParts();
      DistanceIsPathLength(f.g, dst, tor, src, k);
      AllOfLength(src, tor, k);
      hide Fabric.Valid;
      hide Under;
      hide Net.Dist;
      hide Shortest;
      forall n, t ensures PairTimed(now, Handled(done + {(src, dst)}, n, t), n, t) {
        assert PairTimed(times, Handled(done, n, t), n, t);
        if n == src && t == tor {
          assert (src, dst) in done + {(src, dst)};
          assert Handled(done + {(src, dst)}, n, t);
        } else {
          HandledOther(done, src, dst, n, t);
        }
      }
    }

    lemma AllOfLength(src: Node, tor: Node, k: nat)
      requires exists p :: Shortest(f.g, src, tor, p) && |p| == k + 1
      ensures forall p | Shortest(f.g, src, tor, p) :: |p| == k + 1
    {
    }

    lemma TimedSkip(times: map<(Node, Node), int>, done: set<(Node, Node)>, src: Node, dst: Node)
      requires Timed(times, done) && (src !in tors || src == SwitchOf(dst))
      ensures Timed(times, done + {(src, dst)})
    {
      forall n, t ensures PairTimed(times, Handled(done + {(src, dst)}, n, t), n, t) {
        assert PairTimed(times, Handled(done, n, t), n, t);
        HandledOther(done, src, dst, n, t);
      }
    }

    lemma NothingTimed()
      ensures Timed(map[], {})
    {
    }

    /** At the end these are the pairs of different switches with hosts. */
    lemma FinishTimes(times: map<(Node, Node), int>, src: Node, tor: Node)
      requires f.Valid() && SingleHomed() && Timed(times, f.t.Keys)
      ensures PairTimed(times, Apart(src, tor), src, tor)
    {
      hide Fabric.Valid;
      hide SingleHomed;
      hide Shortest;
      hide Connected;
      assert PairTimed(times, Handled(f.t.Keys, src, tor), src, tor);
      HandledIsApart(src, tor);
    }

    lemma HandledIsApart(src: Node, tor: Node)
      requires f.Valid() && SingleHomed()
      ensures Handled(f.t.Keys, src, tor) ==> Apart(src, tor)
      ensures Apart(src, tor) && (exists p :: Shortest(f.g, src, tor, p)) ==> Handled(f.t.Keys, src, tor)
    {
      hide Fabric.Valid;
      hide SingleHomed;
      hide Shortest;
      hide Connected;
      if Handled(f.t.Keys, src, tor) {
        var h :| (src, h) in f.t.Keys && SwitchOf(h) == tor && src in tors && src != tor;
        KeyConnected(src, h);
      }
      if Apart(src, tor) && exists p :: Shortest(f.g, src, tor, p) {
        var h :| Connected(f.g, h) && SwitchOf(h) == tor;
        var p :| Shortest(f.g, src, tor, p);
        PairHandled(src, h, p);
      }
    }

    /** No handled pair is more than four hops apart. */
    ghost predicate Near(done: set<(Node, Node)>) {
      forall key | key in done && key.0 in tors && key.0 != SwitchOf(key.1) :: NearPair(key.0, SwitchOf(key.1))
    }

    ghost predicate NearPair(src: Node, tor: Node) {
      forall p | Shortest(f.g, src, tor, p) :: |p| <= 5
    }

    /** A key of the next-hop map whose source is another switch is at least two hops from its host. */
    lemma KeyDistance(src: Node, dst: Node) returns (k: nat)
      requires f.Valid() && SingleHomed() && (src, dst) in f.t && src in tors && src != SwitchOf(dst)
      ensures Connected(f.g, dst) && Under(f.g, dst, SwitchOf(dst)) && f.g.Switch(src)
      ensures k > 0 && f.g.Dist(dst, src, k + 1)
    {
      f.EntriesOf(dst, src);
      f.NoEntry(dst, src);
      assert (src, dst) in f.t && f.t[(src, dst)] != [];
      var p :| f.g.RouteTo(dst, src, p);
      var d := f.g.DistExists(dst, src, p);
      assert f.g.Up(p[0], p[0 + 1]);
      DistanceOne(f.g, dst, SwitchOf(dst), src);
      k := d - 1;
    }

    lemma NearIff(src: Node, dst: Node, k: nat)
      requires f.Valid() && Under(f.g, dst, SwitchOf(dst)) && f.g.Switch(src) && f.g.Dist(dst, src, k + 1)
      ensures NearPair(src, SwitchOf(dst)) <==> k <= 4
    {
      DistanceIsPathLength(f.g, dst, SwitchOf(dst), src, k);
    }

    lemma CollectedStep(m: IdMap, m': IdMap, done: set<(Node, Node)>, src: Node, dst: Node, k: nat)
      requires f.Valid() && Under(f.g, dst, SwitchOf(dst)) && f.g.Switch(src) && f.g.Dist(dst, src, k + 1) && k <= 4
      requires src in tors && src != SwitchOf(dst) && Collected(m, done)
      requires Grew(Get(m, src, SwitchOf(dst)), Get(m', src, SwitchOf(dst)), if k >= 2 then Ids(f, dst, [], src, k) else {})
      requires OthersKept(m, m', (src, SwitchOf(dst)))
      ensures Collected(m', done + {(src, dst)})
    {
      hide Fabric.Valid;
      hide Under;
      hide PathId;
      hide Ids;
      hide Net.Dist;
      forall n, t ensures PairCollected(m', done + {(src, dst)}, n, t) {
        assert PairCollected(m, done, n, t);
        if n == src && t == SwitchOf(dst) {
          assert (src, dst) in done + {(src, dst)};
          assert Handled(done + {(src, dst)}, n, t);
          forall id ensures id in Get(m', n, t) <==> PathId(f, n, t, id) {
            IdsArePathIds(f, dst, t, src, k, id);
          }
        } else {
          HandledOther(done, src, dst, n, t);
          assert (n, t) != (src, SwitchOf(dst));
          assert Get(m', n, t) == Get(m, n, t);
        }
      }
    }

    lemma HandledOther(done: set<(Node, Node)>, src: Node, dst: Node, n: Node, t: Node)
      requires !(n == src && t == SwitchOf(dst)) || src !in tors || src == SwitchOf(dst)
      ensures Handled(done + {(src, dst)}, n, t) <==> Handled(done, n, t)
    {
    }

    lemma CollectedSkip(m: IdMap, done: set<(Node, Node)>, src: Node, dst: Node)
      requires Collected(m, done) && (src !in tors || src == SwitchOf(dst))
      ensures Collected(m, done + {(src, dst)})
    {
      hide PathId;
      forall n, t ensures PairCollected(m, done + {(src, dst)}, n, t) {
        assert PairCollected(m, done, n, t);
        HandledOther(done, src, dst, n, t);
      }
    }

    /** A pair of connected switches, the second with a host, is some key of the next-hop map. */
    lemma PairHandled(src: Node, dst: Node, p: seq<Node>)
      requires f.Valid() && SingleHomed() && src in tors && Connected(f.g, dst) && src != SwitchOf(dst)
      requires Shortest(f.g, src, SwitchOf(dst), p)
      ensures (src, dst) in f.t && Handled(f.t.Keys, src, SwitchOf(dst))
    {
      DistanceOfPath(f.g, dst, SwitchOf(dst), src, p);
      f.NoEntry(dst, src);
      f.EntriesOf(dst, src);
      assert (src, dst) in f.t.Keys;
    }

    /** `tor` is another switch, with a connected host below. */
    ghost predicate Apart(src: Node, tor: Node) {
      src in tors && src != tor && exists h :: Connected(f.g, h) && SwitchOf(h) == tor
    }

    lemma FinishNear(src: Node, dst: Node)
      requires f.Valid() && SingleHomed() && src in tors && Connected(f.g, dst) && src != SwitchOf(dst)
      requires Near(f.t.Keys)
      ensures NearPair(src, SwitchOf(dst))
    {
      hide Fabric.Valid;
      hide SingleHomed;
      hide Shortest;
      if p :| Shortest(f.g, src, SwitchOf(dst), p) {
        PairHandled(src, dst, p);
      }
    }

    lemma Finish(m: IdMap, src: Node, tor: Node)
      requires f.Valid() && SingleHomed() && Collected(m, f.t.Keys)
      ensures forall id :: id in Get(m, src, tor) <==> Apart(src, tor) && PathId(f, src, tor, id)
    {
      hide Fabric.Valid;
      hide SingleHomed;
      hide Shortest;
      hide Get;
      hide Connected;
      assert PairCollected(m, f.t.Keys, src, tor);
      HandledIsApart(src, tor);
    }

    lemma KeyConnected(src: Node, dst: Node)
      requires f.Valid() && SingleHomed() && (src, dst) in f.t && src in tors && src != SwitchOf(dst)
      ensures Connected(f.g, dst)
    {
      var k := KeyDistance(src, dst);
    }

    /** Enumerate the paths between all pairs of switches that have hosts. Succeeds iff no two of them are
        more than four hops apart, and then the ids of every pair are exactly those of its shortest paths. */
    method Build() returns (ok: bool)
      requires f.Valid() && SingleHomed() && ids == map[] && baseRtt == map[]
      modifies this`ids, this`baseRtt
      ensures ok ==> forall src, tor :: PairTimed(baseRtt, Apart(src, tor), src, tor)
      ensures ok <==> forall src, tor | Apart(src, tor) :: NearPair(src, tor)
      ensures ok ==> forall src, tor, id :: id in IdsOf(src, tor) <==> Apart(src, tor) && PathId(f, src, tor, id)
    {
      hide Fabric.Valid;
      hide SingleHomed;
      hide Under;
      hide Net.Dist;
      hide PathId;
      hide Collected;
      hide Near;
      hide NearPair;
      hide Ids;
      hide Grew;
      hide OthersKept;
      hide SwitchOf;
      hide Connected;
      var todo := f.t.Keys;
      assert f.t.Keys - todo == {};
      NothingYet();
      NothingTimed();
      hide Timed;
      hide PairTimed;
      while todo != {}
        invariant todo <= f.t.Keys && Collected(ids, f.t.Keys - todo) && Near(f.t.Keys - todo)
        invariant Timed(baseRtt, f.t.Keys - todo)
        decreases todo
      {
        var key := Pick(todo);
        var src, dst := key.0, key.1;
        ghost var done, before, times := f.t.Keys - todo, ids, baseRtt;
        assert f.t.Keys - (todo - {key}) == done + {(src, dst)};
        if src in tors && src != SwitchOf(dst) {
          ghost var k := KeyDistance(src, dst);
          NearIff(src, dst, k);
          ok := Enumerate(src, dst, SwitchOf(dst), k);
          if !ok {
            KeyConnected(src, dst);
            return false;
          }
          CollectedStep(before, ids, done, src, dst, k);
          TimedStep(times, done, src, dst, k);
          NearStep(done, src, dst);
        } else {
          CollectedSkip(ids, done, src, dst);
          TimedSkip(baseRtt, done, src, dst);
          NearStep(done, src, dst);
        }
        todo := todo - {key};
      }
      ok := true;
      assert f.t.Keys - todo == f.t.Keys;
      forall src, tor ensures forall id :: id in IdsOf(src, tor) <==> Apart(src, tor) && PathId(f, src, tor, id) {
        Finish(ids, src, tor);
      }
      forall src, tor ensures PairTimed(baseRtt, Apart(src, tor), src, tor) { FinishTimes(baseRtt, src, tor); }
      forall src, tor | Apart(src, tor) ensures NearPair(src, tor) {
        var h :| Connected(f.g, h) && SwitchOf(h) == tor;
        FinishNear(src, h);
      }
    }

    lemma NothingYet()
      ensures Collected(map[], {}) && Near({})
    {
    }

    lemma NearStep(done: set<(Node, Node)>, src: Node, dst: Node)
      requires Near(done) && (src in tors && src != SwitchOf(dst) ==> NearPair(src, SwitchOf(dst)))
      ensures Near(done + {(src, dst)})
    {
    }
  }

  /** `id` packs the ports of some shortest path from `src` to `tor` that has two to four hops. */
  ghost predicate PathId(f: Fabric, src: Node, tor: Node, id: int) {
    exists p :: Shortest(f.g, src, tor, p) && 3 <= |p| <= 5 && id == Pack(PortsAlong(f, p))
  }

  /** The enumerated ids do not depend on the host: they are those of the shortest paths between the switches. */
  lemma IdsArePathIds(f: Fabric, host: Node, tor: Node, src: Node, k: nat, id: int)
    requires f.Valid() && Under(f.g, host, tor) && f.g.Switch(src) && f.g.Dist(host, src, k + 1) && k <= 4
    ensures id in (if k >= 2 then Ids(f, host, [], src, k) else {}) <==> PathId(f, src, tor, id)
  {
    hide Pack;
    hide PortSeqs;
    hide Fabric.Valid;
    hide SwitchPath;
    hide Under;
    assert f.g.WellFormed() by { f.ValidParts(); }
    DistanceIsPathLength(f.g, host, tor, src, k);
    if k >= 2 && id in Ids(f, host, [], src, k) {
      var s :| s in PortSeqs(f, host, src, k) && id == Pack([] + s);
      assert [] + s == s;
      PortSeqsArePaths(f, host, tor, src, k, s);
      var p :| PathWithPorts(f, src, tor, k, s, p);
      assert Shortest(f.g, src, tor, p);
    }
    if PathId(f, src, tor, id) {
      var p :| Shortest(f.g, src, tor, p) && 3 <= |p| <= 5 && id == Pack(PortsAlong(f, p));
      DistanceOfPath(f.g, host, tor, src, p);
      f.g.DistUnique(host, src, |p|, k + 1);
      var s := PortsAlong(f, p);
      assert PathWithPorts(f, src, tor, k, s, p);
      PortSeqsArePaths(f, host, tor, src, k, s);
      assert [] + s == s;
      assert id == Pack([] + s);
    }
  }

  /** The ports of the `i`-th hop have the same low byte. */
  ghost predicate HopAlike(f: Fabric, p: seq<Node>, q: seq<Node>, i: int)
    requires 0 <= i < |p| - 1 && |p| == |q|
  {
    SameByte(Port(f, p[i], p[i + 1]), Port(f, q[i], q[i + 1]))
  }

  /** Two shortest paths of a pair have the same id exactly if their ports agree hop by hop modulo 256. */
  lemma PathsAlike(f: Fabric, src: Node, tor: Node, p: seq<Node>, q: seq<Node>)
    requires Shortest(f.g, src, tor, p) && Shortest(f.g, src, tor, q)
    ensures |p| == |q|
    ensures Pack(PortsAlong(f, p)) == Pack(PortsAlong(f, q)) <==> forall i | 0 <= i < |p| - 1 :: HopAlike(f, p, q, i)
  {
    PackAlike(PortsAlong(f, p), PortsAlong(f, q));
    AlikeAlong(f, p, q);
    hide Pack;
    hide PortsAlong;
    hide Alike;
    hide SwitchPath;
    hide HopAlike;
  }

  lemma AlikeAlong(f: Fabric, p: seq<Node>, q: seq<Node>)
    requires |p| == |q| > 0
    ensures Alike(PortsAlong(f, p), PortsAlong(f, q)) <==> forall i | 0 <= i < |p| - 1 :: HopAlike(f, p, q, i)
  {
    var s, t := PortsAlong(f, p), PortsAlong(f, q);
    forall i | 0 <= i < |p| - 1 ensures SameByte(s[i], t[i]) <==> HopAlike(f, p, q, i) {
      HopPorts(f, p, q, i);
    }
    hide HopAlike;
    hide SameByte;
    hide PortsAlong;
  }

  lemma HopPorts(f: Fabric, p: seq<Node>, q: seq<Node>, i: nat)
    requires |p| == |q| && i < |p| - 1
    ensures SameByte(PortsAlong(f, p)[i], PortsAlong(f, q)[i]) <==> HopAlike(f, p, q, i)
  {
    hide SameByte;
    hide Port;
  }

  /** With at most 255 ports per switch, different shortest paths have different ids. */
  lemma DistinctPathIds(f: Fabric, src: Node, tor: Node, p: seq<Node>, q: seq<Node>)
    requires f.g.WellFormed() && Shortest(f.g, src, tor, p) && Shortest(f.g, src, tor, q)
    requires forall n, m | f.g.Up(n, m) :: f.g.If(n, m).idx <= 255
    requires Pack(PortsAlong(f, p)) == Pack(PortsAlong(f, q))
    ensures p == q
  {
    BytesAlong(f, src, tor, p);
    BytesAlong(f, src, tor, q);
    UnpackPack(PortsAlong(f, p));
    UnpackPack(PortsAlong(f, q));
    PortsIdentifyPath(f, src, p, q, tor, tor);
  }

  lemma BytesAlong(f: Fabric, src: Node, tor: Node, p: seq<Node>)
    requires f.g.WellFormed() && SwitchPath(f.g, src, tor, p)
    requires forall n, m | f.g.Up(n, m) :: f.g.If(n, m).idx <= 255
    ensures BytePorts(PortsAlong(f, p))
  {
  }

  lemma GrewNothing(a: set<int>, b: set<int>, c: set<int>)
    requires Grew(a, b, {}) && Grew(b, c, {})
    ensures Grew(a, c, {})
  {
  }

  /** `now` holds the ids of `before` and those in `more`. */
  ghost predicate Grew(before: set<int>, now: set<int>, more: set<int>) {
    forall id :: id in now <==> id in before || id in more
  }

  ghost predicate OthersKept(before: IdMap, now: IdMap, key: (Node, Node)) {
    forall x | x != key :: (x in now <==> x in before) && (x in now ==> now[x] == before[x])
  }

  lemma KeptStep(a: IdMap, b: IdMap, c: IdMap, key: (Node, Node))
    requires OthersKept(a, b, key) && OthersKept(b, c, key)
    ensures OthersKept(a, c, key)
  {
  }

  /** The start of a loop over the next hops of a node at distance `d`. */
  lemma Level(f: Fabric, host: Node, tor: Node, pre: seq<int>, n: Node, d: nat, k: nat,
              a: set<int>, ids: IdMap, key: (Node, Node))
    requires f.Valid() && Under(f.g, host, tor) && f.g.Dist(host, n, d)
    ensures Grew(a, a, {}) && Grew(a, a, IdsVia(f, host, pre, n, k, [])) && OthersKept(ids, ids, key)
    ensures Entry(f.t, n, host) == [] <==> d == 0
  {
    LastHopTest(f, host, tor, n, d);
  }

  /** The `i`-th next hop of a node at distance `d`. */
  lemma NextLevel(f: Fabric, host: Node, tor: Node, n: Node, d: nat, i: nat)
    requires f.Valid() && Under(f.g, host, tor) && f.g.Dist(host, n, d) && i < |Entry(f.t, n, host)|
    ensures var m := Entry(f.t, n, host)[i];
            d > 0 && f.g.Dist(host, m, d - 1) && (Entry(f.t, m, host) == [tor] <==> d == 3)
  {
    var m := Entry(f.t, n, host)[i];
    CloserHop(f, host, n, d, m);
    LastHopTest(f, host, tor, m, d - 1);
  }

  /** The last hop adds one id. */
  lemma Leaf(f: Fabric, host: Node, tor: Node, pre: seq<int>, n: Node, b: set<int>, c: set<int>)
    requires Entry(f.t, n, host) == [tor] && c == b + {Pack(pre + [Port(f, n, tor)])}
    ensures Grew(b, c, Ids(f, host, pre, n, 1))
  {
    hide Ids;
    hide Pack;
    forall id ensures id in c <==> id in b || id in Ids(f, host, pre, n, 1) {
      LastIds(f, host, tor, pre, n, id);
    }
  }

  /** One more next hop has been followed. */
  lemma Accumulate(f: Fabric, host: Node, pre: seq<int>, n: Node, k: nat, ms: seq<Node>, i: nat,
                   a: set<int>, b: set<int>, c: set<int>)
    requires i < |ms| && Grew(a, b, IdsVia(f, host, pre, n, k, ms[..i]))
    requires Grew(b, c, Ids(f, host, pre + [Port(f, n, ms[i])], ms[i], k))
    ensures Grew(a, c, IdsVia(f, host, pre, n, k, ms[..i + 1]))
  {
    hide Ids;
    assert ms[..i + 1][..i] == ms[..i];
  }

  /** All next hops have been followed. */
  lemma WholeLevel(f: Fabric, host: Node, pre: seq<int>, n: Node, k: nat, a: set<int>, b: set<int>)
    requires Grew(a, b, IdsVia(f, host, pre, n, k, Entry(f.t, n, host)))
    ensures Grew(a, b, Ids(f, host, pre, n, k + 1))
  {
    hide Ids;
    hide IdsVia;
    forall id ensures id in b <==> id in a || id in Ids(f, host, pre, n, k + 1) {
      IdsSplit(f, host, pre, n, k, id);
    }
  }

  lemma BufferId(buffer: seq<int>, ports: seq<int>)
    requires |buffer| == 4 && ports <= buffer && forall x | |ports| <= x < 4 :: buffer[x] == 0
    ensures Pack(buffer) == Pack(ports)
  {
    PackPadded(ports, 4 - |ports|);
    assert buffer == ports + seq(4 - |ports|, _ => 0);
  }

  lemma FourBytes(a: seq<int>)
    requires |a| == 4
    ensures Pack(a) == a[0] % 256 + 0x100 * (a[1] % 256) + 0x1_0000 * (a[2] % 256) + 0x100_0000 * (a[3] % 256)
  {
    assert a[3..][1..] == [] && a[2..][1..] == a[3..] && a[1..][1..] == a[2..];
    assert Pack(a[3..]) == a[3] % 256;
    assert Pack(a[2..]) == a[2] % 256 + 256 * Pack(a[3..]);
    assert Pack(a[1..]) == a[1] % 256 + 256 * Pack(a[2..]);
  }

  /** Zero bytes behind the ports do not change the id. */
  lemma {:induction false} PackPadded(ports: seq<int>, zeros: nat)
    ensures Pack(ports + seq(zeros, _ => 0)) == Pack(ports)
    decreases |ports|, zeros
  {
    var z := seq(zeros, _ => 0);
    if ports == [] {
      assert ports + z == z;
      if zeros > 0 {
        assert z[1..] == seq(zeros - 1, _ => 0) == [] + seq(zeros - 1, _ => 0);
        PackPadded([], zeros - 1);
      }
    } else {
      assert (ports + z)[1..] == ports[1..] + z;
      PackPadded(ports[1..], zeros);
    }
  }

  /** The low byte of the interface with which hop `i` of a path leaves, or zero behind the path. */
  ghost function HopByte(g: Net, p: seq<Node>, i: nat): int
    requires forall k | 0 <= k < |p| - 1 :: g.Up(p[k], p[k + 1])
  {
    if i + 1 < |p| then
      assert g.Up(p[i], p[i + 1]);
      g.If(p[i], p[i + 1]).idx % 256
    else 0
  }

  /** The id of a path of up to four hops, byte by byte. */
  lemma IdBytes(f: Fabric, p: seq<Node>)
    requires 2 <= |p| <= 5 && forall k | 0 <= k < |p| - 1 :: f.g.Up(p[k], p[k + 1])
    ensures Pack(PortsAlong(f, p)) ==
              HopByte(f.g, p, 0) + 0x100 * HopByte(f.g, p, 1) + 0x1_0000 * HopByte(f.g, p, 2) + 0x100_0000 * HopByte(f.g, p, 3)
  {
    var zeros := 5 - |p|;
    var bytes := PortsAlong(f, p) + seq(zeros, _ => 0);
    PackPadded(PortsAlong(f, p), zeros);
    FourBytes(bytes);
    hide Pack;
    forall i: nat | i < 4 ensures bytes[i] % 256 == HopByte(f.g, p, i) {
      assert i + 1 < |p| ==> bytes[i] == PortsAlong(f, p)[i] && f.g.Up(p[i], p[i + 1]);
    }
  }

}
