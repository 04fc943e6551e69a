/** Building the simulated network from the link list of a topology file. */
module Wiring {
  import opened Topology

  /** A line of the file: the ends, the propagation delay and the rate. */
  datatype Line = Line(src: Node, dst: Node, delay: nat, bw: nat)

  predicate Touches(l: Line, n: Node) { l.src == n || l.dst == n }

  /** How many devices the lines give to a node, which has a loop-back device to begin with. */
  function Devices(lines: seq<Line>, n: Node): (d: nat)
    ensures d >= 1
  {
    if lines == [] then 1
    else
      var l := lines[|lines| - 1];
      Devices(lines[..|lines| - 1], n) + (if l.src == n then 1 else 0) + if l.dst == n then 1 else 0
  }

  predicate Joins(l: Line, n: Node, m: Node) { (l.src == n && l.dst == m) || (l.src == m && l.dst == n) }

  ghost predicate Joined(lines: seq<Line>, n: Node, m: Node) { exists l :: l in lines && Joins(l, n, m) }

  /** The last line of the pair. */
  ghost function LastLine(lines: seq<Line>, n: Node, m: Node): Line
    requires Joined(lines, n, m)
  {
    assert lines == lines[..|lines| - 1] + [lines[|lines| - 1]];
    if Joins(lines[|lines| - 1], n, m) then lines[|lines| - 1] else LastLine(lines[..|lines| - 1], n, m)
  }

  /** The device number that the last line of the pair gives to `n`. */
  ghost function DeviceOf(lines: seq<Line>, n: Node, m: Node): nat
    requires Joined(lines, n, m)
  {
    var k := |lines| - 1;
    assert lines == lines[..k] + [lines[k]];
    if Joins(lines[k], n, m) then Devices(lines[..k], n) else DeviceOf(lines[..k], n, m)
  }

  /** The neighbour map of the lines: exactly their pairs, all up, with the delay and rate of their line and the
      device number it gave, and with interfaces numbered apart below the next device number of the node. */
  ghost predicate Wired(lines: seq<Line>, links: Links) {
    forall n, m :: WiredPair(lines, links, n, m)
  }

  ghost predicate WiredPair(lines: seq<Line>, links: Links, n: Node, m: Node) {
    && (Has(links, n, m) <==> Joined(lines, n, m))
    && (Has(links, n, m) ==> links[n][m].up && 0 < links[n][m].idx < Devices(lines, n) && IsRate(links[n][m].bw))
    && (Has(links, n, m) ==> var l := LastLine(lines, n, m); links[n][m].delay == l.delay && links[n][m].bw == l.bw)
    && (Has(links, n, m) ==> links[n][m].idx == DeviceOf(lines, n, m))
    && (Has(links, n, m) ==> forall k | Has(links, n, k) && links[n][m].idx == links[n][k].idx :: m == k)
  }

  ghost predicate Has(links: Links, n: Node, m: Node) { n in links && m in links[n] }

  /** One end of a new line. */
  lemma SetIfHas(links: Links, a: Node, b: Node, i: Interface, n: Node, m: Node)
    ensures Has(SetIf(links, a, b, i), n, m) <==> Has(links, n, m) || (n == a && m == b)
    ensures Has(SetIf(links, a, b, i), n, m) ==>
              SetIf(links, a, b, i)[n][m] == if n == a && m == b then i else links[n][m]
  {
  }

  lemma JoinedAppend(lines: seq<Line>, l: Line, n: Node, m: Node)
    ensures Joined(lines + [l], n, m) <==> Joined(lines, n, m) || Joins(l, n, m)
    ensures Devices(lines + [l], n) == Devices(lines, n) + (if l.src == n then 1 else 0) + if l.dst == n then 1 else 0
    ensures Joined(lines + [l], n, m) ==> LastLine(lines + [l], n, m) == if Joins(l, n, m) then l else LastLine(lines, n, m)
    ensures Joined(lines + [l], n, m) ==>
              DeviceOf(lines + [l], n, m) == if Joins(l, n, m) then Devices(lines, n) else DeviceOf(lines, n, m)
  {
    assert (lines + [l])[..|lines|] == lines;
    if Joined(lines, n, m) {
      var k :| k in lines && Joins(k, n, m);
      assert k in lines + [l];
    }
    assert l in lines + [l];
  }

  lemma AddLine(lines: seq<Line>, links: Links, l: Line, i: Interface, j: Interface)
    requires Wired(lines, links) && l.src != l.dst && i.up && j.up && IsRate(i.bw) && IsRate(j.bw)
    requires i.idx == Devices(lines, l.src) && j.idx == Devices(lines, l.dst)
    requires i.delay == j.delay == l.delay && i.bw == j.bw == l.bw
    ensures Wired(lines + [l], SetIf(SetIf(links, l.src, l.dst, i), l.dst, l.src, j))
  {
    var half := SetIf(links, l.src, l.dst, i);
    var now := SetIf(half, l.dst, l.src, j);
    hide Devices;
    hide Joined;
    hide LastLine;
    hide DeviceOf;
    hide SetIf;
    forall n, m ensures WiredPair(lines + [l], now, n, m) {
      assert WiredPair(lines, links, n, m);
      JoinedAppend(lines, l, n, m);
      SetIfHas(links, l.src, l.dst, i, n, m);
      SetIfHas(half, l.dst, l.src, j, n, m);
      forall k | Has(now, n, m) && Has(now, n, k) && now[n][m].idx == now[n][k].idx ensures m == k {
        assert WiredPair(lines, links, n, k);
        SetIfHas(links, l.src, l.dst, i, n, k);
        SetIfHas(half, l.dst, l.src, j, n, k);
      }
    }
  }

  /** Line `k` is the last one of the pair, and gives the link its data; the number of the device at `n` counts the lines
      of `n` up to this one. */
  ghost predicate FromLine(lines: seq<Line>, k: nat, n: Node, m: Node, i: Interface)
    requires k < |lines|
  {
    && ((lines[k].src == n && lines[k].dst == m) || (lines[k].src == m && lines[k].dst == n))
    && (forall j | k < j < |lines| :: !(lines[j].src == n && lines[j].dst == m) && !(lines[j].src == m && lines[j].dst == n))
    && i.up && i.delay == lines[k].delay && i.bw == lines[k].bw
    && i.idx == |set j | 0 <= j <= k && (lines[j].src == n || lines[j].dst == n)|
  }

  lemma {:induction false} DevicesAre(lines: seq<Line>, n: Node)
    requires forall l | l in lines :: l.src != l.dst
    ensures Devices(lines, n) == 1 + |set j | 0 <= j < |lines| && (lines[j].src == n || lines[j].dst == n)|
  {
    if lines != [] {
      var k := |lines| - 1;
      DevicesAre(lines[..k], n);
      var before := set j | 0 <= j < k && (lines[..k][j].src == n || lines[..k][j].dst == n);
      assert lines[k] in lines;
      assert before == set j | 0 <= j < k && (lines[j].src == n || lines[j].dst == n);
      assert (set j | 0 <= j < |lines| && (lines[j].src == n || lines[j].dst == n))
          == if lines[k].src == n || lines[k].dst == n then before + {k} else before;
    }
  }

  lemma {:induction false} LastOf(lines: seq<Line>, n: Node, m: Node) returns (k: nat)
    requires Joined(lines, n, m)
    ensures k < |lines| && Joins(lines[k], n, m) && lines[k] == LastLine(lines, n, m)
    ensures forall j | k < j < |lines| :: !Joins(lines[j], n, m)
    ensures DeviceOf(lines, n, m) == Devices(lines[..k], n)
  {
    k := |lines| - 1;
    if !Joins(lines[k], n, m) {
      var before := lines[..k];
      assert lines == before + [lines[k]];
      k := LastOf(before, n, m);
      assert before[..k] == lines[..k];
    }
  }

  lemma WiredFromLine(lines: seq<Line>, links: Links, n: Node, m: Node) returns (k: nat)
    requires Wired(lines, links) && Has(links, n, m) && forall l | l in lines :: l.src != l.dst
    ensures k < |lines| && FromLine(lines, k, n, m, links[n][m])
  {
    assert WiredPair(lines, links, n, m);
    k := LastOf(lines, n, m);
    var upto := lines[..k];
    DevicesAre(upto, n);
    var before := set j | 0 <= j < k && (upto[j].src == n || upto[j].dst == n);
    assert before == set j | 0 <= j < k && (lines[j].src == n || lines[j].dst == n);
    assert (set j | 0 <= j <= k && (lines[j].src == n || lines[j].dst == n)) == before + {k};
  }

  predicate ValidLine(nodes: set<Node>, l: Line) { l.src in nodes && l.dst in nodes && l.src != l.dst && IsRate(l.bw) }

  /** Create a channel for every line, giving each end the next device number of its node. */
  method BuildTopology(nodes: set<Node>, hosts: set<Node>, lines: seq<Line>) returns (links: Links)
    requires hosts <= nodes && forall l | l in lines :: ValidLine(nodes, l)
    ensures Wired(lines, links)
    ensures Net(nodes, hosts, links).WellFormed()
    ensures forall n, m | Has(links, n, m) :: exists k: nat | k < |lines| :: FromLine(lines, k, n, m, links[n][m])
  {
    links := map[];
    var devices := map n | n in nodes :: 1;
    for i := 0 to |lines|
      invariant Wired(lines[..i], links)
      invariant forall n | n in nodes :: n in devices && devices[n] == Devices(lines[..i], n)
    {
      var l := lines[i];
      assert ValidLine(nodes, l);
      var dSrc, dDst := devices[l.src], devices[l.dst];
      AddLine(lines[..i], links, l, Interface(dSrc, true, l.delay, l.bw), Interface(dDst, true, l.delay, l.bw));
      forall n ensures Devices(lines[..i + 1], n) == Devices(lines[..i], n) + (if l.src == n then 1 else 0) + if l.dst == n then 1 else 0 {
        assert lines[..i + 1] == lines[..i] + [l];
        JoinedAppend(lines[..i], l, n, n);
      }
      assert lines[..i + 1] == lines[..i] + [l];
      hide *;
      links := SetIf(links, l.src, l.dst, Interface(dSrc, true, l.delay, l.bw));
      links := SetIf(links, l.dst, l.src, Interface(dDst, true, l.delay, l.bw));
      devices := devices[l.src := dSrc + 1];
      devices := devices[l.dst := dDst + 1];
    }
    assert lines[..|lines|] == lines;
    WiredIsWellFormed(nodes, hosts, lines, links);
    forall n, m | Has(links, n, m) ensures exists k: nat | k < |lines| :: FromLine(lines, k, n, m, links[n][m]) {
      var k := WiredFromLine(lines, links, n, m);
    }
  }

  lemma WiredIsWellFormed(nodes: set<Node>, hosts: set<Node>, lines: seq<Line>, links: Links)
    requires hosts <= nodes && (forall l | l in lines :: ValidLine(nodes, l)) && Wired(lines, links)
    ensures Net(nodes, hosts, links).WellFormed()
  {
    var g := Net(nodes, hosts, links);
    forall n, m ensures WiredPair(lines, links, n, m) && (g.Linked(n, m) <==> Joined(lines, n, m)) && (Joined(lines, n, m) <==> Joined(lines, m, n)) {
      assert WiredPair(lines, links, n, m);
      assert WiredPair(lines, links, m, n);
    }
  }

  function Other(l: Line, n: Node): Node { if l.src == n then l.dst else l.src }

  /** The other ends of the lines of a node, in the order of the file. */
  function Peers(lines: seq<Line>, n: Node): seq<Node> {
    if lines == [] then []
    else
      var l := lines[|lines| - 1];
      Peers(lines[..|lines| - 1], n) + if Touches(l, n) then [Other(l, n)] else []
  }

  lemma {:induction false} PeersAreJoined(lines: seq<Line>, n: Node, m: Node)
    requires forall l | l in lines :: l.src != l.dst
    ensures m in Peers(lines, n) <==> Joined(lines, n, m)
  {
    if lines != [] {
      var k := |lines| - 1;
      PeersAreJoined(lines[..k], n, m);
      assert lines == lines[..k] + [lines[k]];
      JoinedAppend(lines[..k], lines[k], n, m);
    }
  }

  /** A node has one device for each of its lines besides the loop-back one, and if no pair repeats, its `k`-th line
      gave it device `k`, counted from 1. */
  lemma {:induction false} DevicesInOrder(lines: seq<Line>, n: Node)
    requires forall l | l in lines :: l.src != l.dst
    ensures Devices(lines, n) == 1 + |Peers(lines, n)|
    ensures Distinct(Peers(lines, n)) ==>
              forall k | 0 <= k < |Peers(lines, n)| :: IsDevice(lines, n, Peers(lines, n)[k], k + 1)
  {
    if lines != [] {
      var i := |lines| - 1;
      var rest, l := lines[..i], lines[i];
      assert lines == rest + [l];
      var before, peers := Peers(rest, n), Peers(lines, n);
      DevicesInOrder(rest, n);
      if Distinct(peers) {
        assert forall k | 0 <= k < |before| :: before[k] == peers[k];
        forall k | 0 <= k < |peers| ensures IsDevice(lines, n, peers[k], k + 1) {
          assert k < |before| ==> IsDevice(rest, n, before[k], k + 1);
          JoinedAppend(rest, l, n, peers[k]);
          assert k < |before| && Touches(l, n) ==> peers[k] != peers[|before|] == Other(l, n);
        }
      }
    }
  }

  ghost predicate IsDevice(lines: seq<Line>, n: Node, m: Node, d: nat) {
    Joined(lines, n, m) && DeviceOf(lines, n, m) == d
  }
}
