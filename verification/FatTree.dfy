/** The fat-tree generator: the link list it writes is the fat tree of its arity, and between two
    edge switches the tree has exactly the shortest paths that the path enumeration handles. */
module FatTree {
  import opened Topology
  import opened Routing
  import opened Forwarding
  import opened TorPaths
  import opened PathIds
  import opened Wiring

  /** A node by its place: server `slot` of a rack, a server that is only declared, edge or aggregation switch of a pod, or core switch `c` of
      those joined to the `a`-th aggregation switches. */
  datatype Place = Server(rack: nat, slot: nat) | Spare(i: nat) | Tor(pod: nat, t: nat) | Agg(pod: nat, a: nat) | Core(a: nat, c: nat)

  type Pair = (int, int)

  /** Half the arity, the servers per edge switch, and the declared servers beyond these. */
  datatype Tree = Tree(half: nat, slots: nat, spare: nat) {

    function Racks(): nat { 2 * half * half }
    function Cabled(): nat { Racks() * slots }
    function Servers(): nat { Cabled() + spare }
    function Switches(): nat { 2 * Racks() + half * half }
    function Nodes(): nat { Servers() + Switches() }

    predicate In(x: Place) {
      match x
      case Server(r, s) => r < Racks() && s < slots
      case Spare(i) => i < spare
      case Tor(p, i) => p < 2 * half && i < half
      case Agg(p, a) => p < 2 * half && a < half
      case Core(a, c) => a < half && c < half
    }

    /** Nodes are numbered servers first, then edge, aggregation and core switches. */
    function Id(x: Place): int {
      match x
      case Server(r, s) => At(slots, r, s)
      case Spare(i) => Cabled() + i
      case Tor(p, i) => Servers() + At(half, p, i)
      case Agg(p, a) => Servers() + Racks() + At(half, p, a)
      case Core(a, c) => Servers() + 2 * Racks() + At(half, a, c)
    }

    /** The cabling of a fat tree: a server to the switch of its rack, the edge and the aggregation switches of a
        pod to each other, and the `a`-th aggregation switch of every pod to the `a`-th group of cores. */
    predicate Wired(x: Place, y: Place) {
      match (x, y)
      case (Server(r, _), Tor(p, i)) => r == At(half, p, i)
      case (Tor(p, _), Agg(q, _)) => p == q
      case (Agg(_, a), Core(b, _)) => a == b
      case _ => false
    }

    ghost predicate Joins(x: Place, y: Place, e: Pair) {
      In(x) && In(y) && Wired(x, y) && e == (Id(x), Id(y))
    }

    ghost predicate IsLink(e: Pair) { exists x, y :: Joins(x, y, e) }

    lemma IdRange(x: Place)
      requires In(x)
      ensures match x
              case Server(_, _) => 0 <= Id(x) < Cabled()
              case Spare(_) => Cabled() <= Id(x) < Servers()
              case Tor(_, _) => Servers() <= Id(x) < Servers() + Racks()
              case Agg(_, _) => Servers() + Racks() <= Id(x) < Servers() + 2 * Racks()
              case Core(_, _) => Servers() + 2 * Racks() <= Id(x) < Nodes()
    {
      hide At;
      match x
      case Server(r, s) => Within(slots, r, s, Racks());
      case Spare(i) =>
      case Tor(p, i) => Within(half, p, i, 2 * half);
      case Agg(p, a) => Within(half, p, a, 2 * half);
      case Core(a, c) => Within(half, a, c, half);
    }

    /** Different places have different numbers, ... */
    lemma IdInjective(x: Place, y: Place)
      requires In(x) && In(y) && Id(x) == Id(y)
      ensures x == y
    {
      hide At;
      IdRange(x);
      IdRange(y);
      match (x, y)
      case (Server(r, s), Server(r', s')) => SameDigits(slots, r, s, r', s');
      case (Tor(p, i), Tor(p', i')) => SameDigits(half, p, i, p', i');
      case (Agg(p, i), Agg(p', i')) => SameDigits(half, p, i, p', i');
      case (Core(p, i), Core(p', i')) => SameDigits(half, p, i, p', i');
      case _ =>
    }

    /** ... and every number below the node count belongs to a place: the declared counts are those of the tree. */
    lemma IdSurjective(n: nat) returns (x: Place)
      requires n < Nodes()
      ensures In(x) && Id(x) == n
      ensures x.Server? <==> n < Cabled()
      ensures IsHost(x) <==> n < Servers()
    {
      if n < Cabled() {
        x := ServerAt(n);
      } else if n < Servers() {
        x := Spare(n - Cabled());
      } else {
        x := SwitchAt(n);
      }
    }

    lemma ServerAt(n: nat) returns (x: Place)
      requires n < Cabled()
      ensures In(x) && Id(x) == n && x.Server?
    {
      var r, s := Split(slots, n, Racks());
      x := Server(r, s);
    }

    lemma SwitchAt(n: nat) returns (x: Place)
      requires Servers() <= n < Nodes()
      ensures In(x) && Id(x) == n && !IsHost(x)
    {
      var m := n - Servers();
      hide Servers;
      hide At;
      if m < Racks() {
        var p, i := Split(half, m, 2 * half);
        x := Tor(p, i);
      } else if m < 2 * Racks() {
        var p, a := Split(half, m - Racks(), 2 * half);
        x := Agg(p, a);
      } else {
        var a, c := Split(half, m - 2 * Racks(), half);
        x := Core(a, c);
      }
    }
  }

  predicate IsHost(x: Place) { x.Server? || x.Spare? }

  // ---- two-digit numbers ------------------------------------------------------------------

  function At(n: nat, a: nat, b: nat): nat { a * n + b }

  lemma Within(n: nat, a: nat, b: nat, m: nat)
    requires b < n && a < m
    ensures At(n, a, b) < m * n
  {
    assert (a + 1) * n <= m * n;
  }

  lemma Ordered(n: nat, a: nat, b: nat, c: nat, d: nat)
    requires b < n && a < c
    ensures At(n, a, b) < At(n, c, d)
  {
    assert (a + 1) * n <= c * n;
  }

  lemma SameDigits(n: nat, a: nat, b: nat, c: nat, d: nat)
    requires b < n && d < n && At(n, a, b) == At(n, c, d)
    ensures a == c && b == d
  {
    if a < c { Ordered(n, a, b, c, d); }
    if c < a { Ordered(n, c, d, a, b); }
  }

  lemma Digits(n: nat, k: nat, m: nat)
    requires k < m * n
    ensures n > 0 && k / n < m && k % n < n && At(n, k / n, k % n) == k
  {
  }

  lemma Split(n: nat, k: nat, m: nat) returns (a: nat, b: nat)
    requires k < m * n
    ensures a < m && b < n && At(n, a, b) == k
  {
    Digits(n, k, m);
    a, b := k / n, k % n;
  }

  lemma Join(n: nat, a: nat, b: nat, m: nat) returns (k: nat)
    requires a < m && b < n
    ensures k < m * n && k / n == a && k % n == b
  {
    k := At(n, a, b);
    Within(n, a, b, m);
    Digits(n, k, m);
    SameDigits(n, k / n, k % n, a, b);
  }

  // ---- the generator ------------------------------------------------------------------------

  predicate Before(e: Pair, e': Pair) { e.0 < e'.0 || (e.0 == e'.0 && e.1 < e'.1) }

  predicate Ascending(links: seq<Pair>) { forall i, j | 0 <= i < j < |links| :: Before(links[i], links[j]) }

  ghost predicate Sound(t: Tree, links: seq<Pair>) { forall e | e in links :: t.IsLink(e) }

  /** Everything written so far comes before the pair `(x, y)`. */
  predicate UpTo(links: seq<Pair>, x: int, y: int) { forall e | e in links :: Before(e, (x, y)) }

  lemma Append(t: Tree, links: seq<Pair>, x: Place, y: Place)
    requires Ascending(links) && Sound(t, links) && UpTo(links, t.Id(x), t.Id(y))
    requires t.In(x) && t.In(y) && t.Wired(x, y)
    ensures var now := links + [(t.Id(x), t.Id(y))];
            Ascending(now) && Sound(t, now) && UpTo(now, t.Id(x), t.Id(y) + 1)
  {
    assert t.Joins(x, y, (t.Id(x), t.Id(y)));
  }

  lemma Later(links: seq<Pair>, x: int, y: int, x': int, y': int)
    requires UpTo(links, x, y) && (x < x' || (x == x' && y <= y'))
    ensures UpTo(links, x', y')
  {
  }

  /** The servers per edge switch and per pod for an arity of `2 * h`, each rounded down. */
  function PerTor(h: nat, oversubscript: real): nat
    requires oversubscript >= 0.0
  {
    (h as real * oversubscript).Floor
  }

  function PerPod(h: nat, oversubscript: real): nat
    requires oversubscript >= 0.0
  {
    (h as real * h as real * oversubscript).Floor
  }

  /** Rounding per pod never gives fewer servers than rounding per switch, and as many exactly if the fractions lost by
      the switches of a pod do not add up to a server. */
  lemma Rounding(h: nat, oversubscript: real)
    requires oversubscript >= 0.0
    ensures PerPod(h, oversubscript) >= h * PerTor(h, oversubscript)
    ensures var share := h as real * oversubscript;
            PerPod(h, oversubscript) == h * PerTor(h, oversubscript) <==> h as real * (share - share.Floor as real) < 1.0
  {
    var share := h as real * oversubscript;
    var n := share.Floor;
    var lost := h as real * (share - n as real);
    assert h as real * h as real * oversubscript == h as real * share == (h * n) as real + lost;
    assert lost >= 0.0;
  }

  /** The tree of an arity and an over-subscription: servers that are counted by the pod but not cabled are spare. */
  function TreeOf(k: nat, oversubscript: real): Tree
    requires oversubscript >= 0.0
  {
    var h := k / 2;
    Rounding(h, oversubscript);
    Tree(h, PerTor(h, oversubscript), 2 * h * (PerPod(h, oversubscript) - h * PerTor(h, oversubscript)))
  }

  /** The counts of the tree: the servers of a switch and those of a pod are the whole parts of their shares. */
  lemma TreeIs(k: nat, oversubscript: real) returns (m: nat)
    requires k % 2 == 0 && oversubscript >= 0.0
    ensures var t, h := TreeOf(k, oversubscript), (k / 2) as real;
            && 2 * t.half == k
            && t.slots as real <= h * oversubscript < t.slots as real + 1.0
            && t.Servers() == k * m && m as real <= h * h * oversubscript < m as real + 1.0
  {
    var t := TreeOf(k, oversubscript);
    m := PerPod(k / 2, oversubscript);
    Rounding(k / 2, oversubscript);
    var lost := m - t.half * t.slots;
    assert 2 * t.half * lost == 2 * t.half * m - 2 * t.half * (t.half * t.slots);
  }

  /** The links by their numbers, with `n` servers to an edge switch, servers first: a server is linked to the switch with
      the number of its rack, ... */
  predicate RackLink(n: nat, racks: nat, servers: nat, e: Pair) {
    n > 0 && 0 <= e.0 < racks * n && e.1 == servers + e.0 / n
  }

  /** ... an edge and an aggregation switch if they are in the same pod, ... */
  predicate PodLink(h: nat, racks: nat, servers: nat, e: Pair) {
    && h > 0 && servers <= e.0 < servers + racks && servers + racks <= e.1 < servers + 2 * racks
    && (e.0 - servers) / h == (e.1 - servers - racks) / h
  }

  /** ... and the aggregation switch with number `a` of its pod to group `a` of the cores. */
  predicate CoreLink(h: nat, racks: nat, servers: nat, e: Pair) {
    && h > 0 && servers + racks <= e.0 < servers + 2 * racks && servers + 2 * racks <= e.1 < servers + 2 * racks + h * h
    && (e.0 - servers - racks) % h == (e.1 - servers - 2 * racks) / h
  }

  lemma LinkNumbers(t: Tree, e: Pair)
    ensures t.IsLink(e) <==>
              || RackLink(t.slots, 2 * t.half * t.half, t.Servers(), e)
              || PodLink(t.half, 2 * t.half * t.half, t.Servers(), e)
              || CoreLink(t.half, 2 * t.half * t.half, t.Servers(), e)
  {
    assert t.Racks() == 2 * t.half * t.half;
    hide *;
    if t.IsLink(e) {
      var x, y := EndsOf(t, e);
      if x.Server? {
        RackHasNumbers(t, x, y, e);
      } else if x.Tor? {
        PodHasNumbers(t, x, y, e);
      } else {
        CoreHasNumbers(t, x, y, e);
      }
    }
    if RackLink(t.slots, t.Racks(), t.Servers(), e) { NumbersInRack(t, e); }
    if PodLink(t.half, t.Racks(), t.Servers(), e) { NumbersInPod(t, e); }
    if CoreLink(t.half, t.Racks(), t.Servers(), e) { NumbersInCore(t, e); }
  }

  lemma EndsOf(t: Tree, e: Pair) returns (x: Place, y: Place)
    requires t.IsLink(e)
    ensures t.Joins(x, y, e) && (x.Server? || x.Tor? || x.Agg?)
  {
    x, y :| t.Joins(x, y, e);
  }

  lemma RackHasNumbers(t: Tree, x: Place, y: Place, e: Pair)
    requires t.Joins(x, y, e) && x.Server?
    ensures RackLink(t.slots, t.Racks(), t.Servers(), e)
  {
    Within(t.slots, x.rack, x.slot, t.Racks());
    JoinIs(t.slots, x.rack, x.slot);
    hide Tree.Racks;
    hide Tree.Servers;
    hide At;
  }

  lemma PodHasNumbers(t: Tree, x: Place, y: Place, e: Pair)
    requires t.Joins(x, y, e) && x.Tor?
    ensures PodLink(t.half, t.Racks(), t.Servers(), e)
  {
    t.IdRange(x);
    t.IdRange(y);
    JoinIs(t.half, x.pod, x.t);
    JoinIs(t.half, y.pod, y.a);
    hide Tree.Racks;
    hide Tree.Servers;
    hide At;
  }

  lemma CoreHasNumbers(t: Tree, x: Place, y: Place, e: Pair)
    requires t.Joins(x, y, e) && x.Agg?
    ensures CoreLink(t.half, t.Racks(), t.Servers(), e)
  {
    t.IdRange(x);
    Within(t.half, y.a, y.c, t.half);
    JoinIs(t.half, x.pod, x.a);
    JoinIs(t.half, y.a, y.c);
    hide Tree.Racks;
    hide Tree.Servers;
    hide At;
  }

  lemma JoinIs(n: nat, a: nat, b: nat)
    requires b < n
    ensures At(n, a, b) / n == a && At(n, a, b) % n == b
  {
    Within(n, a, b, a + 1);
    Digits(n, At(n, a, b), a + 1);
    SameDigits(n, At(n, a, b) / n, At(n, a, b) % n, a, b);
  }

  lemma NumbersInRack(t: Tree, e: Pair)
    requires RackLink(t.slots, t.Racks(), t.Servers(), e)
    ensures t.IsLink(e)
  {
    var r, s := Digits2(t.slots, e.0, t.Racks());
    assert r < 2 * t.half * t.half;
    var p, i := Digits2(t.half, r, 2 * t.half);
    hide Tree.Racks;
    hide Tree.Servers;
    hide At;
    assert t.Joins(Server(r, s), Tor(p, i), e);
  }

  lemma NumbersInPod(t: Tree, e: Pair)
    requires PodLink(t.half, t.Racks(), t.Servers(), e)
    ensures t.IsLink(e)
  {
    var p, i := Digits2(t.half, e.0 - t.Servers(), 2 * t.half);
    var q, a := Digits2(t.half, e.1 - t.Servers() - t.Racks(), 2 * t.half);
    hide Tree.Racks;
    hide Tree.Servers;
    hide At;
    assert t.Joins(Tor(p, i), Agg(q, a), e);
  }

  lemma NumbersInCore(t: Tree, e: Pair)
    requires CoreLink(t.half, t.Racks(), t.Servers(), e)
    ensures t.IsLink(e)
  {
    var p, i := Digits2(t.half, e.0 - t.Servers() - t.Racks(), 2 * t.half);
    var a, c := Digits2(t.half, e.1 - t.Servers() - 2 * t.Racks(), t.half);
    hide Tree.Racks;
    hide Tree.Servers;
    hide At;
    assert t.Joins(Agg(p, i), Core(a, c), e);
  }

  lemma Digits2(n: nat, k: nat, m: nat) returns (a: nat, b: nat)
    requires k < m * n
    ensures n > 0 && a < m && b < n && a == k / n && b == k % n && At(n, a, b) == k
  {
    Digits(n, k, m);
    a, b := k / n, k % n;
  }

  lemma WholeShare(h: nat, n: nat)
    ensures var share := h as real * n as real;
            share.Floor == h * n && h as real * (share - share.Floor as real) == 0.0
  {
    assert h as real * n as real == (h * n) as real;
  }

  /** With a whole over-subscription every declared server is cabled. */
  lemma NoneSpare(k: nat, oversubscript: nat)
    ensures TreeOf(k, oversubscript as real) == Tree(k / 2, k / 2 * oversubscript, 0)
  {
    var h := k / 2;
    Rounding(h, oversubscript as real);
    WholeShare(h, oversubscript);
    assert PerTor(h, oversubscript as real) == h * oversubscript;
    hide PerTor;
    hide PerPod;
    var lost := PerPod(h, oversubscript as real) - h * PerTor(h, oversubscript as real);
    assert lost == 0;
    assert 2 * h * lost == 0;
  }

  /** The ends of a link above the racks: between edge and aggregation switches, or aggregation and core ones. */
  function Lower(core: bool, p: nat, i: nat): Place { if core then Agg(p, i) else Tor(p, i) }

  function Upper(core: bool, p: nat, i: nat, a: nat): Place { if core then Core(i, a) else Agg(p, a) }

  function Cable(t: Tree, core: bool, p: nat, i: nat, a: nat): Pair {
    (t.Id(Lower(core, p, i)), t.Id(Upper(core, p, i, a)))
  }

  function RackSwitch(t: Tree, r: nat): Place
    requires t.half > 0
  {
    Tor(r / t.half, r % t.half)
  }

  lemma RackSwitchIs(t: Tree, r: nat, s: nat)
    requires r < t.Racks() && s < t.slots
    ensures t.half > 0 && t.In(RackSwitch(t, r)) && t.Id(RackSwitch(t, r)) == t.Servers() + r
    ensures t.In(Server(r, s)) && t.Wired(Server(r, s), RackSwitch(t, r))
  {
  }

  predicate Reached(p: nat, i: nat, a: nat, p0: nat, i0: nat, a0: nat) {
    p < p0 || (p == p0 && (i < i0 || (i == i0 && a < a0)))
  }

  /** The loops over a layer have written all its links before those of the `a0`-th upper end of switch `i0` in pod `p0`. */
  ghost predicate LayerDone(t: Tree, core: bool, links: seq<Pair>, p0: nat, i0: nat, a0: nat) {
    forall p: nat, i: nat, a: nat | p < 2 * t.half && i < t.half && a < t.half && Reached(p, i, a, p0, i0, a0) ::
      Cable(t, core, p, i, a) in links
  }

  ghost predicate RacksDone(t: Tree, links: seq<Pair>, r0: nat, s0: nat) {
    forall r: nat, s: nat | r < t.Racks() && s < t.slots && (r < r0 || (r == r0 && s < s0)) ::
      (t.Id(Server(r, s)), t.Servers() + r) in links
  }

  lemma LayerStep(t: Tree, core: bool, links: seq<Pair>, p: nat, i: nat, a: nat)
    requires Ascending(links) && Sound(t, links) && LayerDone(t, core, links, p, i, a)
    requires UpTo(links, Cable(t, core, p, i, a).0, Cable(t, core, p, i, a).1)
    requires p < 2 * t.half && i < t.half && a < t.half
    ensures var now := links + [Cable(t, core, p, i, a)];
            && Ascending(now) && Sound(t, now) && LayerDone(t, core, now, p, i, a + 1)
            && UpTo(now, Cable(t, core, p, i, a).0, Cable(t, core, p, i, a).1 + 1)
  {
    Append(t, links, Lower(core, p, i), Upper(core, p, i, a));
    hide Cable;
    hide Ascending;
    hide Sound;
    hide UpTo;
  }

  lemma Carry(n: nat, a: nat)
    ensures At(n, a, n) == At(n, a + 1, 0)
  {
  }

  lemma AtIs(n: nat, a: nat, b: nat)
    ensures At(n, a, b) == a * n + b
    ensures At(n, a, b + 1) == At(n, a, b) + 1
  {
  }

  lemma RackStep(t: Tree, links: seq<Pair>, r: nat, s: nat)
    requires Ascending(links) && Sound(t, links) && RacksDone(t, links, r, s) && UpTo(links, At(t.slots, r, s), 0)
    requires r < t.Racks() && s < t.slots
    ensures var now := links + [(At(t.slots, r, s), t.Servers() + r)];
            Ascending(now) && Sound(t, now) && RacksDone(t, now, r, s + 1) && UpTo(now, At(t.slots, r, s) + 1, 0)
  {
    RackSwitchIs(t, r, s);
    hide At;
    hide Tree.Racks;
    Later(links, At(t.slots, r, s), 0, At(t.slots, r, s), t.Servers() + r);
    Append(t, links, Server(r, s), RackSwitch(t, r));
    hide Ascending;
    hide Sound;
    Later(links + [(At(t.slots, r, s), t.Servers() + r)], At(t.slots, r, s), t.Servers() + r + 1, At(t.slots, r, s) + 1, 0);
    hide UpTo;
  }

  lemma RackEnd(t: Tree, links: seq<Pair>, r: nat)
    requires RacksDone(t, links, r, t.slots)
    ensures RacksDone(t, links, r + 1, 0)
  {
  }

  method WriteServerLinks(t: Tree) returns (links: seq<Pair>)
    ensures Ascending(links) && Sound(t, links) && RacksDone(t, links, t.Racks(), 0)
    ensures UpTo(links, t.Servers(), 0)
    ensures |links| == t.Cabled()
  {
    links := [];
    var iTor := t.Servers();
    assert RacksDone(t, [], 0, 0) && At(t.slots, 0, 0) == 0 && At(t.slots, t.Racks(), 0) == t.Cabled() <= t.Servers();
    hide *;
    for p := 0 to t.Racks()
      invariant Ascending(links) && Sound(t, links) && RacksDone(t, links, p, 0)
      invariant UpTo(links, At(t.slots, p, 0), 0)
      invariant |links| == At(t.slots, p, 0)
    {
      for i := 0 to t.slots
        invariant Ascending(links) && Sound(t, links) && RacksDone(t, links, p, i)
        invariant UpTo(links, At(t.slots, p, i), 0)
        invariant |links| == At(t.slots, p, i)
      {
        var idServer := p * t.slots + i;
        var idTor := iTor + p;
        AtIs(t.slots, p, i);
        RackStep(t, links, p, i);
        links := links + [(idServer, idTor)];
      }
      Carry(t.slots, p);
      RackEnd(t, links, p);
    }
    Later(links, t.Cabled(), 0, t.Servers(), 0);
  }

  lemma LayerEnds(t: Tree, core: bool, links: seq<Pair>, p: nat, i: nat)
    ensures LayerDone(t, core, links, p, i, t.half) ==> LayerDone(t, core, links, p, i + 1, 0)
    ensures LayerDone(t, core, links, p, t.half, 0) ==> LayerDone(t, core, links, p + 1, 0, 0)
  {
  }

  method WriteTorLinks(t: Tree, written: seq<Pair>) returns (links: seq<Pair>)
    requires Ascending(written) && Sound(t, written) && UpTo(written, t.Servers(), 0)
    ensures Ascending(links) && Sound(t, links) && LayerDone(t, false, links, 2 * t.half, 0, 0)
    ensures written <= links && UpTo(links, t.Servers() + t.Racks(), 0)
    ensures |links| == |written| + t.Racks() * t.half
  {
    links := written;
    var iTor := t.Servers();
    var iAgg := t.Servers() + t.Racks();
    assert LayerDone(t, false, written, 0, 0, 0) && At(t.half, 0, 0) == 0 && At(t.half, 2 * t.half, 0) == t.Racks();
    hide *;
    for i := 0 to 2 * t.half
      invariant Ascending(links) && Sound(t, links) && LayerDone(t, false, links, i, 0, 0)
      invariant written <= links && UpTo(links, iTor + At(t.half, i, 0), 0)
      invariant |links| == |written| + At(t.half, At(t.half, i, 0), 0)
    {
      for j := 0 to t.half
        invariant Ascending(links) && Sound(t, links) && LayerDone(t, false, links, i, j, 0)
        invariant written <= links && UpTo(links, iTor + At(t.half, i, j), 0)
        invariant |links| == |written| + At(t.half, At(t.half, i, j), 0)
      {
        Later(links, iTor + At(t.half, i, j), 0, iTor + At(t.half, i, j), iAgg + At(t.half, i, 0));
        for l := 0 to t.half
          invariant Ascending(links) && Sound(t, links) && LayerDone(t, false, links, i, j, l)
          invariant written <= links && UpTo(links, iTor + At(t.half, i, j), iAgg + At(t.half, i, l))
          invariant |links| == |written| + At(t.half, At(t.half, i, j), l)
        {
          var idTor := iTor + i * t.half + j;
          var idAgg := iAgg + i * t.half + l;
          AtIs(t.half, i, j);
          AtIs(t.half, i, l);
          AtIs(t.half, At(t.half, i, j), l);
          assert Cable(t, false, i, j, l) == (idTor, idAgg) by { TorCable(t, i, j, l); }
          LayerStep(t, false, links, i, j, l);
          links := links + [(idTor, idAgg)];
        }
        Later(links, iTor + At(t.half, i, j), iAgg + At(t.half, i, t.half), iTor + At(t.half, i, j) + 1, 0);
        AtIs(t.half, i, j);
        Carry(t.half, At(t.half, i, j));
        LayerEnds(t, false, links, i, j);
      }
      Carry(t.half, i);
      LayerEnds(t, false, links, i, 0);
    }
  }

  method WriteCoreLinks(t: Tree, written: seq<Pair>) returns (links: seq<Pair>)
    requires Ascending(written) && Sound(t, written) && UpTo(written, t.Servers() + t.Racks(), 0)
    ensures Ascending(links) && Sound(t, links) && LayerDone(t, true, links, 2 * t.half, 0, 0)
    ensures written <= links && UpTo(links, t.Servers() + 2 * t.Racks(), 0)
    ensures |links| == |written| + t.Racks() * t.half
  {
    links := written;
    var iAgg := t.Servers() + t.Racks();
    var iCore := t.Servers() + 2 * t.Racks();
    assert LayerDone(t, true, written, 0, 0, 0) && At(t.half, 0, 0) == 0 && At(t.half, 2 * t.half, 0) == t.Racks();
    hide *;
    for i := 0 to 2 * t.half
      invariant Ascending(links) && Sound(t, links) && LayerDone(t, true, links, i, 0, 0)
      invariant written <= links && UpTo(links, iAgg + At(t.half, i, 0), 0)
      invariant |links| == |written| + At(t.half, At(t.half, i, 0), 0)
    {
      for j := 0 to t.half
        invariant Ascending(links) && Sound(t, links) && LayerDone(t, true, links, i, j, 0)
        invariant written <= links && UpTo(links, iAgg + At(t.half, i, j), 0)
        invariant |links| == |written| + At(t.half, At(t.half, i, j), 0)
      {
        Later(links, iAgg + At(t.half, i, j), 0, iAgg + At(t.half, i, j), iCore + At(t.half, j, 0));
        for l := 0 to t.half
          invariant Ascending(links) && Sound(t, links) && LayerDone(t, true, links, i, j, l)
          invariant written <= links && UpTo(links, iAgg + At(t.half, i, j), iCore + At(t.half, j, l))
          invariant |links| == |written| + At(t.half, At(t.half, i, j), l)
        {
          var idAgg := iAgg + i * t.half + j;
          var idCore := iCore + j * t.half + l;
          AtIs(t.half, i, j);
          AtIs(t.half, j, l);
          AtIs(t.half, At(t.half, i, j), l);
          assert Cable(t, true, i, j, l) == (idAgg, idCore) by { TorCable(t, i, j, l); }
          LayerStep(t, true, links, i, j, l);
          links := links + [(idAgg, idCore)];
        }
        Later(links, iAgg + At(t.half, i, j), iCore + At(t.half, j, t.half), iAgg + At(t.half, i, j) + 1, 0);
        AtIs(t.half, i, j);
        Carry(t.half, At(t.half, i, j));
        LayerEnds(t, true, links, i, j);
      }
      Carry(t.half, i);
      LayerEnds(t, true, links, i, 0);
    }
  }

  lemma TorCable(t: Tree, p: nat, i: nat, a: nat)
    ensures Cable(t, false, p, i, a) == (t.Servers() + At(t.half, p, i), t.Servers() + t.Racks() + At(t.half, p, a))
    ensures Cable(t, true, p, i, a) == (t.Servers() + t.Racks() + At(t.half, p, i), t.Servers() + 2 * t.Racks() + At(t.half, i, a))
  {
  }

  lemma Counts(k: nat, oversubscript: real, h: nat)
    requires k == 2 * h && oversubscript >= 0.0
    ensures var t := TreeOf(k, oversubscript);
            && PerPod(h, oversubscript) * k == t.Servers() && h * k == t.Racks()
            && t.Switches() == h * k + h * k + h * h && t.Nodes() == t.Servers() + t.Switches()
  {
  }

  lemma AllWritten(t: Tree, links: seq<Pair>, e: Pair)
    requires RacksDone(t, links, t.Racks(), 0) && LayerDone(t, false, links, 2 * t.half, 0, 0)
    requires LayerDone(t, true, links, 2 * t.half, 0, 0) && t.IsLink(e)
    ensures e in links
  {
    var x: Place, y: Place :| t.Joins(x, y, e);
    hide At;
    match (x, y)
    case (Server(r, s), Tor(p, i)) => assert e == (t.Id(Server(r, s)), t.Servers() + r);
    case (Tor(p, i), Agg(_, a)) => assert e == Cable(t, false, p, i, a);
    case (Agg(p, i), Core(_, a)) => assert e == Cable(t, true, p, i, a);
    case _ =>
  }

  lemma DoneStays(t: Tree, links: seq<Pair>, more: seq<Pair>)
    requires links <= more
    ensures RacksDone(t, links, t.Racks(), 0) ==> RacksDone(t, more, t.Racks(), 0)
    ensures LayerDone(t, false, links, 2 * t.half, 0, 0) ==> LayerDone(t, false, more, 2 * t.half, 0, 0)
  {
  }

  /** For every even arity the generator writes exactly the links of the fat tree, none twice, and declares the
      right numbers of nodes, the spare servers included, of switches and of links. */
  method Generate(k: nat, oversubscript: real) returns (links: seq<Pair>, numNode: nat, numSwitch: nat, numLink: nat)
    requires k % 2 == 0 && oversubscript >= 0.0
    ensures forall e :: e in links <==> TreeOf(k, oversubscript).IsLink(e)
    ensures Ascending(links) && numLink == |links|
    ensures var t := TreeOf(k, oversubscript);
            numNode == t.Nodes() && numSwitch == t.Switches() && numLink == t.Cabled() + 2 * (t.Racks() * t.half)
  {
    hide *;
    var h := k / 2;
    var nCore := h * h;
    var nServerTotal := PerPod(h, oversubscript) * k;
    var nTorTotal := h * k;
    var nAggTotal := h * k;
    ghost var t := TreeOf(k, oversubscript);
    Counts(k, oversubscript, h);
    numNode := nServerTotal + nTorTotal + nAggTotal + nCore;
    numSwitch := nTorTotal + nAggTotal + nCore;
    links := WriteLinks(TreeOf(k, oversubscript));
    numLink := |links|;
  }

  method WriteLinks(t: Tree) returns (links: seq<Pair>)
    ensures (forall e :: e in links <==> t.IsLink(e)) && Ascending(links)
    ensures |links| == t.Cabled() + 2 * (t.Racks() * t.half)
  {
    hide *;
    var servers := WriteServerLinks(t);
    var edges := WriteTorLinks(t, servers);
    links := WriteCoreLinks(t, edges);
    DoneStays(t, servers, edges);
    DoneStays(t, edges, links);
    forall e ensures e in links <==> t.IsLink(e) {
      if t.IsLink(e) { AllWritten(t, links, e); }
      if e in links { Genuine(t, links, e); }
    }
  }

  lemma Genuine(t: Tree, links: seq<Pair>, e: Pair)
    requires Sound(t, links) && e in links
    ensures t.IsLink(e)
  {
  }

  /** No link is written in the other direction either. */
  lemma LinksGoUp(t: Tree, e: Pair)
    requires t.IsLink(e)
    ensures e.0 < e.1 && !t.IsLink((e.1, e.0))
  {
    Upward(t, e);
    if t.IsLink((e.1, e.0)) { Upward(t, (e.1, e.0)); }
  }

  lemma Upward(t: Tree, e: Pair)
    requires t.IsLink(e)
    ensures e.0 < e.1
  {
    var x: Place, y: Place :| t.Joins(x, y, e);
    t.IdRange(x);
    t.IdRange(y);
    hide At;
    hide Tree.Racks;
  }

  /** Links of the list are the wired pairs of places. */
  lemma LinkMeansWired(t: Tree, x: Place, y: Place)
    requires t.In(x) && t.In(y)
    ensures t.IsLink((t.Id(x), t.Id(y))) <==> t.Wired(x, y)
  {
    if t.Wired(x, y) {
      assert t.Joins(x, y, (t.Id(x), t.Id(y)));
    }
    if t.IsLink((t.Id(x), t.Id(y))) {
      var x': Place, y': Place :| t.Joins(x', y', (t.Id(x), t.Id(y)));
      t.IdInjective(x, x');
      t.IdInjective(y, y');
    }
  }

  /** Every core switch has exactly one link into every pod. */
  lemma OneLinkPerPod(t: Tree, core: Place, pod: nat, e: Pair)
    requires core.Core? && t.In(core) && pod < 2 * t.half
    ensures (exists a: nat :: a < t.half && e == (t.Id(Agg(pod, a)), t.Id(core)) && t.IsLink(e))
            <==> e == (t.Id(Agg(pod, core.a)), t.Id(core))
  {
    hide Tree.Id;
    hide Tree.IsLink;
    forall a: nat | a < t.half ensures t.IsLink((t.Id(Agg(pod, a)), t.Id(core))) <==> a == core.a {
      LinkMeansWired(t, Agg(pod, a), core);
    }
  }

  // ---- shortest paths between edge switches ------------------------------------------------------

  /** A network with the nodes of the tree whose links are all up. */
  ghost predicate Realizes(g: Net, t: Tree) {
    && g.WellFormed()
    && (forall n :: n in g.nodes <==> 0 <= n < t.Nodes())
    && (forall n :: n in g.hosts <==> 0 <= n < t.Servers())
    && (forall n, m :: g.Up(n, m) <==> t.IsLink((n, m)) || t.IsLink((m, n)))
  }

  lemma Joined(g: Net, t: Tree, x: Place, y: Place)
    requires Realizes(g, t) && t.In(x) && t.In(y)
    ensures g.Up(t.Id(x), t.Id(y)) <==> t.Wired(x, y) || t.Wired(y, x)
  {
    LinkMeansWired(t, x, y);
    LinkMeansWired(t, y, x);
  }

  lemma SwitchPlace(g: Net, t: Tree, n: Node) returns (x: Place)
    requires Realizes(g, t) && g.Switch(n)
    ensures t.In(x) && t.Id(x) == n && !IsHost(x)
  {
    x := t.IdSurjective(n);
  }

  lemma PlaceSwitch(g: Net, t: Tree, x: Place)
    requires Realizes(g, t) && t.In(x) && !IsHost(x)
    ensures g.Switch(t.Id(x))
  {
    t.IdRange(x);
  }

  /** A path of switches as a path of places. */
  lemma Places(g: Net, t: Tree, p: seq<Node>, i: nat) returns (xs: seq<Place>)
    requires Realizes(g, t) && i <= |p|
    requires forall k | 0 <= k < |p| :: g.Switch(p[k])
    requires forall k | 0 <= k < |p| - 1 :: g.Up(p[k], p[k + 1])
    ensures |xs| == i && Climbs(t, xs) && forall k | 0 <= k < i :: t.Id(xs[k]) == p[k]
  {
    if i == 0 {
      xs := [];
    } else {
      var before := Places(g, t, p, i - 1);
      var x := SwitchPlace(g, t, p[i - 1]);
      xs := before + [x];
      if i > 1 {
        assert g.Up(p[i - 2], p[i - 2 + 1]);
        Joined(g, t, xs[i - 2], xs[i - 1]);
      }
      hide Tree.Id;
      hide Tree.In;
    }
  }

  ghost predicate Climbs(t: Tree, xs: seq<Place>) {
    && (forall k | 0 <= k < |xs| :: t.In(xs[k]) && !IsHost(xs[k]))
    && (forall k | 0 <= k < |xs| - 1 :: t.Wired(xs[k], xs[k + 1]) || t.Wired(xs[k + 1], xs[k]))
  }

  /** The place paths between two edge switches: over an aggregation switch of their pod, or up to a core and down again. */
  function Route2(x: Place, y: Place, a: nat): seq<Place>
    requires x.Tor? && y.Tor?
  {
    [x, Agg(x.pod, a), y]
  }

  function Route4(x: Place, y: Place, a: nat, c: nat): seq<Place>
    requires x.Tor? && y.Tor?
  {
    [x, Agg(x.pod, a), Core(a, c), Agg(y.pod, a), y]
  }

  /** Between two edge switches there is no shorter path, and no other one of this length. */
  lemma PlacePaths(t: Tree, x: Place, y: Place, xs: seq<Place>)
    requires x.Tor? && y.Tor? && x != y && Climbs(t, xs) && xs != [] && xs[0] == x && xs[|xs| - 1] == y
    ensures x.pod == y.pod ==> |xs| >= 3 && (|xs| == 3 ==> xs[1].Agg? && xs == Route2(x, y, xs[1].a))
    ensures x.pod != y.pod ==> |xs| >= 5 && (|xs| == 5 ==> xs[1].Agg? && xs[2].Core? && xs == Route4(x, y, xs[1].a, xs[2].c))
  {
    hide Tree.In;
    assert |xs| >= 2;
    assert t.Wired(xs[0], xs[0 + 1]) || t.Wired(xs[0 + 1], xs[0]);
    assert t.Wired(xs[|xs| - 2], xs[|xs| - 2 + 1]) || t.Wired(xs[|xs| - 1], xs[|xs| - 2]);
    assert xs[1] == Agg(x.pod, xs[1].a) && xs[|xs| - 2] == Agg(y.pod, xs[|xs| - 2].a);
    if x.pod != y.pod {
      assert |xs| > 3;
      assert t.Wired(xs[1], xs[1 + 1]) || t.Wired(xs[2], xs[1]);
      assert |xs| > 4;
      if |xs| == 5 {
        assert t.Wired(xs[2], xs[2 + 1]) || t.Wired(xs[3], xs[2]);
      }
    }
  }

  function Numbers(t: Tree, xs: seq<Place>): (p: seq<Node>)
    ensures |p| == |xs|
  {
    seq(|xs|, k requires 0 <= k < |xs| => t.Id(xs[k]))
  }

  function Hops(x: Place, y: Place): nat
    requires x.Tor? && y.Tor?
  {
    if x.pod == y.pod then 2 else 4
  }

  function PathCount(t: Tree, x: Place, y: Place): nat
    requires x.Tor? && y.Tor?
  {
    if x.pod == y.pod then t.half else t.half * t.half
  }

  /** The `n`-th path between two edge switches. */
  function NthRoute(t: Tree, x: Place, y: Place, n: nat): seq<Place>
    requires x.Tor? && y.Tor? && t.half > 0
  {
    if x.pod == y.pod then Route2(x, y, n) else Route4(x, y, n / t.half, n % t.half)
  }

  predicate Edges(t: Tree, x: Place, y: Place) { x.Tor? && y.Tor? && x != y && t.In(x) && t.In(y) }

  lemma NthRouteClimbs(t: Tree, x: Place, y: Place, n: nat)
    requires Edges(t, x, y) && n < PathCount(t, x, y)
    ensures t.half > 0 && Climbs(t, NthRoute(t, x, y, n)) && |NthRoute(t, x, y, n)| == Hops(x, y) + 1
    ensures NthRoute(t, x, y, n)[0] == x && NthRoute(t, x, y, n)[Hops(x, y)] == y
  {
    hide Tree.Racks;
    if x.pod != y.pod { Digits(t.half, n, t.half); }
  }

  /** Different numbers give different paths, ... */
  lemma RoutesDiffer(t: Tree, x: Place, y: Place, m: nat, n: nat)
    requires Edges(t, x, y) && m < PathCount(t, x, y) && n < PathCount(t, x, y)
    requires t.half > 0 && NthRoute(t, x, y, m) == NthRoute(t, x, y, n)
    ensures m == n
  {
  }

  /** ... and every path of this length has a number. */
  lemma RouteNumber(t: Tree, x: Place, y: Place, xs: seq<Place>) returns (n: nat)
    requires Edges(t, x, y) && Climbs(t, xs) && |xs| == Hops(x, y) + 1 && xs[0] == x && xs[|xs| - 1] == y
    ensures n < PathCount(t, x, y) && t.half > 0 && xs == NthRoute(t, x, y, n)
  {
    hide Tree.Racks;
    PlacePaths(t, x, y, xs);
    assert t.In(xs[1]) && t.In(xs[2]);
    if x.pod == y.pod {
      n := xs[1].a;
    } else {
      n := Join(t.half, xs[1].a, xs[2].c, t.half);
    }
  }

  lemma NumbersDiffer(t: Tree, xs: seq<Place>, ys: seq<Place>)
    requires Climbs(t, xs) && Climbs(t, ys) && Numbers(t, xs) == Numbers(t, ys)
    ensures xs == ys
  {
    forall k | 0 <= k < |xs| ensures xs[k] == ys[k] {
      assert Numbers(t, xs)[k] == Numbers(t, ys)[k];
      t.IdInjective(xs[k], ys[k]);
    }
  }

  lemma ClimbIsPath(g: Net, t: Tree, xs: seq<Place>)
    requires Realizes(g, t) && Climbs(t, xs) && xs != []
    ensures SwitchPath(g, t.Id(xs[0]), t.Id(xs[|xs| - 1]), Numbers(t, xs))
  {
    hide Realizes;
    var p := Numbers(t, xs);
    forall i | 0 <= i < |p| ensures g.Switch(p[i]) {
      PlaceSwitch(g, t, xs[i]);
    }
    forall i | 0 <= i < |p| - 1 ensures g.Up(p[i], p[i + 1]) {
      Joined(g, t, xs[i], xs[i + 1]);
    }
  }

  lemma PathIsClimb(g: Net, t: Tree, x: Place, y: Place, p: seq<Node>) returns (xs: seq<Place>)
    requires Realizes(g, t) && Edges(t, x, y) && SwitchPath(g, t.Id(x), t.Id(y), p)
    ensures Climbs(t, xs) && Numbers(t, xs) == p && xs[0] == x && xs[|xs| - 1] == y
    ensures |xs| >= Hops(x, y) + 1
  {
    xs := Places(g, t, p, |p|);
    t.IdInjective(xs[0], x);
    t.IdInjective(xs[|xs| - 1], y);
    PlacePaths(t, x, y, xs);
    assert Numbers(t, xs) == p;
  }

  /** The shortest paths from edge switch `x` to edge switch `y`. */
  function ShortestPaths(t: Tree, x: Place, y: Place): (ps: seq<seq<Node>>)
    requires Edges(t, x, y)
    ensures |ps| == PathCount(t, x, y)
  {
    seq(PathCount(t, x, y), n requires 0 <= n < PathCount(t, x, y) =>
      NthRouteClimbs(t, x, y, n); Numbers(t, NthRoute(t, x, y, n)))
  }

  /** Between two edge switches there are half the arity of shortest paths, of two hops, if they are in one pod,
      and its square, of four hops, otherwise. */
  lemma PathsBetweenEdges(g: Net, t: Tree, x: Place, y: Place)
    requires Realizes(g, t) && Edges(t, x, y)
    ensures var ps := ShortestPaths(t, x, y);
            && |ps| == (if x.pod == y.pod then t.half else t.half * t.half)
            && (forall i, j | 0 <= i < j < |ps| :: ps[i] != ps[j])
            && (forall p | p in ps :: |p| == if x.pod == y.pod then 3 else 5)
            && (forall p :: Shortest(g, t.Id(x), t.Id(y), p) <==> p in ps)
  {
    var ps := ShortestPaths(t, x, y);
    forall i, j | 0 <= i < j < |ps| ensures ps[i] != ps[j] {
      PathsDiffer(t, x, y, i, j);
    }
    forall p | p in ps ensures |p| == Hops(x, y) + 1 && Shortest(g, t.Id(x), t.Id(y), p) {
      ListedIsShortest(g, t, x, y, p);
    }
    forall p | Shortest(g, t.Id(x), t.Id(y), p) ensures p in ps {
      ShortestIsListed(g, t, x, y, p);
    }
  }

  lemma PathsDiffer(t: Tree, x: Place, y: Place, i: nat, j: nat)
    requires Edges(t, x, y) && i < j < PathCount(t, x, y)
    ensures ShortestPaths(t, x, y)[i] != ShortestPaths(t, x, y)[j]
  {
    NthRouteClimbs(t, x, y, i);
    NthRouteClimbs(t, x, y, j);
    if ShortestPaths(t, x, y)[i] == ShortestPaths(t, x, y)[j] {
      NumbersDiffer(t, NthRoute(t, x, y, i), NthRoute(t, x, y, j));
      RoutesDiffer(t, x, y, i, j);
    }
  }

  lemma ListedIsShortest(g: Net, t: Tree, x: Place, y: Place, p: seq<Node>)
    requires Realizes(g, t) && Edges(t, x, y) && p in ShortestPaths(t, x, y)
    ensures |p| == Hops(x, y) + 1 && Shortest(g, t.Id(x), t.Id(y), p)
  {
    var n :| 0 <= n < PathCount(t, x, y) && ShortestPaths(t, x, y)[n] == p;
    NthRouteClimbs(t, x, y, n);
    ClimbIsPath(g, t, NthRoute(t, x, y, n));
    hide Realizes;
    forall q | SwitchPath(g, t.Id(x), t.Id(y), q) ensures |p| <= |q| {
      var xs := PathIsClimb(g, t, x, y, q);
    }
  }

  lemma ShortestIsListed(g: Net, t: Tree, x: Place, y: Place, p: seq<Node>)
    requires Realizes(g, t) && Edges(t, x, y) && Shortest(g, t.Id(x), t.Id(y), p)
    ensures p in ShortestPaths(t, x, y)
  {
    hide Realizes;
    hide Edges;
    var xs := PathIsClimb(g, t, x, y, p);
    SomeRoute(g, t, x, y);
    var n := RouteNumber(t, x, y, xs);
    assert ShortestPaths(t, x, y)[n] == p;
  }

  lemma SomeRoute(g: Net, t: Tree, x: Place, y: Place)
    requires Realizes(g, t) && Edges(t, x, y)
    ensures exists q :: SwitchPath(g, t.Id(x), t.Id(y), q) && |q| == Hops(x, y) + 1
  {
    assert PathCount(t, x, y) > 0 by { assert t.half > 0; }
    NthRouteClimbs(t, x, y, 0);
    ClimbIsPath(g, t, NthRoute(t, x, y, 0));
  }

  // ---- the path ids of a fat tree ------------------------------------------------------------------

  /** With at most 255 ports per switch the path ids between two edge switches are as many as their shortest paths. */
  lemma IdsBetweenEdges(f: Fabric, t: Tree, x: Place, y: Place)
    requires Realizes(f.g, t) && Edges(t, x, y)
    requires forall n, m | f.g.Up(n, m) :: f.g.If(n, m).idx <= 255
    ensures var ps := ShortestPaths(t, x, y);
            && (forall p | p in ps :: |p| > 0)
            && (forall i, j | 0 <= i < j < |ps| :: Pack(PortsAlong(f, ps[i])) != Pack(PortsAlong(f, ps[j])))
            && (forall id :: PathId(f, t.Id(x), t.Id(y), id) <==> PacksOne(f, ps, id))
  {
    PathsBetweenEdges(f.g, t, x, y);
    hide ShortestPaths;
    hide Pack;
    hide Shortest;
    hide Edges;
    var ps := ShortestPaths(t, x, y);
    forall i, j | 0 <= i < j < |ps| ensures Pack(PortsAlong(f, ps[i])) != Pack(PortsAlong(f, ps[j])) {
      assert ps[i] in ps && ps[j] in ps;
      if Pack(PortsAlong(f, ps[i])) == Pack(PortsAlong(f, ps[j])) {
        DistinctPathIds(f, t.Id(x), t.Id(y), ps[i], ps[j]);
      }
    }
    PathIdsAreListed(f, t, x, y);
  }

  lemma PathIdsAreListed(f: Fabric, t: Tree, x: Place, y: Place)
    requires Realizes(f.g, t) && Edges(t, x, y)
    ensures forall id :: PathId(f, t.Id(x), t.Id(y), id) <==> PacksOne(f, ShortestPaths(t, x, y), id)
  {
    PathsBetweenEdges(f.g, t, x, y);
    hide ShortestPaths;
    hide Pack;
    hide Shortest;
    hide Edges;
    var ps := ShortestPaths(t, x, y);
    forall id ensures PathId(f, t.Id(x), t.Id(y), id) <==> PacksOne(f, ps, id) {
      if PathId(f, t.Id(x), t.Id(y), id) {
        var p :| Shortest(f.g, t.Id(x), t.Id(y), p) && 3 <= |p| <= 5 && id == Pack(PortsAlong(f, p));
        assert p in ps;
      }
    }
  }

  ghost predicate PacksOne(f: Fabric, ps: seq<seq<Node>>, id: int) {
    exists p :: p in ps && |p| > 0 && id == Pack(PortsAlong(f, p))
  }

  /** On a fat tree the enumeration never meets two edge switches that are too far apart. */
  lemma NeverTooLarge(table: PathTable, t: Tree, src: Node, dst: Node)
    requires table.f.Valid() && table.SingleHomed() && Realizes(table.f.g, t)
    requires forall n | n in table.tors :: exists h :: Connected(table.f.g, h) && table.SwitchOf(h) == n
    requires src in table.tors && Connected(table.f.g, dst) && src != table.SwitchOf(dst)
    ensures table.NearPair(src, table.SwitchOf(dst))
  {
    var h :| Connected(table.f.g, h) && table.SwitchOf(h) == src;
    var x := RackOf(table, t, h);
    var y := RackOf(table, t, dst);
    PathsBetweenEdges(table.f.g, t, x, y);
  }

  /** The switch of a host is the edge switch of its rack. */
  lemma RackOf(table: PathTable, t: Tree, h: Node) returns (x: Place)
    requires table.SingleHomed() && Realizes(table.f.g, t) && Connected(table.f.g, h)
    ensures t.In(x) && x.Tor? && t.Id(x) == table.SwitchOf(h)
  {
    var s := t.IdSurjective(h);
    var tor := t.IdSurjective(table.SwitchOf(h));
    assert Under(table.f.g, h, table.SwitchOf(h));
    Joined(table.f.g, t, s, tor);
    RackSwitchIs(t, s.rack, s.slot);
    x := RackSwitch(t, s.rack);
    Joined(table.f.g, t, s, x);
    assert Under(table.f.g, h, table.SwitchOf(h));
  }

  // ---- the network built from the generated file -------------------------------------------------------

  /** All links are written with the same delay and rate. */
  function LinesOf(links: seq<Pair>, delay: nat, bw: nat): (lines: seq<Line>)
    ensures |lines| == |links|
  {
    seq(|links|, i requires 0 <= i < |links| => Line(links[i].0, links[i].1, delay, bw))
  }

  function Below(n: nat): (s: set<Node>)
    ensures forall k :: k in s <==> 0 <= k < n
  {
    if n == 0 then {} else Below(n - 1) + {n - 1}
  }

  function NetOf(t: Tree, links: Links): Net {
    Net(Below(t.Nodes()), Below(t.Servers()), links)
  }

  /** The numbers of the places that a place is wired to. */
  function Neighbours(t: Tree, x: Place): seq<Node>
    requires t.In(x)
  {
    match x
    case Server(r, _) => RackSwitchIs(t, r, x.slot); [t.Id(RackSwitch(t, r))]
    case Spare(_) => []
    case Tor(p, i) => seq(t.slots, s requires 0 <= s => t.Id(Server(At(t.half, p, i), s))) + seq(t.half, a requires 0 <= a => t.Id(Agg(p, a)))
    case Agg(p, a) => seq(t.half, i requires 0 <= i => t.Id(Tor(p, i))) + seq(t.half, c requires 0 <= c => t.Id(Core(a, c)))
    case Core(a, _) => seq(2 * t.half, p requires 0 <= p => t.Id(Agg(p, a)))
  }

  lemma DownNeighbour(t: Tree, x: Place, y: Place)
    requires t.In(x) && t.In(y) && t.Wired(x, y)
    ensures t.Id(x) in Neighbours(t, y)
  {
    hide Tree.Id;
    hide At;
    match (x, y)
    case (Server(r, s), Tor(p, i)) =>
      assert Neighbours(t, y)[s] == t.Id(x);
    case (Tor(p, i), Agg(q, a)) =>
      assert Neighbours(t, y)[i] == t.Id(x);
    case (Agg(p, a), Core(b, c)) =>
      assert Neighbours(t, y)[p] == t.Id(x);
    case _ =>
  }

  lemma UpNeighbour(t: Tree, x: Place, y: Place)
    requires t.In(x) && t.In(y) && t.Wired(x, y)
    ensures t.Id(y) in Neighbours(t, x)
  {
    match (x, y)
    case (Server(r, s), Tor(p, i)) =>
      RackSwitchIs(t, r, s);
      hide Tree.Racks;
      assert At(t.half, r / t.half, r % t.half) == At(t.half, p, i) by { Digits(t.half, r, 2 * t.half); }
    case (Tor(p, i), Agg(q, a)) =>
      hide Tree.Id;
      assert Neighbours(t, x)[t.slots + a] == t.Id(y);
    case (Agg(p, a), Core(b, c)) =>
      hide Tree.Id;
      assert Neighbours(t, x)[t.half + c] == t.Id(y);
    case _ =>
  }

  /** The `k`-th place that a place is wired to. */
  function Nth(t: Tree, x: Place, k: nat): Place
    requires t.In(x) && k < |Neighbours(t, x)|
  {
    match x
    case Server(r, s) => RackSwitchIs(t, r, s); RackSwitch(t, r)
    case Spare(_) => x
    case Tor(p, i) => if k < t.slots then Server(At(t.half, p, i), k) else Agg(p, k - t.slots)
    case Agg(p, a) => if k < t.half then Tor(p, k) else Core(a, k - t.half)
    case Core(a, _) => Agg(k, a)
  }

  lemma NthNeighbour(t: Tree, x: Place, k: nat)
    requires t.In(x) && k < |Neighbours(t, x)|
    ensures var y := Nth(t, x, k);
            t.In(y) && t.Id(y) == Neighbours(t, x)[k] && (t.Wired(x, y) || t.Wired(y, x))
  {
    match x
    case Server(r, s) => RackSwitchIs(t, r, s);
    case Spare(_) =>
    case Tor(p, i) =>
      hide At;
      Within(t.half, p, i, 2 * t.half);
    case Agg(p, a) => hide At;
    case Core(a, _) => hide At;
  }

  /** The neighbours are the nodes of the links at the place, ... */
  lemma NeighboursAreLinked(t: Tree, x: Place, m: Node)
    requires t.In(x)
    ensures m in Neighbours(t, x) <==> t.IsLink((t.Id(x), m)) || t.IsLink((m, t.Id(x)))
  {
    hide Tree.Id;
    hide Neighbours;
    if m in Neighbours(t, x) {
      var k :| 0 <= k < |Neighbours(t, x)| && Neighbours(t, x)[k] == m;
      var y := Nth(t, x, k);
      NthNeighbour(t, x, k);
      LinkMeansWired(t, x, y);
      LinkMeansWired(t, y, x);
    }
    if t.IsLink((t.Id(x), m)) {
      var y: Place, z: Place :| t.Joins(y, z, (t.Id(x), m));
      t.IdInjective(x, y);
      UpNeighbour(t, x, z);
    }
    if t.IsLink((m, t.Id(x))) {
      var y: Place, z: Place :| t.Joins(y, z, (m, t.Id(x)));
      t.IdInjective(x, z);
      DownNeighbour(t, y, x);
    }
  }

  /** A server that is counted but not cabled has no link at all. */
  lemma SpareIsolated(g: Net, t: Tree, x: Place, m: Node)
    requires Realizes(g, t) && t.In(x) && x.Spare?
    ensures !g.Up(t.Id(x), m)
  {
    NeighboursAreLinked(t, x, m);
  }

  predicate Increasing(s: seq<Node>) { forall i, j | 0 <= i < j < |s| :: s[i] < s[j] }

  /** ... in the order of their numbers. */
  lemma NeighboursIncrease(t: Tree, x: Place)
    requires t.In(x)
    ensures Increasing(Neighbours(t, x))
  {
    var ns := Neighbours(t, x);
    forall i, j | 0 <= i < j < |ns| ensures ns[i] < ns[j] {
      NthNeighbour(t, x, i);
      NthNeighbour(t, x, j);
      NthIncreases(t, x, i, j);
    }
  }

  lemma NthIncreases(t: Tree, x: Place, i: nat, j: nat)
    requires t.In(x) && i < j < |Neighbours(t, x)|
    requires t.In(Nth(t, x, i)) && t.In(Nth(t, x, j))
    ensures t.Id(Nth(t, x, i)) < t.Id(Nth(t, x, j))
  {
    var y, z := Nth(t, x, i), Nth(t, x, j);
    t.IdRange(y);
    t.IdRange(z);
    if y.Agg? && z.Agg? && y.pod < z.pod { Ordered(t.half, y.pod, y.a, z.pod, z.a); }
    if y.Server? && z.Server? { AtLess(t.slots, y.rack, y.slot, z.slot); }
    if y.Agg? && z.Agg? && y.pod == z.pod { AtLess(t.half, y.pod, y.a, z.a); }
    if y.Tor? && z.Tor? { AtLess(t.half, y.pod, y.t, z.t); }
    if y.Core? && z.Core? { AtLess(t.half, y.a, y.c, z.c); }
    hide At;
    hide Tree.Racks;
    hide Tree.Servers;
  }

  lemma AtLess(n: nat, a: nat, b: nat, c: nat)
    ensures At(n, a, b) < At(n, a, c) <==> b < c
  {
  }

  lemma AlsoNonempty(s: seq<Node>, r: seq<Node>)
    requires s != [] && forall m :: m in s <==> m in r
    ensures r != []
  {
    var m := s[0];
    assert m in s;
    assert m in r;
  }

  lemma {:induction false} SameIncreasing(s: seq<Node>, r: seq<Node>)
    requires Increasing(s) && Increasing(r) && forall m :: m in s <==> m in r
    ensures s == r
  {
    if s != [] {
      AlsoNonempty(s, r);
      var i, j := |s| - 1, |r| - 1;
      assert s[i] in r && r[j] in s;
      assert s[i] == r[j];
      forall m ensures m in s[..i] <==> m in r[..j] {
        assert m in s <==> m in s[..i] || m == s[i];
        assert m in r <==> m in r[..j] || m == r[j];
      }
      SameIncreasing(s[..i], r[..j]);
      assert s == s[..i] + [s[i]] && r == r[..j] + [r[j]];
    } else if r != [] {
      AlsoNonempty(r, s);
    }
  }

  predicate GoUp(lines: seq<Line>) { forall l | l in lines :: l.src < l.dst }

  predicate InOrder(lines: seq<Line>) {
    forall i, j | 0 <= i < j < |lines| :: Before((lines[i].src, lines[i].dst), (lines[j].src, lines[j].dst))
  }

  /** In a sorted file the other ends of a node's lines come in the order of their numbers. */
  lemma {:induction false} PeersIncrease(lines: seq<Line>, n: Node)
    requires GoUp(lines) && InOrder(lines)
    ensures Increasing(Peers(lines, n))
  {
    if lines != [] {
      var k := |lines| - 1;
      var rest, l := lines[..k], lines[k];
      assert lines == rest + [l];
      PeersIncrease(rest, n);
      forall m | m in Peers(rest, n) && Touches(l, n) ensures m < Other(l, n) {
        PeersAreJoined(rest, n, m);
        var l' :| l' in rest && Joins(l', n, m);
        var i :| 0 <= i < |rest| && rest[i] == l';
        assert lines[i] == l';
      }
      hide InOrder;
      hide GoUp;
      var before, peers := Peers(rest, n), Peers(lines, n);
      forall i, j | 0 <= i < j < |peers| ensures peers[i] < peers[j] {
        assert before[i] in before;
      }
    }
  }

  lemma LinesSorted(t: Tree, pairs: seq<Pair>, delay: nat, bw: nat)
    requires Ascending(pairs) && forall e | e in pairs :: t.IsLink(e)
    ensures GoUp(LinesOf(pairs, delay, bw)) && InOrder(LinesOf(pairs, delay, bw))
  {
    var lines := LinesOf(pairs, delay, bw);
    forall l | l in lines ensures l.src < l.dst {
      var i :| 0 <= i < |lines| && lines[i] == l;
      assert pairs[i] in pairs;
      LinksGoUp(t, pairs[i]);
    }
  }

  lemma JoinedByLink(pairs: seq<Pair>, delay: nat, bw: nat, n: Node, m: Node)
    ensures Wiring.Joined(LinesOf(pairs, delay, bw), n, m) <==> (n, m) in pairs || (m, n) in pairs
  {
    var lines := LinesOf(pairs, delay, bw);
    if (n, m) in pairs { LineOf(pairs, delay, bw, (n, m)); }
    if (m, n) in pairs { LineOf(pairs, delay, bw, (m, n)); }
    if Wiring.Joined(lines, n, m) {
      var l :| l in lines && Joins(l, n, m);
      var i :| 0 <= i < |lines| && lines[i] == l;
      assert pairs[i] in pairs;
    }
  }

  /** The lines of a node lead to its neighbours in their order. */
  lemma PeersAreNeighbours(t: Tree, pairs: seq<Pair>, delay: nat, bw: nat, x: Place)
    requires Ascending(pairs) && (forall e :: e in pairs <==> t.IsLink(e)) && t.In(x)
    ensures GoUp(LinesOf(pairs, delay, bw)) && Peers(LinesOf(pairs, delay, bw), t.Id(x)) == Neighbours(t, x)
  {
    hide Tree.Id;
    hide Neighbours;
    var lines, n := LinesOf(pairs, delay, bw), t.Id(x);
    LinesSorted(t, pairs, delay, bw);
    PeersIncrease(lines, n);
    NeighboursIncrease(t, x);
    forall m ensures m in Peers(lines, n) <==> m in Neighbours(t, x) {
      PeersAreJoined(lines, n, m);
      JoinedByLink(pairs, delay, bw, n, m);
      NeighboursAreLinked(t, x, m);
    }
    SameIncreasing(Peers(lines, n), Neighbours(t, x));
  }

  /** Every place's links have the ports 1, 2, ... in the order of its neighbours. */
  ghost predicate Numbered(g: Net, t: Tree) {
    forall x, k | t.In(x) && 0 <= k < |Neighbours(t, x)| :: HasPort(g, t.Id(x), Neighbours(t, x)[k], k + 1)
  }

  ghost predicate HasPort(g: Net, n: Node, m: Node, port: nat) { g.Up(n, m) && g.If(n, m).idx == port }

  lemma BuiltNumbered(t: Tree, pairs: seq<Pair>, delay: nat, bw: nat, links: Links)
    requires (forall e :: e in pairs <==> t.IsLink(e)) && Ascending(pairs) && Wired(LinesOf(pairs, delay, bw), links)
    ensures Numbered(NetOf(t, links), t)
  {
    var lines, g := LinesOf(pairs, delay, bw), NetOf(t, links);
    forall x, k | t.In(x) && 0 <= k < |Neighbours(t, x)| ensures HasPort(g, t.Id(x), Neighbours(t, x)[k], k + 1) {
      var n, m := t.Id(x), Neighbours(t, x)[k];
      PeersAreNeighbours(t, pairs, delay, bw, x);
      NeighboursIncrease(t, x);
      DevicesInOrder(lines, n);
      assert IsDevice(lines, n, Peers(lines, n)[k], k + 1);
      assert WiredPair(lines, links, n, m);
    }
  }

  /** The most links a node of the tree has. */
  predicate FewPorts(t: Tree) { t.slots + t.half <= 255 && 2 * t.half <= 255 }

  lemma NumberedPorts(g: Net, t: Tree, n: Node, m: Node)
    requires Realizes(g, t) && Numbered(g, t) && FewPorts(t) && g.Up(n, m)
    ensures g.If(n, m).idx <= 255
  {
    assert n in g.nodes by { assert g.Linked(n, m); }
    var x := t.IdSurjective(n);
    NeighboursAreLinked(t, x, m);
    var k :| 0 <= k < |Neighbours(t, x)| && Neighbours(t, x)[k] == m;
    assert HasPort(g, n, m, k + 1);
  }

  // ---- the path ids of a generated network --------------------------------------------------

  lemma PortOfNth(f: Fabric, t: Tree, x: Place, k: nat)
    requires Numbered(f.g, t) && t.In(x) && k < |Neighbours(t, x)|
    ensures Port(f, t.Id(x), t.Id(Nth(t, x, k))) == k + 1
  {
    NthNeighbour(t, x, k);
    assert HasPort(f.g, t.Id(x), Neighbours(t, x)[k], k + 1);
  }

  /** The ports along the `n`-th shortest path between two edge switches. */
  function RoutePorts(t: Tree, x: Place, y: Place, n: nat): seq<int>
    requires Edges(t, x, y) && t.half > 0
  {
    if x.pod == y.pod then [t.slots + n + 1, y.t + 1]
    else [t.slots + n / t.half + 1, t.half + n % t.half + 1, y.pod + 1, y.t + 1]
  }

  lemma HopPort(f: Fabric, t: Tree, xs: seq<Place>, i: nat, k: nat)
    requires Numbered(f.g, t) && i + 1 < |xs| && t.In(xs[i]) && k < |Neighbours(t, xs[i])| && Nth(t, xs[i], k) == xs[i + 1]
    ensures PortsAlong(f, Numbers(t, xs))[i] == k + 1
  {
    PortOfNth(f, t, xs[i], k);
    hide Port;
    hide Tree.Id;
    hide Numbered;
  }

  lemma NthPath(t: Tree, x: Place, y: Place, n: nat)
    requires Edges(t, x, y) && n < PathCount(t, x, y) && t.half > 0
    ensures ShortestPaths(t, x, y)[n] == Numbers(t, NthRoute(t, x, y, n))
  {
    hide Edges;
    hide PathCount;
    hide NthRoute;
    hide Numbers;
  }

  lemma PortsOfRoute(f: Fabric, t: Tree, x: Place, y: Place, n: nat)
    requires Numbered(f.g, t) && Edges(t, x, y) && n < PathCount(t, x, y) && t.half > 0
    ensures PortsAlong(f, ShortestPaths(t, x, y)[n]) == RoutePorts(t, x, y, n)
  {
    NthPath(t, x, y, n);
    hide *;
    if x.pod == y.pod { PortsInPod(f, t, x, y, n); } else { PortsAcross(f, t, x, y, n); }
  }

  lemma PortsInPod(f: Fabric, t: Tree, x: Place, y: Place, n: nat)
    requires Numbered(f.g, t) && Edges(t, x, y) && n < PathCount(t, x, y) && t.half > 0 && x.pod == y.pod
    ensures PortsAlong(f, Numbers(t, NthRoute(t, x, y, n))) == RoutePorts(t, x, y, n)
  {
    hide *;
    NthIs2(t, x, y, n);
    PortsOver2(f, t, x, y, n);
  }

  lemma PortsAcross(f: Fabric, t: Tree, x: Place, y: Place, n: nat)
    requires Numbered(f.g, t) && Edges(t, x, y) && n < PathCount(t, x, y) && t.half > 0 && x.pod != y.pod
    ensures PortsAlong(f, Numbers(t, NthRoute(t, x, y, n))) == RoutePorts(t, x, y, n)
  {
    hide *;
    NthIs4(t, x, y, n);
    PortsOver4(f, t, x, y, n / t.half, n % t.half);
  }

  lemma NthIs2(t: Tree, x: Place, y: Place, n: nat)
    requires Edges(t, x, y) && t.half > 0 && x.pod == y.pod
    ensures NthRoute(t, x, y, n) == Route2(x, y, n) && RoutePorts(t, x, y, n) == [t.slots + n + 1, y.t + 1]
    ensures n < PathCount(t, x, y) ==> n < t.half
  {
  }

  lemma NthIs4(t: Tree, x: Place, y: Place, n: nat)
    requires Edges(t, x, y) && t.half > 0 && x.pod != y.pod
    ensures NthRoute(t, x, y, n) == Route4(x, y, n / t.half, n % t.half)
    ensures RoutePorts(t, x, y, n) == [t.slots + n / t.half + 1, t.half + n % t.half + 1, y.pod + 1, y.t + 1]
    ensures n < PathCount(t, x, y) ==> n / t.half < t.half && n % t.half < t.half
  {
    if n < PathCount(t, x, y) { Digits(t.half, n, t.half); }
  }

  lemma PortsOver2(f: Fabric, t: Tree, x: Place, y: Place, a: nat)
    requires Numbered(f.g, t) && Edges(t, x, y) && x.pod == y.pod && a < t.half
    ensures PortsAlong(f, Numbers(t, Route2(x, y, a))) == [t.slots + a + 1, y.t + 1]
  {
    hide PortsAlong;
    hide Numbers;
    hide Numbered;
    HopPort(f, t, Route2(x, y, a), 0, t.slots + a);
    HopPort(f, t, Route2(x, y, a), 1, y.t);
  }

  lemma PortsOver4(f: Fabric, t: Tree, x: Place, y: Place, a: nat, c: nat)
    requires Numbered(f.g, t) && Edges(t, x, y) && a < t.half && c < t.half
    ensures PortsAlong(f, Numbers(t, Route4(x, y, a, c))) == [t.slots + a + 1, t.half + c + 1, y.pod + 1, y.t + 1]
  {
    hide PortsAlong;
    hide Numbers;
    hide Numbered;
    HopPort(f, t, Route4(x, y, a, c), 0, t.slots + a);
    HopPort(f, t, Route4(x, y, a, c), 1, t.half + c);
    HopPort(f, t, Route4(x, y, a, c), 2, y.pod);
    HopPort(f, t, Route4(x, y, a, c), 3, y.t);
  }

  /** The aggregation switches of both paths, and their cores, have numbers with the same low byte. */
  predicate SameBytes(t: Tree, x: Place, y: Place, i: nat, j: nat)
    requires Edges(t, x, y) && t.half > 0
  {
    if x.pod == y.pod then SameByte(i, j) else SameByte(i / t.half, j / t.half) && SameByte(i % t.half, j % t.half)
  }

  lemma SameIdIff(f: Fabric, t: Tree, x: Place, y: Place, i: nat, j: nat)
    requires Numbered(f.g, t) && Edges(t, x, y) && i < PathCount(t, x, y) && j < PathCount(t, x, y) && t.half > 0
    ensures var ps := ShortestPaths(t, x, y);
            |ps[i]| > 0 && |ps[j]| > 0 && (Pack(PortsAlong(f, ps[i])) == Pack(PortsAlong(f, ps[j])) <==> SameBytes(t, x, y, i, j))
  {
    PortsOfRoute(f, t, x, y, i);
    PortsOfRoute(f, t, x, y, j);
    NthRouteClimbs(t, x, y, i);
    NthRouteClimbs(t, x, y, j);
    PackAlike(RoutePorts(t, x, y, i), RoutePorts(t, x, y, j));
    hide *;
    AlikeRoutes(t, x, y, i, j);
  }

  lemma AlikeRoutes(t: Tree, x: Place, y: Place, i: nat, j: nat)
    requires Edges(t, x, y) && t.half > 0
    ensures Alike(RoutePorts(t, x, y, i), RoutePorts(t, x, y, j)) <==> SameBytes(t, x, y, i, j)
  {
    Shift(t.slots + 1, i, j);
    Shift(t.slots + 1, i / t.half, j / t.half);
    Shift(t.half + 1, i % t.half, j % t.half);
    Shift(y.t + 1, 0, 0);
    Shift(y.pod + 1, 0, 0);
    hide SameByte;
    hide Edges;
    var s, r := RoutePorts(t, x, y, i), RoutePorts(t, x, y, j);
    assert Alike(s, r) ==> SameByte(s[0], r[0]) && SameByte(s[1], r[1]);
  }

  lemma Shift(c: int, a: int, b: int)
    ensures SameByte(c + a, c + b) <==> SameByte(a, b)
  {
    if a <= b { Congruent(a, b); Congruent(c + a, c + b); } else { Congruent(b, a); Congruent(c + b, c + a); }
  }

  lemma Congruent(a: int, b: int)
    ensures SameByte(a, b) <==> (b - a) % 256 == 0
  {
  }

  /** Between two edge switches of a generated network the path ids tell all shortest paths apart exactly if the
      arity is at most 512. */
  lemma GeneratedIds(f: Fabric, t: Tree, x: Place, y: Place)
    requires Numbered(f.g, t) && Edges(t, x, y)
    ensures (forall i, j | 0 <= i < j < PathCount(t, x, y) :: DifferentIds(f, t, x, y, i, j)) <==> t.half <= 256
  {
    assert t.half > 0;
    if t.half > 256 {
      FirstCollision(t, x, y);
      SameIdIff(f, t, x, y, 0, 256);
      assert !DifferentIds(f, t, x, y, 0, 256);
    } else {
      forall i, j | 0 <= i < j < PathCount(t, x, y) ensures DifferentIds(f, t, x, y, i, j) {
        SameIdIff(f, t, x, y, i, j);
        NoCollision(t, x, y, i, j);
      }
    }
  }

  lemma FirstCollision(t: Tree, x: Place, y: Place)
    requires Edges(t, x, y) && t.half > 256
    ensures 256 < PathCount(t, x, y) && SameBytes(t, x, y, 0, 256)
  {
    hide Edges;
    hide SameByte;
    Byte256(t.half);
  }

  lemma Byte256(h: nat)
    requires h > 256
    ensures h * h > 256 && SameByte(0, 256) && SameByte(0 / h, 256 / h) && SameByte(0 % h, 256 % h)
  {
    assert h * h > 256 * h;
    assert 0 % h == 0 && 256 / h == 0 && 256 % h == 256;
  }

  lemma NoCollision(t: Tree, x: Place, y: Place, i: nat, j: nat)
    requires Edges(t, x, y) && 0 < t.half <= 256 && i < j < PathCount(t, x, y)
    ensures !SameBytes(t, x, y, i, j)
  {
    hide Tree.In;
    hide SameByte;
    if x.pod == y.pod {
      SmallBytes(i, j);
    } else {
      Digits(t.half, i, t.half);
      Digits(t.half, j, t.half);
      SmallDigits(t.half, i, j);
    }
  }

  lemma SmallBytes(a: nat, b: nat)
    requires a < 256 && b < 256
    ensures SameByte(a, b) <==> a == b
  {
  }

  lemma SmallDigits(h: nat, i: nat, j: nat)
    requires 0 < h <= 256 && i != j && i / h < h && j / h < h
    ensures !(SameByte(i / h, j / h) && SameByte(i % h, j % h))
  {
    hide SameByte;
    hide At;
    Quotient(h, i);
    Quotient(h, j);
    SmallPair(h, i, j, i / h, i % h, j / h, j % h);
  }

  lemma Quotient(h: nat, i: nat)
    requires h > 0
    ensures i / h >= 0 && 0 <= i % h < h && At(h, i / h, i % h) == i
  {
  }

  lemma SmallPair(h: nat, i: nat, j: nat, a: nat, b: nat, c: nat, d: nat)
    requires h <= 256 && i != j && At(h, a, b) == i && At(h, c, d) == j && a < h && b < h && c < h && d < h
    ensures !(SameByte(a, c) && SameByte(b, d))
  {
    SmallBytes(a, c);
    SmallBytes(b, d);
    hide SameByte;
    hide At;
  }

  ghost predicate DifferentIds(f: Fabric, t: Tree, x: Place, y: Place, i: int, j: int)
    requires Edges(t, x, y) && 0 <= i < j < PathCount(t, x, y)
  {
    var ps := ShortestPaths(t, x, y);
    |ps[i]| > 0 && |ps[j]| > 0 && Pack(PortsAlong(f, ps[i])) != Pack(PortsAlong(f, ps[j]))
  }

  /** The network of a generated file is the fat tree, with the ports of every node numbered in the order of its
      neighbours; so no port exceeds a byte if the tree has few ports. */
  method BuildFatTree(k: nat, oversubscript: real, delay: nat, bw: nat) returns (g: Net, lines: seq<Line>)
    requires k % 2 == 0 && oversubscript >= 0.0 && IsRate(bw)
    ensures forall l :: l in lines <==> IsLine(TreeOf(k, oversubscript), l, delay, bw)
    ensures Wired(lines, g.links) && g == NetOf(TreeOf(k, oversubscript), g.links)
    ensures Realizes(g, TreeOf(k, oversubscript))
    ensures Numbered(g, TreeOf(k, oversubscript))
    ensures FewPorts(TreeOf(k, oversubscript)) ==> forall n, m | g.Up(n, m) :: g.If(n, m).idx <= 255
  {
    ghost var t := TreeOf(k, oversubscript);
    var pairs, numNode, numSwitch, numLink := Generate(k, oversubscript);
    lines := LinesOf(pairs, delay, bw);
    LinesValid(t, pairs, delay, bw);
    LinesAre(t, pairs, delay, bw);
    var links := BuildTopology(Below(numNode), Below(numNode - numSwitch), lines);
    g := Net(Below(numNode), Below(numNode - numSwitch), links);
    BuiltRealizes(t, pairs, delay, bw, links);
    BuiltNumbered(t, pairs, delay, bw, links);
    if FewPorts(t) {
      forall n, m | g.Up(n, m) ensures g.If(n, m).idx <= 255 { NumberedPorts(g, t, n, m); }
    }
  }

  ghost predicate IsLine(t: Tree, l: Line, delay: nat, bw: nat) { t.IsLink((l.src, l.dst)) && l.delay == delay && l.bw == bw }

  lemma LinesAre(t: Tree, pairs: seq<Pair>, delay: nat, bw: nat)
    requires forall e :: e in pairs <==> t.IsLink(e)
    ensures forall l :: l in LinesOf(pairs, delay, bw) <==> IsLine(t, l, delay, bw)
  {
    hide Tree.IsLink;
    var lines := LinesOf(pairs, delay, bw);
    forall l ensures l in lines <==> IsLine(t, l, delay, bw) {
      if l in lines {
        var i :| 0 <= i < |lines| && lines[i] == l;
        assert pairs[i] in pairs;
      }
      if IsLine(t, l, delay, bw) {
        var i :| 0 <= i < |pairs| && pairs[i] == (l.src, l.dst);
        assert lines[i] == l;
      }
    }
  }

  lemma LinesValid(t: Tree, pairs: seq<Pair>, delay: nat, bw: nat)
    requires (forall e | e in pairs :: t.IsLink(e)) && IsRate(bw)
    ensures forall l | l in LinesOf(pairs, delay, bw) :: ValidLine(Below(t.Nodes()), l)
    ensures Below(t.Servers()) <= Below(t.Nodes())
  {
    var lines := LinesOf(pairs, delay, bw);
    forall l | l in lines ensures ValidLine(Below(t.Nodes()), l) {
      var i :| 0 <= i < |lines| && lines[i] == l;
      assert pairs[i] in pairs;
      LinkInRange(t, pairs[i]);
    }
  }

  lemma LinkInRange(t: Tree, e: Pair)
    requires t.IsLink(e)
    ensures 0 <= e.0 < e.1 < t.Nodes()
  {
    Upward(t, e);
    var x: Place, y: Place :| t.Joins(x, y, e);
    t.IdRange(x);
    t.IdRange(y);
  }

  lemma BuiltRealizes(t: Tree, pairs: seq<Pair>, delay: nat, bw: nat, links: Links)
    requires (forall e :: e in pairs <==> t.IsLink(e)) && IsRate(bw) && Wired(LinesOf(pairs, delay, bw), links)
    ensures Realizes(NetOf(t, links), t)
  {
    var lines, g := LinesOf(pairs, delay, bw), NetOf(t, links);
    LinesValid(t, pairs, delay, bw);
    WiredIsWellFormed(g.nodes, g.hosts, lines, links);
    hide Tree.IsLink;
    hide Tree.Nodes;
    hide Tree.Servers;
    forall n, m ensures g.Up(n, m) <==> t.IsLink((n, m)) || t.IsLink((m, n)) {
      assert WiredPair(lines, links, n, m);
      JoinedByLink(pairs, delay, bw, n, m);
    }
  }

  lemma LineOf(pairs: seq<Pair>, delay: nat, bw: nat, e: Pair)
    requires e in pairs
    ensures Wiring.Joined(LinesOf(pairs, delay, bw), e.0, e.1) && Wiring.Joined(LinesOf(pairs, delay, bw), e.1, e.0)
  {
    var i :| 0 <= i < |pairs| && pairs[i] == e;
    assert LinesOf(pairs, delay, bw)[i] in LinesOf(pairs, delay, bw);
  }
}
