/** The scheduler of the simulation: a single event, which reschedules itself, starts the flows of a file. */
module FlowSchedule {
  import opened Flows

  /** A client installed for a flow: the flow's number, ends and length, the time, and the ports. */
  datatype Client = Client(flow: nat, src: int, dst: int, length: int, time: int, sport: int, dport: int)

  const PORTS := 0x1_0000

  function CountSrc(flows: seq<Flow>, h: int): nat {
    if flows == [] then 0 else CountSrc(flows[..|flows| - 1], h) + if flows[|flows| - 1].src == h then 1 else 0
  }

  function CountDst(flows: seq<Flow>, h: int): nat {
    if flows == [] then 0 else CountDst(flows[..|flows| - 1], h) + if flows[|flows| - 1].dst == h then 1 else 0
  }

  /** The next port numbers of a host after the first `k` flows. */
  function Sport(file: seq<Flow>, k: nat, h: int): int
    requires k <= |file|
  {
    (10000 + CountSrc(file[..k], h)) % PORTS
  }

  function Dport(file: seq<Flow>, k: nat, h: int): int
    requires k <= |file|
  {
    (100 + CountDst(file[..k], h)) % PORTS
  }

  /** The client due to flow `k`: at its own time, with the next 16-bit port numbers of its ends. */
  function Due(file: seq<Flow>, k: nat): Client
    requires k < |file|
  {
    var f := file[k];
    Client(k, f.src, f.dst, if f.size == 0 then 1 else f.size, f.t,
           Sport(file, k, f.src), Dport(file, k, f.dst))
  }

  ghost function SentBefore(flows: seq<Flow>, k: int, h: int): set<int>
    requires k <= |flows|
  {
    set i | 0 <= i < k && flows[i].src == h
  }

  ghost function ReceivedBefore(flows: seq<Flow>, k: int, h: int): set<int>
    requires k <= |flows|
  {
    set i | 0 <= i < k && flows[i].dst == h
  }

  /** The client started for the `k`-th flow read, field by field: sixteen-bit ports are counted up for every end, from 10000
      for the flows sent and from 100 for those received. */
  ghost predicate ClientFor(flows: seq<Flow>, k: int, c: Client)
    requires 0 <= k < |flows|
  {
    && c.flow == k && c.src == flows[k].src && c.dst == flows[k].dst && c.time == flows[k].t
    && (flows[k].size != 0 ==> c.length == flows[k].size) && (flows[k].size == 0 ==> c.length == 1)
    && c.sport == (10000 + |SentBefore(flows, k, flows[k].src)|) % 65536
    && c.dport == (100 + |ReceivedBefore(flows, k, flows[k].dst)|) % 65536
  }

  lemma OneMore<T>(before: set<T>, now: set<T>, x: T, more: bool)
    requires x !in before && forall y :: y in now <==> y in before || (more && y == x)
    ensures |now| == |before| + if more then 1 else 0
  {
    assert now == if more then before + {x} else before;
  }

  lemma {:induction false} CountsAre(flows: seq<Flow>, k: nat, h: int)
    requires k <= |flows|
    ensures CountSrc(flows[..k], h) == |SentBefore(flows, k, h)|
    ensures CountDst(flows[..k], h) == |ReceivedBefore(flows, k, h)|
  {
    if k > 0 {
      CountsAre(flows, k - 1, h);
      CountStep(flows, k - 1, h);
      hide CountSrc;
      hide CountDst;
      OneMore(SentBefore(flows, k - 1, h), SentBefore(flows, k, h), k - 1, flows[k - 1].src == h);
      OneMore(ReceivedBefore(flows, k - 1, h), ReceivedBefore(flows, k, h), k - 1, flows[k - 1].dst == h);
    }
  }

  lemma DueIs(flows: seq<Flow>, k: nat)
    requires k < |flows|
    ensures ClientFor(flows, k, Due(flows, k))
  {
    CountsAre(flows, k, flows[k].src);
    CountsAre(flows, k, flows[k].dst);
    hide CountSrc;
    hide CountDst;
    hide SentBefore;
    hide ReceivedBefore;
  }

  lemma AllFor(flows: seq<Flow>, n: nat)
    requires n <= |flows|
    ensures |AllDue(flows, n)| == n && forall k | 0 <= k < n :: ClientFor(flows, k, AllDue(flows, n)[k])
  {
    forall k: nat | k < n { DueIs(flows, k); }
    hide ClientFor;
    hide Due;
  }

  function AllDue(file: seq<Flow>, n: nat): seq<Client>
    requires n <= |file|
  {
    seq(n, k requires 0 <= k < n => Due(file, k))
  }

  // ---- what is read ------------------------------------------------------------------------------

  const NOTHING := Flow(0, 0, 0, 0)

  /** The `k`-th flow read: past the end of the file the variables keep what was read before. */
  function Line(file: seq<Flow>, k: nat): Flow {
    if k < |file| then file[k] else if file == [] then NOTHING else file[|file| - 1]
  }

  /** What the scheduler gets to start when the first line of the file announces `n` flows. */
  function Fed(file: seq<Flow>, n: nat): (fed: seq<Flow>)
    ensures |fed| == n
  {
    seq(n, k requires 0 <= k => Line(file, k))
  }

  lemma {:induction false} FedIs(file: seq<Flow>, n: nat)
    ensures n <= |file| ==> Fed(file, n) == file[..n]
    ensures n > |file| ==> Fed(file, n) == file + Repeated(Line(file, |file|), n - |file|)
  {
  }

  function Repeated(f: Flow, n: nat): seq<Flow> { seq(n, _ => f) }

  // ---- port numbers ------------------------------------------------------------------------------

  ghost predicate PortsRepeat(file: seq<Flow>) {
    exists i, j :: 0 <= i < j < |file| && file[i].src == file[j].src && Due(file, i).sport == Due(file, j).sport
  }

  lemma {:induction false} CountGrows(file: seq<Flow>, h: int, i: nat, j: nat)
    requires i <= j <= |file|
    ensures CountSrc(file[..i], h) <= CountSrc(file[..j], h)
    ensures i < j && file[i].src == h ==> CountSrc(file[..i], h) < CountSrc(file[..j], h)
  {
    if i < j {
      assert file[..j][..j - 1] == file[..j - 1];
      CountGrows(file, h, i, j - 1);
    }
  }

  lemma {:induction false} NthFlow(file: seq<Flow>, h: int, n: nat, m: nat) returns (i: nat)
    requires m <= |file| && n < CountSrc(file[..m], h)
    ensures i < m && file[i].src == h && CountSrc(file[..i], h) == n
  {
    assert file[..m][..m - 1] == file[..m - 1];
    if n < CountSrc(file[..m - 1], h) {
      i := NthFlow(file, h, n, m - 1);
    } else {
      i := m - 1;
    }
  }

  lemma RepeatNeedsMany(file: seq<Flow>, i: nat, j: nat)
    requires i < j < |file| && file[i].src == file[j].src && Due(file, i).sport == Due(file, j).sport
    ensures CountSrc(file, file[j].src) > PORTS
  {
    var h := file[j].src;
    CountGrows(file, h, i, j);
    CountGrows(file, h, j, |file|);
    assert file[..|file|] == file;
    hide CountSrc;
    hide CountDst;
    Apart(10000 + CountSrc(file[..i], h), 10000 + CountSrc(file[..j], h));
  }

  lemma ManyRepeat(file: seq<Flow>, h: int)
    requires CountSrc(file, h) > PORTS
    ensures PortsRepeat(file)
  {
    assert file[..|file|] == file;
    var i := NthFlow(file, h, 0, |file|);
    var j := NthFlow(file, h, PORTS, |file|);
    if j <= i { CountGrows(file, h, j, i); }
    hide CountSrc;
    hide CountDst;
    hide Dport;
    assert Sport(file, i, h) == Sport(file, j, h) by { SamePort(10000); }
  }

  /** A pair of source and source port repeats iff some source has more than 65536 flows. */
  lemma RepeatIff(file: seq<Flow>)
    ensures PortsRepeat(file) <==> exists h :: |SentBefore(file, |file|, h)| > 65536
  {
    hide CountSrc;
    hide Due;
    assert file[..|file|] == file;
    if PortsRepeat(file) {
      var i, j :| 0 <= i < j < |file| && file[i].src == file[j].src && Due(file, i).sport == Due(file, j).sport;
      RepeatNeedsMany(file, i, j);
      CountsAre(file, |file|, file[j].src);
    }
    if h :| |SentBefore(file, |file|, h)| > 65536 {
      CountsAre(file, |file|, h);
      ManyRepeat(file, h);
    }
  }

  lemma SamePort(a: nat)
    ensures (a + PORTS) % PORTS == a % PORTS
  {
  }

  lemma Apart(a: nat, b: nat)
    requires a < b && a % PORTS == b % PORTS
    ensures b >= a + PORTS
  {
  }

  lemma CountStep(file: seq<Flow>, k: nat, h: int)
    requires k < |file|
    ensures CountSrc(file[..k + 1], h) == CountSrc(file[..k], h) + if file[k].src == h then 1 else 0
    ensures CountDst(file[..k + 1], h) == CountDst(file[..k], h) + if file[k].dst == h then 1 else 0
  {
    assert file[..k + 1][..k] == file[..k];
  }

  lemma NextPort(a: nat, c: nat)
    ensures (a + (c + 1)) % PORTS == ((a + c) % PORTS + 1) % PORTS
  {
  }

  lemma PortStep(file: seq<Flow>, k: nat, h: int)
    requires k < |file|
    ensures Sport(file, k + 1, h) == if file[k].src == h then (Sport(file, k, h) + 1) % PORTS else Sport(file, k, h)
    ensures Dport(file, k + 1, h) == if file[k].dst == h then (Dport(file, k, h) + 1) % PORTS else Dport(file, k, h)
  {
    CountStep(file, k, h);
    NextPort(10000, CountSrc(file[..k], h));
    NextPort(100, CountDst(file[..k], h));
    hide CountSrc;
    hide CountDst;
  }

  /** After one more flow. */
  lemma NextDue(file: seq<Flow>, k: nat)
    requires k < |file|
    ensures AllDue(file, k + 1) == AllDue(file, k) + [Due(file, k)]
    ensures forall h :: Sport(file, k + 1, h) == if file[k].src == h then (Sport(file, k, h) + 1) % PORTS else Sport(file, k, h)
    ensures forall h :: Dport(file, k + 1, h) == if file[k].dst == h then (Dport(file, k, h) + 1) % PORTS else Dport(file, k, h)
  {
    hide Sport;
    hide Dport;
    hide Due;
    forall h { PortStep(file, k, h); }
  }

  // ---- the scheduler --------------------------------------------------------------------------------

  class Scheduler {
    const file: seq<Flow>
    const flowNum: nat
    /** The hosts, and the pairs of them with a known round-trip time. */
    const hosts: set<int>
    const pairs: set<(int, int)>

    var idx: nat
    var flowInput: Flow
    var portNumber: map<int, int>
    var dportNumber: map<int, int>
    var clients: seq<Client>

    /** As many flows as announced. */
    function Flows(): (flows: seq<Flow>)
      ensures |flows| == flowNum && forall k | 0 <= k < flowNum :: flows[k] == Line(file, k)
    {
      Fed(file, flowNum)
    }

    predicate Startable(f: Flow) { f.src in hosts && f.dst in hosts && (f.src, f.dst) in pairs }

    /** The first `idx` flows have been started, each once, in order and on time. */
    ghost predicate Valid()
      reads this
    {
      && idx <= flowNum
      && clients == AllDue(Flows(), idx)
      && (forall h | h in hosts :: h in portNumber && portNumber[h] == Sport(Flows(), idx, h))
      && (forall h | h in hosts :: h in dportNumber && dportNumber[h] == Dport(Flows(), idx, h))
    }

    /** The next flow has been read. */
    ghost predicate Read()
      reads this`idx, this`flowInput
    {
      idx < flowNum ==> flowInput == Flows()[idx] && flowInput.src in hosts && flowInput.dst in hosts
    }

    /** The variables hold the flow before the next one. */
    ghost predicate Held()
      reads this`idx, this`flowInput
    {
      flowInput == if idx == 0 then NOTHING else Line(file, idx - 1)
    }

    constructor (file: seq<Flow>, flowNum: nat, hosts: set<int>, pairs: set<(int, int)>)
      ensures Valid() && Held() && idx == 0
      ensures this.file == file && this.flowNum == flowNum && this.hosts == hosts && this.pairs == pairs
    {
      this.file, this.flowNum, this.hosts, this.pairs := file, flowNum, hosts, pairs;
      idx, flowInput, clients := 0, NOTHING, [];
      portNumber := map h | h in hosts :: 10000;
      dportNumber := map h | h in hosts :: 100;
    }

    /** All flows can be started, in order from time zero on. */
    ghost predicate GoesWell() {
      (forall k | 0 <= k < flowNum :: Startable(Flows()[k]) && Flows()[k].t >= 0) && InOrder(Flows())
    }

    /** Fails on a flow whose ends are not hosts. */
    method ReadFlowInput() returns (ok: bool)
      requires Held()
      modifies this`flowInput
      ensures ok <==> idx < flowNum ==> Flows()[idx].src in hosts && Flows()[idx].dst in hosts
      ensures ok ==> Read()
    {
      ok := true;
      if idx < flowNum {
        if idx < |file| {
          flowInput := file[idx];
        }
        ok := flowInput.src in hosts && flowInput.dst in hosts;
      }
    }

    /** Start the flow that has been read and read the next one. */
    method StartFlow(now: int) returns (ok: bool)
      requires Valid() && Read() && idx < flowNum && flowInput.t == now
      modifies this
      ensures ok <==> Startable(Flows()[old(idx)]) && (old(idx) + 1 < flowNum ==>
                        Flows()[old(idx) + 1].src in hosts && Flows()[old(idx) + 1].dst in hosts)
      ensures ok ==> Valid() && Read() && idx == old(idx) + 1
    {
      var src, dst := flowInput.src, flowInput.dst;
      var sport := portNumber[src];
      portNumber := portNumber[src := (portNumber[src] + 1) % PORTS];
      var dport := dportNumber[dst];
      dportNumber := dportNumber[dst := (dportNumber[dst] + 1) % PORTS];
      var targetLen := if flowInput.size == 0 then 1 else flowInput.size;
      if (src, dst) !in pairs {
        return false;
      }
      clients := clients + [Client(idx, src, dst, targetLen, now, sport, dport)];
      NextDue(Flows(), idx);
      hide AllDue;
      hide Sport;
      hide Dport;
      idx := idx + 1;
      ok := ReadFlowInput();
    }

    /** One event: start all flows due now, and say after how long to come back. */
    method ScheduleFlowInputs(now: int) returns (ok: bool, again: bool, delay: int)
      requires Valid() && Read()
      modifies this
      ensures ok ==> Valid() && Read() && old(idx) <= idx
      ensures ok ==> forall k | old(idx) <= k < idx :: Startable(Flows()[k]) && Flows()[k].t == now
      ensures ok ==> |clients| == idx && forall k | 0 <= k < idx :: ClientFor(Flows(), k, clients[k])
      ensures ok ==> (again <==> idx < flowNum) && (again ==> Flows()[idx].t != now && delay == Flows()[idx].t - now)
      ensures !ok ==> exists k :: old(idx) <= k < flowNum && !Startable(Flows()[k])
    {
      ghost var from := idx;
      again, delay := false, 0;
      while idx < flowNum && flowInput.t == now
        invariant Valid() && Read() && from <= idx
        invariant forall k | from <= k < idx :: Startable(Flows()[k]) && Flows()[k].t == now
        decreases flowNum - idx
      {
        ghost var k := idx;
        ok := StartFlow(now);
        if !ok {
          assert !Startable(Flows()[k]) || !Startable(Flows()[k + 1]);
          return;
        }
      }
      AllFor(Flows(), idx);
      ok := true;
      if idx < flowNum {
        again, delay := true, flowInput.t - now;
      }
    }

    /** The whole simulation. No event can be scheduled in the past. It goes well iff the flows are in order from time
        zero on and can all be started, and then every flow is started once, in file order, at exactly its time. */
    method Run() returns (ok: bool)
      requires Valid() && Held() && idx == 0
      modifies this
      ensures ok <==> GoesWell()
      ensures ok ==> clients == AllDue(Flows(), flowNum)
      ensures ok ==> |clients| == flowNum && forall k | 0 <= k < flowNum :: ClientFor(Flows(), k, clients[k])
    {
      hide AllDue;
      hide Sport;
      hide Dport;
      hide ClientFor;
      AllFor(Flows(), flowNum);
      if flowNum == 0 {
        return true;
      }
      ok := ReadFlowInput();
      if !ok {
        assert !Startable(Flows()[0]);
        return;
      }
      var now, again := 0, true;
      while again
        invariant Valid() && Read() && now >= 0
        invariant idx > 0 || flowNum > 0
        invariant forall k | 0 <= k < idx :: Startable(Flows()[k]) && 0 <= Flows()[k].t <= now
        invariant InOrder(Flows()[..idx])
        invariant again <==> idx < flowNum
        invariant again ==> Flows()[idx].t == now || (idx == 0 && now == 0)
        decreases flowNum - idx, if again && Flows()[idx].t == now then 0 else 1
      {
        var delay;
        ok, again, delay := ScheduleFlowInputs(now);
        if !ok {
          return;
        }
        if again {
          if delay < 0 {
            assert Flows()[idx].t < now;
            return false;
          }
          now := now + delay;
        }
      }
      ok := true;
    }
  }

  /** Arrivals never go back before the first ones. */
  lemma {:induction false} NoneEarly(first: seq<int>, flows: seq<Flow>, gaps: seq<nat>, low: int, src: int)
    requires |flows| == |gaps| && 0 <= src < |first| && (forall h | h in first :: low <= h) && forall i | 0 <= i < |flows| :: low <= flows[i].t
    ensures low <= NextArrival(first, flows, gaps, src)
  {
    if flows == [] {
      assert first[src] in first;
    } else {
      NoneEarly(first, flows[..|flows| - 1], gaps[..|gaps| - 1], low, src);
    }
  }

  lemma RenewalAt(first: seq<int>, horizon: int, flows: seq<Flow>, gaps: seq<nat>, i: nat)
    requires Renewal(first, horizon, flows, gaps) && i < |flows|
    ensures |flows| == |gaps| && 0 <= flows[i].src < |first| && flows[i].t == NextArrival(first, flows[..i], gaps[..i], flows[i].src)
  {
    hide NextArrival;
  }

  lemma {:induction false} FlowsNotEarly(first: seq<int>, horizon: int, flows: seq<Flow>, gaps: seq<nat>, low: int, n: nat)
    requires Renewal(first, horizon, flows, gaps) && (forall h | h in first :: low <= h) && n <= |flows|
    ensures forall i | 0 <= i < n :: low <= flows[i].t
  {
    if n > 0 {
      FlowsNotEarly(first, horizon, flows, gaps, low, n - 1);
      RenewalAt(first, horizon, flows, gaps, n - 1);
      hide Renewal;
      hide NextArrival;
      NoneEarly(first, flows[..n - 1], gaps[..n - 1], low, flows[n - 1].src);
    }
  }

  // ---- generated files ---------------------------------------------------------------------------

  const TWO_32 := 0x1_0000_0000

  /** What reading a file with these flows yields: the number `n` in the first line is extracted as a 32-bit number, and
      if it does not fit every later extraction fails as well. */
  function Opened(n: nat, flows: seq<Flow>): (seq<Flow>, nat) {
    if n < TWO_32 then (flows, n) else ([], TWO_32 - 1)
  }

  /** A file that announces at least its flows, in order. */
  lemma OpenedRuns(flows: seq<Flow>, n: nat, s: Scheduler)
    requires InOrder(flows) && n >= |flows| && (s.file, s.flowNum) == Opened(n, flows) && (0, 0) !in s.pairs
    ensures s.GoesWell() <==>
              n < 0x1_0000_0000 && (flows == [] ==> n == 0) && forall k | 0 <= k < |flows| :: s.Startable(flows[k]) && flows[k].t >= 0
    ensures s.GoesWell() ==> s.flowNum == n && s.Flows() == flows + Repeated(Line(flows, |flows|), n - |flows|)
  {
    FedIs(s.file, s.flowNum);
    if n < TWO_32 && flows != [] {
      RepeatedInOrder(flows, n - |flows|);
      assert flows[..|flows|] == flows;
      assert forall k | 0 <= k < |flows| :: s.Flows()[k] == flows[k];
    } else if s.flowNum > 0 {
      assert s.Flows()[0] == NOTHING;
    }
  }

  lemma RepeatedInOrder(flows: seq<Flow>, n: nat)
    requires InOrder(flows) && flows != []
    ensures InOrder(flows + Repeated(flows[|flows| - 1], n))
  {
  }

  lemma GeneratedStartable(first: seq<int>, horizon: int, flows: seq<Flow>, gaps: seq<nat>, s: Scheduler)
    requires Renewal(first, horizon, flows, gaps) && forall h | h in first :: 0 <= h
    requires forall h | 0 <= h < |first| :: h in s.hosts
    requires forall h, h' | 0 <= h < |first| && 0 <= h' < |first| && h != h' :: (h, h') in s.pairs
    ensures forall k | 0 <= k < |flows| :: s.Startable(flows[k]) && flows[k].t >= 0
  {
    FlowsNotEarly(first, horizon, flows, gaps, 0, |flows|);
  }

  /** The simulation of a generated file, on a network that has its hosts with known times between any two. The first
      line announces the number of flows, with the last digits of the estimate appended that it did not overwrite; all
      goes well unless that is too large a number, or none at all were to start. Then the file is started as it is if
      no digits are left over, and otherwise its last flow is started again for every flow that is not there. */
  lemma GeneratedFileRuns(first: seq<int>, horizon: int, flows: seq<Flow>, gaps: seq<nat>, estimate: nat, lines: string, s: Scheduler)
    requires InOrder(flows) && Renewal(first, horizon, flows, gaps) && forall h | h in first :: 0 <= h
    requires |Decimal(|flows|)| <= |Decimal(estimate)| + 1
    requires (s.file, s.flowNum) == Opened(Number(LeadingDigits(FlowFile(estimate, |flows|, lines))), flows)
    requires forall h | 0 <= h < |first| :: h in s.hosts
    requires forall h, h' | 0 <= h < |first| && 0 <= h' < |first| && h != h' :: (h, h') in s.pairs
    requires (0, 0) !in s.pairs
    ensures var n := Announced(estimate, |flows|);
            && (s.GoesWell() <==> n < 0x1_0000_0000 && (flows == [] ==> n == 0))
            && (s.GoesWell() ==> s.flowNum == n >= |flows| && s.Flows() == flows + Repeated(Line(flows, |flows|), n - |flows|))
    ensures LeftOver(estimate, |flows|) == 0 ==> Announced(estimate, |flows|) == |flows|
    ensures LeftOver(estimate, |flows|) > 0 ==> Announced(estimate, |flows|) >= 10 * |flows|
  {
    hide *;
    HeaderNumber(estimate, |flows|, lines);
    AnnouncedTooMany(estimate, |flows|);
    GeneratedStartable(first, horizon, flows, gaps, s);
    OpenedRuns(flows, Announced(estimate, |flows|), s);
  }

  /** What is read of a flow whose source has been taken for a part of the first number: every field is that before the
      next one, the seconds of the time become the length and what comes after the point the time. */
  function Shifted(f: Flow): Flow
    requires f.t >= 0
  {
    Flow(f.dst, 3, f.t / 1_000_000_000, f.t % 1_000_000_000)
  }

  /** What a number is extracted from: the digits of a whole number, or a point and nanoseconds. */
  datatype Token = Whole(n: int) | Fraction(nanos: int)

  /** The line of a flow: source, destination, the priority, which is always 3, size and time in seconds. */
  function Tokens(f: Flow): seq<Token> {
    [Whole(f.src), Whole(f.dst), Whole(3), Whole(f.size), Whole(f.t / 1_000_000_000), Fraction(f.t % 1_000_000_000)]
  }

  /** A time is extracted from a whole number with what comes behind its point, or from the latter alone. */
  function Time(ts: seq<Token>): int {
    if ts == [] then 0
    else if ts[0].Fraction? then ts[0].nanos
    else ts[0].n * 1_000_000_000 + if |ts| > 1 && ts[1].Fraction? then ts[1].nanos else 0
  }

  /** The four whole numbers and the time that are extracted for a flow. */
  function Extract(ts: seq<Token>): Flow
    requires |ts| >= 4 && forall i | 0 <= i < 4 :: ts[i].Whole?
  {
    Flow(ts[0].n, ts[1].n, ts[3].n, Time(ts[4..]))
  }

  /** A line is read as it was written, and without its source as the shifted flow. */
  lemma ReadsShifted(f: Flow)
    requires f.t >= 0
    ensures Extract(Tokens(f)) == f && Extract(Tokens(f)[1..]) == Shifted(f)
  {
  }

  function FlowsRead(flows: seq<Flow>): (read: seq<Flow>)
    requires flows != [] && flows[0].t >= 0
    ensures |read| == |flows|
  {
    [Shifted(flows[0])] + flows[1..]
  }

  lemma FlowsReadInOrder(flows: seq<Flow>)
    requires InOrder(flows) && flows != [] && flows[0].t >= 0
    ensures InOrder(FlowsRead(flows)) && FlowsRead(flows)[0].t >= 0 && forall k | 0 < k < |flows| :: FlowsRead(flows)[k] == flows[k]
    ensures FlowsRead(flows)[0] == Shifted(flows[0])
  {
    assert flows[0].t % 1_000_000_000 <= flows[0].t;
  }

  /** The simulation of a generated file whose count has at least two digits more than the estimate, as long as these do
      not reach beyond the first source. All goes well iff the number announced fits and the flow made of the rest of the
      first line can be started; then this is started in place of the first flow, and the last one again and again. */
  lemma OverrunFileRuns(first: seq<int>, horizon: int, flows: seq<Flow>, gaps: seq<nat>, estimate: nat, rest: string, s: Scheduler)
    requires InOrder(flows) && Renewal(first, horizon, flows, gaps) && (forall h | h in first :: 0 <= h) && flows != []
    requires flows[0].src >= 0 && flows[0].t >= 0 && rest != [] && !Digit(rest[0])
    requires |Decimal(|flows|)| >= |Decimal(estimate)| + 2 && Overrun(estimate, |flows|) <= |Decimal(flows[0].src)|
    requires (s.file, s.flowNum) == Opened(Number(LeadingDigits(FlowFile(estimate, |flows|, Decimal(flows[0].src) + rest))),
                                           FlowsRead(flows))
    requires forall h | 0 <= h < |first| :: h in s.hosts
    requires forall h, h' | 0 <= h < |first| && 0 <= h' < |first| && h != h' :: (h, h') in s.pairs
    requires (0, 0) !in s.pairs
    ensures var n, read := Continued(estimate, |flows|, flows[0].src), FlowsRead(flows);
            && (s.GoesWell() <==> n < 0x1_0000_0000 && s.Startable(read[0]))
            && (s.GoesWell() ==> s.flowNum == n >= |flows| && s.Flows() == read + Repeated(read[|read| - 1], n - |flows|))
    ensures Extract(Tokens(flows[0])) == flows[0] && FlowsRead(flows)[0] == Extract(Tokens(flows[0])[1..])
  {
    hide *;
    HeaderOverrun(estimate, |flows|, flows[0].src, rest);
    ContinuedTooMany(estimate, |flows|, flows[0].src);
    GeneratedStartable(first, horizon, flows, gaps, s);
    FlowsReadInOrder(flows);
    OpenedRuns(FlowsRead(flows), Continued(estimate, |flows|, flows[0].src), s);
    LastRead(FlowsRead(flows));
    ReadsShifted(flows[0]);
  }

  lemma LastRead(flows: seq<Flow>)
    requires flows != []
    ensures Line(flows, |flows|) == flows[|flows| - 1]
  {
  }
}
