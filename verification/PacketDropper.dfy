/** The packet dropper: over any run its outputs are those of a sequence of drawn events, each complete but
    perhaps the last, and exactly for some configurations they tell which events these were. */
module PacketDropper {

  datatype Option<T> = None | Some(value: T)

  datatype Event = Pass | Random | Burst(length: nat) | Window(schedule: seq<bool>)

  /** The share of packets to drop and of each kind among the events, the mean length of a burst and its offset, the
      packets in a window and the range of its drops. */
  datatype Config = Config(overallDropRate: real, ratioRandom: real, ratioHighfreq: real, ratioBurst: real,
                           burstN: int, burstOffset: nat, highFreqM: nat, highFreqMin: int, highFreqMax: int)

  function AverageDrops(c: Config): real {
    c.ratioBurst * c.burstN as real + c.ratioHighfreq * ((c.highFreqMin + c.highFreqMax) as real / 2.0) + c.ratioRandom
  }

  /** The probability of an event. A quotient by zero is infinite or no number, and then always or never exceeds a draw. */
  function EventProbability(c: Config): real {
    if AverageDrops(c) != 0.0 then c.overallDropRate / AverageDrops(c) else if c.overallDropRate > 0.0 then 1.0 else 0.0
  }

  /** The probability of an event times the mean number of its drops is the overall rate, both counted twice. */
  lemma RateIsKept(c: Config)
    ensures AverageDrops(c) == 0.0 <==> TwiceMean(c) == 0.0
    ensures TwiceMean(c) != 0.0 ==> EventProbability(c) * TwiceMean(c) == 2.0 * c.overallDropRate
    ensures TwiceMean(c) == 0.0 ==> EventProbability(c) == if c.overallDropRate > 0.0 then 1.0 else 0.0
  {
    var m := (c.highFreqMin + c.highFreqMax) as real;
    assert c.ratioHighfreq * m == 2.0 * (c.ratioHighfreq * (m / 2.0)) by { Halves(c.ratioHighfreq, m); }
    assert 2.0 * (c.ratioBurst * c.burstN as real) == 2.0 * c.ratioBurst * c.burstN as real;
    assert TwiceMean(c) == 2.0 * AverageDrops(c);
    if AverageDrops(c) != 0.0 { QuotientTwice(c.overallDropRate, AverageDrops(c)); }
  }

  lemma Halves(x: real, m: real)
    ensures x * m == 2.0 * (x * (m / 2.0))
  {
    var h := m / 2.0;
    assert m == 2.0 * h;
  }

  lemma QuotientTwice(x: real, y: real)
    requires y != 0.0
    ensures (x / y) * (2.0 * y) == 2.0 * x
  {
    var q := x / y;
    assert q * y == x;
  }

  /** Twice the mean number of drops of an event: a burst has `burstN` on average, a window half of its least and its
      greatest count, and a random drop is one. */
  function TwiceMean(c: Config): real {
    2.0 * c.ratioBurst * c.burstN as real + c.ratioHighfreq * (c.highFreqMin + c.highFreqMax) as real + 2.0 * c.ratioRandom
  }

  /** The draw is below the quotient of the overall rate and the mean. */
  predicate Triggers(c: Config, u: real) {
    if TwiceMean(c) > 0.0 then u * TwiceMean(c) < 2.0 * c.overallDropRate
    else if TwiceMean(c) < 0.0 then u * TwiceMean(c) > 2.0 * c.overallDropRate
    else c.overallDropRate > 0.0
  }

  lemma TriggersIff(c: Config, u: real)
    requires 0.0 <= u < 1.0
    ensures Triggers(c, u) <==> u < EventProbability(c)
  {
    RateIsKept(c);
    hide EventProbability;
    hide AverageDrops;
    hide TwiceMean;
    var p, t := EventProbability(c), TwiceMean(c);
    if t > 0.0 { Scale(u, p, t); } else if t < 0.0 { Scale(u, p, 0.0 - t); }
  }

  lemma Scale(u: real, p: real, t: real)
    requires t > 0.0
    ensures u * t < p * t <==> u < p
    ensures u * (0.0 - t) > p * (0.0 - t) <==> u < p
  {
    var d := u - p;
    assert d * t == u * t - p * t;
    assert d < 0.0 <==> d * t < 0.0;
    assert u * (0.0 - t) == 0.0 - u * t && p * (0.0 - t) == 0.0 - p * t;
  }

  /** What a call draws outside of an event: whether there is one and of which kind, and the size of a burst or a window.
      A shuffle gives any schedule with the right number of drops. */
  datatype Draw = Draw(u: real, r: real, offset: int, count: int, shuffled: seq<bool>)

  datatype Kind = Passing | Dropping | Bursting | Windowed

  function KindOf(c: Config, d: Draw): Kind {
    if d.u >= EventProbability(c) then Passing
    else if d.r < c.ratioBurst then Bursting
    else if d.r < c.ratioBurst + c.ratioHighfreq then Windowed
    else Dropping
  }

  /** The kinds that some draw gives; no count can be drawn from an empty range. */
  predicate CanBe(c: Config, k: Kind) {
    match k
    case Passing => EventProbability(c) < 1.0
    case Bursting => EventProbability(c) > 0.0 && c.ratioBurst > 0.0
    case Windowed =>
      && EventProbability(c) > 0.0 && c.ratioHighfreq > 0.0 && c.ratioBurst < 1.0 && c.ratioBurst + c.ratioHighfreq > 0.0
      && c.highFreqMin <= c.highFreqMax
    case Dropping => EventProbability(c) > 0.0 && c.ratioBurst < 1.0 && c.ratioBurst + c.ratioHighfreq < 1.0
  }

  function AtLeastOne(x: int): nat { if x < 1 then 1 else x }

  function Clamp(x: int, top: nat): nat { if x < 0 then 0 else if x > top then top else x }

  function Drops(schedule: seq<bool>): nat {
    if schedule == [] then 0 else Drops(schedule[..|schedule| - 1]) + if schedule[|schedule| - 1] then 1 else 0
  }

  predicate ValidDraw(c: Config, d: Draw) {
    && 0.0 <= d.u < 1.0 && 0.0 <= d.r < 1.0
    && match KindOf(c, d)
       case Bursting => 0 - c.burstOffset <= d.offset <= c.burstOffset
       case Windowed =>
         c.highFreqMin <= d.count <= c.highFreqMax && |d.shuffled| == c.highFreqM && Drops(d.shuffled) == Clamp(d.count, c.highFreqM)
       case _ => true
  }

  /** The event that a draw starts: a burst of the drawn length, or a window of the drawn schedule. */
  function EventOf(c: Config, d: Draw): Event {
    match KindOf(c, d)
    case Passing => Pass
    case Bursting => Burst(AtLeastOne(c.burstN + d.offset))
    case Windowed => Window(d.shuffled)
    case Dropping => Random
  }

  ghost function Dropped(schedule: seq<bool>): set<int> { set i | 0 <= i < |schedule| && schedule[i] }

  /** The event that begins, and its first output: a burst has at least one drop, and a window is the shuffled schedule with
      as many drops as drawn, if there is room for them. */
  ghost predicate StartedBy(c: Config, d: Draw, e: Event, first: int) {
    if !Triggers(c, d.u) then
      e == Pass && first == 0
    else if d.r < c.ratioBurst then
      e.Burst? && e.length >= 1 && e.length >= c.burstN + d.offset && (e.length == 1 || e.length == c.burstN + d.offset) && first == 3
    else if d.r < c.ratioBurst + c.ratioHighfreq then
      && e == Window(d.shuffled) && d.shuffled != [] && first == (if d.shuffled[0] then 2 else 0)
      && |d.shuffled| == c.highFreqM
      && |Dropped(d.shuffled)| == if d.count > c.highFreqM then c.highFreqM else if d.count < 0 then 0 else d.count
    else
      e == Random && first == 1
  }

  /** The outputs of an event: 0 for a packet that passes, 1, 2 and 3 for the three kinds of drops. */
  function Outputs(e: Event): seq<int> {
    match e
    case Pass => [0]
    case Random => [1]
    case Burst(n) => seq(n, _ => 3)
    case Window(schedule) => seq(|schedule|, i requires 0 <= i < |schedule| => if schedule[i] then 2 else 0)
  }

  function Shortest(c: Config): nat { AtLeastOne(c.burstN - c.burstOffset) }

  function Longest(c: Config): nat { AtLeastOne(c.burstN + c.burstOffset) }

  function KindOfEvent(e: Event): Kind {
    match e
    case Pass => Passing
    case Random => Dropping
    case Burst(_) => Bursting
    case Window(_) => Windowed
  }

  /** The events that can be drawn. */
  predicate ValidEvent(c: Config, e: Event) {
    && CanBe(c, KindOfEvent(e))
    && match e
       case Burst(n) => Shortest(c) <= n <= Longest(c)
       case Window(schedule) =>
         |schedule| == c.highFreqM && Clamp(c.highFreqMin, c.highFreqM) <= Drops(schedule) <= Clamp(c.highFreqMax, c.highFreqM)
       case _ => true
  }

  /** Exactly the valid events come from valid draws. */
  lemma DrawnIsValid(c: Config, d: Draw)
    requires ValidDraw(c, d)
    ensures ValidEvent(c, EventOf(c, d))
  {
    hide EventProbability;
    hide Drops;
  }

  /** The draw of the kind with the least numbers. */
  function Least(c: Config, k: Kind): (real, real) {
    var p := EventProbability(c);
    var zero := 0.0;
    match k
    case Passing => (if p < zero then zero else p, zero)
    case Bursting => (zero, zero)
    case Windowed => (zero, if c.ratioBurst < zero then zero else c.ratioBurst)
    case Dropping =>
      var b := if c.ratioHighfreq < zero then c.ratioBurst else c.ratioBurst + c.ratioHighfreq;
      (zero, if b < zero then zero else b)
  }

  function DrawOf(c: Config, e: Event): (d: Draw)
    requires ValidEvent(c, e)
    ensures ValidDraw(c, d) && EventOf(c, d) == e
  {
    var at := Least(c, KindOfEvent(e));
    match e
    case Burst(n) => Draw(at.0, at.1, if c.burstN + c.burstOffset < 1 then c.burstOffset else n - c.burstN, 0, [])
    case Window(schedule) =>
      DropsBound(schedule);
      var n := Drops(schedule);
      Draw(at.0, at.1, 0, if n < c.highFreqMin then c.highFreqMin else if n > c.highFreqMax then c.highFreqMax else n, schedule)
    case _ => Draw(at.0, at.1, 0, 0, [])
  }

  /** The number of places that hold a drop. */
  lemma {:induction false} DropsAre(schedule: seq<bool>)
    ensures Drops(schedule) == |Dropped(schedule)|
  {
    var n := |schedule| - 1;
    if schedule != [] {
      DropsAre(schedule[..n]);
      var before := Dropped(schedule[..n]);
      assert Dropped(schedule) == if schedule[n] then before + {n} else before;
    }
  }

  lemma {:induction false} DropsBound(schedule: seq<bool>)
    ensures Drops(schedule) <= |schedule|
    ensures Drops(schedule) == |schedule| <==> forall i | 0 <= i < |schedule| :: schedule[i]
  {
    if schedule != [] { DropsBound(schedule[..|schedule| - 1]); }
  }

  function AllOutputs(events: seq<Event>): seq<int> {
    if events == [] then [] else AllOutputs(events[..|events| - 1]) + Outputs(events[|events| - 1])
  }

  lemma NextEvent(events: seq<Event>, e: Event)
    ensures AllOutputs(events + [e]) == AllOutputs(events) + Outputs(e)
  {
    assert (events + [e])[..|events|] == events;
  }

  lemma {:induction false} FirstEvent(events: seq<Event>)
    requires events != []
    ensures AllOutputs(events) == Outputs(events[0]) + AllOutputs(events[1..])
  {
    hide Outputs;
    var n := |events| - 1;
    if n > 0 {
      FirstEvent(events[..n]);
      Inner(events);
      hide AllOutputs;
      NextEvent(events[1..n], events[n]);
      NextEvent(events[..n], events[n]);
    } else {
      assert events[..0] == [] == events[1..];
      assert AllOutputs(events[..0]) == [];
    }
  }

  lemma Inner(events: seq<Event>)
    requires |events| > 1
    ensures var n := |events| - 1;
            && events[..n][1..] == events[1..n] && events[1..] == events[1..n] + [events[n]]
            && events == events[..n] + [events[n]] && events[..n][0] == events[0]
  {
  }

  // ---- one step ------------------------------------------------------------------------------

  /** The outputs that the last event still owes. */
  ghost function Rest(burst: nat, schedule: seq<bool>, index: nat): seq<int>
    requires index <= |schedule|
  {
    seq(burst, _ => 3) + Outputs(Window(schedule))[index..]
  }

  /** The last event, if there is one, has given at least one output. */
  predicate Unfinished(events: seq<Event>, rest: nat) {
    if events == [] then rest == 0 else rest < |Outputs(events[|events| - 1])|
  }

  predicate AllValid(c: Config, events: seq<Event>) { forall i | 0 <= i < |events| :: ValidEvent(c, events[i]) }

  /** The states of a burst and of a window are never active together, and what they hold is the rest of the last event. */
  ghost predicate Tracks(c: Config, burst: nat, schedule: seq<bool>, index: nat, started: seq<Event>, outputs: seq<int>) {
    && AllValid(c, started) && index <= |schedule| && (burst > 0 ==> schedule == [])
    && (schedule != [] ==> index > 0 && |schedule| == c.highFreqM && CanBe(c, Windowed)) && (index == |schedule| ==> index <= 1)
    && outputs + Rest(burst, schedule, index) == AllOutputs(started) && Unfinished(started, |Rest(burst, schedule, index)|)
  }

  lemma BurstGoesOn(c: Config, burst: nat, started: seq<Event>, outputs: seq<int>)
    requires burst > 0 && Tracks(c, burst, [], 0, started, outputs)
    ensures Tracks(c, burst - 1, [], 0, started, outputs + [3])
    ensures Rest(burst - 1, [], 0) == Rest(burst, [], 0)[1..] && Rest(burst, [], 0)[0] == 3
  {
    assert outputs + [3] + Rest(burst - 1, [], 0) == outputs + Rest(burst, [], 0);
  }

  lemma WindowGoesOn(c: Config, schedule: seq<bool>, index: nat, started: seq<Event>, outputs: seq<int>)
    requires index < |schedule| && Tracks(c, 0, schedule, index, started, outputs)
    ensures var x := if schedule[index] then 2 else 0;
            if index + 1 < |schedule|
            then Tracks(c, 0, schedule, index + 1, started, outputs + [x]) && Rest(0, schedule, index + 1) == Rest(0, schedule, index)[1..]
            else Tracks(c, 0, [], 0, started, outputs + [x]) && Rest(0, [], 0) == Rest(0, schedule, index)[1..]
    ensures Rest(0, schedule, index) != [] && Rest(0, schedule, index)[0] == if schedule[index] then 2 else 0
  {
    var x := if schedule[index] then 2 else 0;
    var rest := Rest(0, schedule, index);
    assert rest == [x] + rest[1..] && outputs + [x] + rest[1..] == outputs + rest;
  }

  lemma NoRest()
    ensures Rest(0, [], 0) == []
  {
  }

  /** An event has begun with output `x`, and the state holds its rest. */
  lemma EventBegins(c: Config, e: Event, started: seq<Event>, outputs: seq<int>, x: int, burst: nat, schedule: seq<bool>, index: nat)
    requires Tracks(c, 0, [], 0, started, outputs) && ValidEvent(c, e)
    requires index <= |schedule| && (burst > 0 ==> schedule == []) && (index == |schedule| ==> index <= 1)
    requires schedule != [] ==> index > 0 && |schedule| == c.highFreqM && CanBe(c, Windowed)
    requires Outputs(e) == [x] + Rest(burst, schedule, index)
    ensures Tracks(c, burst, schedule, index, started + [e], outputs + [x])
  {
    hide Rest;
    hide Outputs;
    hide ValidEvent;
    hide AllOutputs;
    NextEvent(started, e);
    NoRest();
    assert outputs + [] == outputs;
    assert outputs + [x] + Rest(burst, schedule, index) == outputs + ([x] + Rest(burst, schedule, index));
  }

  lemma SingleBegins(c: Config, e: Event, started: seq<Event>, outputs: seq<int>, x: int)
    requires Tracks(c, 0, [], 0, started, outputs) && ValidEvent(c, e) && ((e == Pass && x == 0) || (e == Random && x == 1))
    ensures Tracks(c, 0, [], 0, started + [e], outputs + [x])
  {
    assert Outputs(e) == [x] + Rest(0, [], 0);
    EventBegins(c, e, started, outputs, x, 0, [], 0);
  }

  lemma BurstBegins(c: Config, n: nat, started: seq<Event>, outputs: seq<int>)
    requires Tracks(c, 0, [], 0, started, outputs) && ValidEvent(c, Burst(n))
    ensures n > 0 && Tracks(c, n - 1, [], 0, started + [Burst(n)], outputs + [3])
  {
    assert Outputs(Burst(n)) == [3] + Rest(n - 1, [], 0);
    EventBegins(c, Burst(n), started, outputs, 3, n - 1, [], 0);
  }

  lemma WindowBegins(c: Config, s: seq<bool>, started: seq<Event>, outputs: seq<int>)
    requires Tracks(c, 0, [], 0, started, outputs) && ValidEvent(c, Window(s)) && c.highFreqM > 0
    ensures |s| == c.highFreqM && Tracks(c, 0, s, 1, started + [Window(s)], outputs + [if s[0] then 2 else 0])
  {
    var x := if s[0] then 2 else 0;
    assert Outputs(Window(s)) == [x] + Rest(0, s, 1);
    EventBegins(c, Window(s), started, outputs, x, 0, s, 1);
  }

  /** The state after the first output of a drawn event, and this output. */
  datatype Begun = Begun(burst: nat, schedule: seq<bool>, index: nat, first: int)

  function BegunBy(c: Config, d: Draw): Begun
    requires ValidDraw(c, d) && (KindOf(c, d).Windowed? ==> c.highFreqM > 0)
  {
    match KindOf(c, d)
    case Passing => Begun(0, [], 0, 0)
    case Bursting => Begun(AtLeastOne(c.burstN + d.offset) - 1, [], 0, 3)
    case Windowed => Begun(0, d.shuffled, 1, if d.shuffled[0] then 2 else 0)
    case Dropping => Begun(0, [], 0, 1)
  }

  lemma DrawStarts(c: Config, d: Draw)
    requires ValidDraw(c, d) && (KindOf(c, d).Windowed? ==> c.highFreqM > 0)
    ensures StartedBy(c, d, EventOf(c, d), BegunBy(c, d).first)
  {
    TriggersIff(c, d.u);
    DropsAre(d.shuffled);
    hide EventProbability;
    hide Triggers;
    hide Drops;
  }

  lemma DrawBegins(c: Config, d: Draw, started: seq<Event>, outputs: seq<int>)
    requires Tracks(c, 0, [], 0, started, outputs) && ValidDraw(c, d) && (KindOf(c, d).Windowed? ==> c.highFreqM > 0)
    ensures var b := BegunBy(c, d);
            b.index <= |b.schedule| && Tracks(c, b.burst, b.schedule, b.index, started + [EventOf(c, d)], outputs + [b.first])
  {
    DrawnIsValid(c, d);
    hide Tracks;
    hide ValidEvent;
    match KindOf(c, d)
    case Passing => SingleBegins(c, Pass, started, outputs, 0);
    case Bursting => BurstBegins(c, AtLeastOne(c.burstN + d.offset), started, outputs);
    case Windowed => WindowBegins(c, d.shuffled, started, outputs);
    case Dropping => SingleBegins(c, Random, started, outputs, 1);
  }

  // ---- the class ---------------------------------------------------------------------------

  class PacketDropper {
    const config: Config
    var burstRemaining: nat
    var highFreqSchedule: seq<bool>
    var highFreqIndex: nat
    /** The events started so far, and all outputs. */
    ghost var started: seq<Event>
    ghost var outputs: seq<int>

    /** Neither a burst nor a window is going on. */
    predicate Idle()
      reads this
    {
      burstRemaining == 0 && highFreqSchedule == []
    }

    ghost function Owed(): seq<int>
      reads this
      requires highFreqIndex <= |highFreqSchedule|
    {
      Rest(burstRemaining, highFreqSchedule, highFreqIndex)
    }

    ghost predicate Valid()
      reads this
      ensures Valid() ==> highFreqIndex <= |highFreqSchedule|
    {
      Tracks(config, burstRemaining, highFreqSchedule, highFreqIndex, started, outputs)
    }

    constructor (config: Config)
      ensures Valid() && this.config == config && Idle() && started == [] && outputs == []
    {
      this.config := config;
      burstRemaining, highFreqSchedule, highFreqIndex := 0, [], 0;
      started, outputs := [], [];
    }

    /** The next packet. Within an event it gives the next output of the event; otherwise it starts the event drawn. `None`
        stands for reading past the end of the schedule, which happens with windows of less than two packets: with none at
        once, with one at the next packet. */
    method Receive(draw: Draw) returns (r: Option<int>)
      requires Valid() && (Idle() ==> ValidDraw(config, draw))
      modifies this
      ensures r.None? <==> (!old(Idle()) && old(Owed()) == []) || (old(Idle()) && KindOf(config, draw).Windowed? && config.highFreqM == 0)
      ensures r.None? ==> config.highFreqM < 2 && CanBe(config, Windowed)
      ensures r.Some? ==> Valid() && outputs == old(outputs) + [r.value]
      ensures r.Some? ==> started == if old(Idle()) then old(started) + [EventOf(config, draw)] else old(started)
      ensures r.Some? && old(Idle()) ==> StartedBy(config, draw, started[|started| - 1], r.value)
      ensures r.Some? && !old(Idle()) ==> Owed() == old(Owed())[1..] && r.value == old(Owed())[0]
    {
      StateFacts();
      hide Tracks;
      hide ValidDraw;
      hide Rest;
      if burstRemaining > 0 {
        BurstGoesOn(config, burstRemaining, started, outputs);
        burstRemaining := burstRemaining - 1;
        outputs := outputs + [3];
        return Some(3);
      }
      if highFreqSchedule != [] {
        if highFreqIndex >= |highFreqSchedule| {
          return None;
        }
        r := ContinueWindow();
      } else {
        r := StartEvent(draw);
      }
    }

    /** The next packet of a window. */
    method ContinueWindow() returns (r: Option<int>)
      requires Valid() && burstRemaining == 0 && highFreqIndex < |highFreqSchedule|
      modifies this`highFreqSchedule, this`highFreqIndex, this`outputs
      ensures Valid() && r.Some? && outputs == old(outputs) + [r.value]
      ensures old(Owed()) != [] && Owed() == old(Owed())[1..] && r.value == old(Owed())[0]
    {
      WindowGoesOn(config, highFreqSchedule, highFreqIndex, started, outputs);
      hide Tracks;
      hide Rest;
      var drop := highFreqSchedule[highFreqIndex];
      highFreqIndex := highFreqIndex + 1;
      if highFreqIndex >= |highFreqSchedule| {
        highFreqSchedule := [];
        highFreqIndex := 0;
      }
      outputs := outputs + [if drop then 2 else 0];
      return Some(if drop then 2 else 0);
    }

    lemma StateFacts()
      requires Valid()
      ensures burstRemaining > 0 ==> highFreqSchedule == [] && highFreqIndex == 0
      ensures highFreqSchedule == [] ==> highFreqIndex == 0
      ensures highFreqSchedule != [] ==> |highFreqSchedule| == config.highFreqM && CanBe(config, Windowed)
      ensures highFreqIndex == |highFreqSchedule| ==> highFreqIndex <= 1
      ensures Owed() == [] <==> burstRemaining == 0 && highFreqIndex == |highFreqSchedule|
    {
    }

    /** Start an event and receive packets until it has given all its outputs. */
    method Finish(draw: Draw)
      requires Valid() && ValidDraw(config, draw) && Idle() && (CanBe(config, Windowed) ==> config.highFreqM >= 2)
      modifies this
      ensures Valid() && Idle() && started == old(started) + [EventOf(config, draw)]
    {
      hide Valid;
      hide ValidDraw;
      var r := Receive(draw);
      while !Idle()
        invariant Valid() && started == old(started) + [EventOf(config, draw)]
        decreases |Owed()|, Idle()
      {
        MoreToCome();
        r := Receive(draw);
      }
    }

    /** With windows of at least two packets, or none, an event that goes on has outputs to give, ... */
    lemma MoreToCome()
      requires Valid() && !Idle() && (CanBe(config, Windowed) ==> config.highFreqM >= 2)
      ensures Owed() != []
    {
    }

    /** ... and otherwise all have been given. */
    lemma NothingOwed()
      requires Valid() && Idle()
      ensures outputs == AllOutputs(started)
    {
      assert outputs + [] == outputs;
    }

    lemma OutputsExplained()
      requires Valid()
      ensures Explains(config, started, outputs)
    {
      assert outputs == AllOutputs(started)[..|outputs|];
    }

    /** A packet outside of any event. */
    method StartEvent(draw: Draw) returns (r: Option<int>)
      requires Valid() && ValidDraw(config, draw) && Idle()
      modifies this
      ensures r.None? <==> KindOf(config, draw).Windowed? && config.highFreqM == 0
      ensures r.Some? ==> Valid() && outputs == old(outputs) + [r.value]
      ensures r.Some? ==> started == old(started) + [EventOf(config, draw)]
      ensures r.Some? ==> StartedBy(config, draw, started[|started| - 1], r.value)
    {
      StateFacts();
      if KindOf(config, draw).Windowed? && config.highFreqM == 0 {
        return None;
      }
      DrawBegins(config, draw, started, outputs);
      DrawStarts(config, draw);
      hide *;
      var first := Begin(draw);
      started := started + [EventOf(config, draw)];
      outputs := outputs + [first];
      r := Some(first);
    }

    /** The state and the first output of the event drawn. */
    method Begin(draw: Draw) returns (first: int)
      requires ValidDraw(config, draw) && (KindOf(config, draw).Windowed? ==> config.highFreqM > 0)
      requires Idle() && highFreqIndex == 0
      modifies this`burstRemaining, this`highFreqSchedule, this`highFreqIndex
      ensures BegunBy(config, draw) == Begun(burstRemaining, highFreqSchedule, highFreqIndex, first)
    {
      if draw.u < EventProbability(config) {
        if draw.r < config.ratioBurst {
          var dropCount := AtLeastOne(config.burstN + draw.offset);
          burstRemaining := dropCount - 1;
          first := 3;
        } else if draw.r < config.ratioBurst + config.ratioHighfreq {
          highFreqSchedule := draw.shuffled;
          highFreqIndex := 1;
          first := if highFreqSchedule[0] then 2 else 0;
        } else {
          first := 1;
        }
      } else {
        first := 0;
      }
    }
  }

  // ---- what the outputs tell -----------------------------------------------------------------

  /** If there are bursts, all have one length; if there are windows, they are not empty, and hold only drops unless
      every packet outside of an event is dropped. */
  predicate Readable(c: Config) {
    && (CanBe(c, Bursting) ==> Shortest(c) == Longest(c))
    && (CanBe(c, Windowed) ==> c.highFreqM > 0 && (CanBe(c, Passing) ==> OnlyDrops(c)))
  }

  /** Every window holds only drops. */
  predicate OnlyDrops(c: Config) { Clamp(c.highFreqMin, c.highFreqM) == c.highFreqM }

  lemma NotEmpty(c: Config, e: Event)
    requires Readable(c) && ValidEvent(c, e)
    ensures Outputs(e) != []
  {
  }

  /** The first output tells the event, but for the schedule of a window. */
  lemma FirstTells(c: Config, e: Event, f: Event)
    requires Readable(c) && ValidEvent(c, e) && ValidEvent(c, f)
    requires Outputs(e) != [] && Outputs(f) != [] && Outputs(e)[0] == Outputs(f)[0]
    ensures e == f || (e.Window? && f.Window?)
    ensures |Outputs(e)| == |Outputs(f)|
    ensures OnlyDrops(c) || Outputs(e) == Outputs(f) ==> e == f
  {
    hide EventProbability;
    match (e, f)
    case (Window(s), Window(t)) =>
      DropsBound(s);
      DropsBound(t);
      if OnlyDrops(c) { assert s == t; }
      if Outputs(e) == Outputs(f) { SameSchedule(s, t); }
    case (Window(s), _) => DropsBound(s);
    case (_, Window(t)) => DropsBound(t);
    case _ =>
  }

  lemma SameSchedule(s: seq<bool>, t: seq<bool>)
    requires Outputs(Window(s)) == Outputs(Window(t))
    ensures s == t
  {
    assert |Outputs(Window(s))| == |s| && |Outputs(Window(t))| == |t|;
    forall i | 0 <= i < |s| ensures s[i] == t[i] {
      assert Outputs(Window(s))[i] == Outputs(Window(t))[i];
    }
  }

  /** `outputs` are those of the events, of the last one perhaps not all but at least one. */
  ghost predicate Explains(c: Config, events: seq<Event>, outputs: seq<int>) {
    && AllValid(c, events) && outputs <= AllOutputs(events)
    && Unfinished(events, |AllOutputs(events)| - |outputs|)
  }

  lemma OnlyEvent(c: Config, events: seq<Event>, outputs: seq<int>)
    requires Readable(c) && Explains(c, events, outputs) && |events| == 1
    ensures outputs != [] && Outputs(events[0]) != [] && outputs[0] == Outputs(events[0])[0]
    ensures |outputs| <= |Outputs(events[0])|
  {
    NotEmpty(c, events[0]);
    hide Outputs;
    FirstEvent(events);
    assert events[1..] == [];
    NoEvents();
    StripOutputs(Outputs(events[0]), [], outputs);
  }

  /** Without its first event the rest is explained by the rest. */
  lemma Strip(c: Config, events: seq<Event>, outputs: seq<int>)
    requires Readable(c) && Explains(c, events, outputs) && |events| > 1
    ensures outputs != [] && Outputs(events[0]) != [] && outputs[0] == Outputs(events[0])[0]
    ensures |outputs| > |Outputs(events[0])| && Explains(c, events[1..], outputs[|Outputs(events[0])|..])
    ensures outputs[..|Outputs(events[0])|] == Outputs(events[0])
  {
    NotEmpty(c, events[0]);
    FirstEvent(events);
    LastEvent(events[1..]);
    StripOutputs(Outputs(events[0]), AllOutputs(events[1..]), outputs);
    hide *;
    StripExplains(c, events, outputs);
  }

  lemma StripExplains(c: Config, events: seq<Event>, outputs: seq<int>)
    requires Explains(c, events, outputs) && |events| > 1
    requires AllOutputs(events) == Outputs(events[0]) + AllOutputs(events[1..])
    requires |AllOutputs(events[1..])| >= |Outputs(events[1..][|events| - 2])|
    requires |outputs| >= |Outputs(events[0])| ==> outputs[|Outputs(events[0])|..] <= AllOutputs(events[1..])
    ensures |outputs| > |Outputs(events[0])| && Explains(c, events[1..], outputs[|Outputs(events[0])|..])
  {
    hide Outputs;
    hide AllOutputs;
    hide ValidEvent;
    assert events[1..][|events| - 2] == events[|events| - 1];
  }

  lemma StripOutputs(xs: seq<int>, all: seq<int>, outputs: seq<int>)
    requires outputs <= xs + all && xs != []
    ensures outputs != [] ==> outputs[0] == xs[0]
    ensures |outputs| >= |xs| ==> outputs[|xs|..] <= all && outputs[..|xs|] == xs
  {
    assert |outputs| >= |xs| ==> outputs[|xs|..] == (xs + all)[..|outputs|][|xs|..] == all[..|outputs| - |xs|];
  }

  lemma NoEvents()
    ensures AllOutputs([]) == []
  {
  }

  lemma LastEvent(events: seq<Event>)
    requires events != []
    ensures |AllOutputs(events)| >= |Outputs(events[|events| - 1])|
  {
  }

  /** The last event is a window in both. */
  ghost predicate LastWindow(es: seq<Event>, fs: seq<Event>) {
    && |es| == |fs| > 0 && es[..|es| - 1] == fs[..|fs| - 1]
    && es[|es| - 1].Window? && fs[|fs| - 1].Window?
  }

  /** For a readable configuration the outputs determine the events at every moment, but for the schedule of a window
      that has not given all its outputs. */
  lemma {:induction false} OutputsTell(c: Config, es: seq<Event>, fs: seq<Event>, outputs: seq<int>)
    requires Readable(c) && Explains(c, es, outputs) && Explains(c, fs, outputs)
    ensures es == fs || LastWindow(es, fs)
    ensures OnlyDrops(c) || outputs == AllOutputs(es) ==> es == fs
  {
    OutputsAlmostTell(c, es, fs, outputs);
    if outputs == AllOutputs(es) && LastWindow(es, fs) { SameLast(c, es, fs); }
  }

  lemma SameLast(c: Config, es: seq<Event>, fs: seq<Event>)
    requires AllValid(c, es) && AllValid(c, fs) && LastWindow(es, fs) && AllOutputs(es) <= AllOutputs(fs)
    ensures es == fs
  {
    var n := |es| - 1;
    assert ValidEvent(c, es[n]) && ValidEvent(c, fs[n]);
    assert |Outputs(es[n])| == c.highFreqM == |Outputs(fs[n])|;
    assert es == es[..n] + [es[n]] && fs == fs[..n] + [fs[n]];
    hide Outputs;
    NextEvent(es[..n], es[n]);
    NextEvent(fs[..n], fs[n]);
    hide AllOutputs;
    SameEnd(AllOutputs(es[..n]), Outputs(es[n]), Outputs(fs[n]));
    SameSchedule(es[n].schedule, fs[n].schedule);
  }

  lemma SameEnd(a: seq<int>, b: seq<int>, b': seq<int>)
    requires |b| == |b'| && a + b <= a + b'
    ensures b == b'
  {
    assert b == (a + b)[|a|..] == (a + b')[|a|..] == b';
  }

  lemma {:induction false} OutputsAlmostTell(c: Config, es: seq<Event>, fs: seq<Event>, outputs: seq<int>)
    requires Readable(c) && Explains(c, es, outputs) && Explains(c, fs, outputs)
    ensures es == fs || (!OnlyDrops(c) && LastWindow(es, fs))
    decreases |es|
  {
    hide Explains;
    hide Outputs;
    hide ValidEvent;
    hide Readable;
    hide OnlyDrops;
    Empty(c, es, outputs);
    Empty(c, fs, outputs);
    if |es| == 1 { OnlyEvent(c, es, outputs); } else if |es| > 1 { Strip(c, es, outputs); }
    if |fs| == 1 { OnlyEvent(c, fs, outputs); } else if |fs| > 1 { Strip(c, fs, outputs); }
    if es != [] && fs != [] {
      FirstTells(c, es[0], fs[0]);
      if |es| > 1 && |fs| > 1 {
        OutputsAlmostTell(c, es[1..], fs[1..], outputs[|Outputs(es[0])|..]);
        SameFirst(es, fs);
      }
    }
  }

  lemma SameFirst(es: seq<Event>, fs: seq<Event>)
    requires |es| > 1 && |fs| > 1 && es[0] == fs[0]
    ensures es[1..] == fs[1..] ==> es == fs
    ensures LastWindow(es[1..], fs[1..]) ==> LastWindow(es, fs)
  {
    assert es == [es[0]] + es[1..] && fs == [fs[0]] + fs[1..];
    if LastWindow(es[1..], fs[1..]) {
      assert es[..|es| - 1] == [es[0]] + es[1..][..|es| - 2];
      assert fs[..|fs| - 1] == [fs[0]] + fs[1..][..|fs| - 2];
    }
  }

  lemma Empty(c: Config, es: seq<Event>, outputs: seq<int>)
    requires Explains(c, es, outputs)
    ensures es == [] ==> outputs == []
    ensures AllValid(c, es)
  {
  }

  function Repeat(e: Event, n: nat): seq<Event> { seq(n, _ => e) }

  lemma {:induction false} RepeatedBursts(k: nat, n: nat)
    ensures AllOutputs(Repeat(Burst(k), n)) == seq(n * k, _ => 3)
  {
    if n > 0 {
      assert Repeat(Burst(k), n)[..n - 1] == Repeat(Burst(k), n - 1);
      RepeatedBursts(k, n - 1);
      assert n * k == (n - 1) * k + k;
    }
  }

  lemma {:induction false} AllTrue(n: nat)
    ensures Drops(seq(n, _ => true)) == n
  {
    if n > 0 {
      assert seq(n, _ => true)[..n - 1] == seq(n - 1, _ => true);
      AllTrue(n - 1);
    }
  }

  lemma {:induction false} DropsConcat(s: seq<bool>, t: seq<bool>)
    ensures Drops(s + t) == Drops(s) + Drops(t)
  {
    if t == [] {
      assert s + t == s;
    } else {
      assert (s + t)[..|s + t| - 1] == s + t[..|t| - 1];
      DropsConcat(s, t[..|t| - 1]);
    }
  }

  lemma {:induction false} AllFalse(n: nat)
    ensures Drops(seq(n, _ => false)) == 0
  {
    if n > 0 {
      assert seq(n, _ => false)[..n - 1] == seq(n - 1, _ => false);
      AllFalse(n - 1);
    }
  }

  /** `d` drops, then packets that pass. */
  function Early(d: nat, n: nat): seq<bool>
    requires d <= n
  {
    seq(d, _ => true) + seq(n - d, _ => false)
  }

  /** Two sequences of events with the same outputs: short bursts and long ones, nothing and an empty window, or a window
      that begins with a passing packet and one that ends with it. */
  function Confused(c: Config): (seq<Event>, seq<Event>)
    requires !Readable(c)
  {
    if CanBe(c, Bursting) && Shortest(c) < Longest(c) then
      (Repeat(Burst(Shortest(c)), Longest(c)), Repeat(Burst(Longest(c)), Shortest(c)))
    else if c.highFreqM == 0 then
      ([], [Window([])])
    else
      var t := Early(Clamp(c.highFreqMin, c.highFreqM), c.highFreqM - 1);
      ([Pass, Window(t + [false])], [Window([false] + t), Pass])
  }

  lemma Confuses(c: Config)
    requires !Readable(c)
    ensures var r := Confused(c);
            AllValid(c, r.0) && AllValid(c, r.1) && r.0 != r.1 && AllOutputs(r.0) == AllOutputs(r.1)
  {
    hide AllOutputs;
    hide Repeat;
    hide Early;
    if CanBe(c, Bursting) && Shortest(c) < Longest(c) {
      BurstsConfused(c);
    } else if c.highFreqM == 0 {
      EmptyWindow();
    } else {
      WindowShift(c, Early(Clamp(c.highFreqMin, c.highFreqM), c.highFreqM - 1));
    }
  }

  lemma BurstsConfused(c: Config)
    requires CanBe(c, Bursting) && Shortest(c) < Longest(c)
    ensures var es, fs := Repeat(Burst(Shortest(c)), Longest(c)), Repeat(Burst(Longest(c)), Shortest(c));
            AllValid(c, es) && AllValid(c, fs) && es != fs && AllOutputs(es) == AllOutputs(fs)
  {
    hide AllOutputs;
    RepeatedBursts(Shortest(c), Longest(c));
    RepeatedBursts(Longest(c), Shortest(c));
    assert Shortest(c) * Longest(c) == Longest(c) * Shortest(c);
  }

  lemma EmptyWindow()
    ensures AllOutputs([Window([])]) == AllOutputs([])
  {
    NextEvent([], Window([]));
    assert [] + [Window([])] == [Window([])];
  }

  lemma ShiftValid(c: Config, t: seq<bool>)
    requires CanBe(c, Windowed) && CanBe(c, Passing) && Clamp(c.highFreqMin, c.highFreqM) < c.highFreqM
    requires t == Early(Clamp(c.highFreqMin, c.highFreqM), c.highFreqM - 1)
    ensures ValidEvent(c, Window(t + [false])) && ValidEvent(c, Window([false] + t))
    ensures |t| == c.highFreqM - 1
  {
    EarlyDrops(Clamp(c.highFreqMin, c.highFreqM), c.highFreqM - 1);
    OnePasses(t);
    hide Early;
    hide Drops;
  }

  lemma WindowShift(c: Config, t: seq<bool>)
    requires CanBe(c, Windowed) && CanBe(c, Passing) && Clamp(c.highFreqMin, c.highFreqM) < c.highFreqM
    requires t == Early(Clamp(c.highFreqMin, c.highFreqM), c.highFreqM - 1)
    ensures ValidEvent(c, Window(t + [false])) && ValidEvent(c, Window([false] + t))
    ensures AllOutputs([Pass, Window(t + [false])]) == AllOutputs([Window([false] + t), Pass])
    ensures |t| == c.highFreqM - 1
  {
    ShiftValid(c, t);
    hide *;
    TwoEvents(Pass, Window(t + [false]));
    TwoEvents(Window([false] + t), Pass);
    Shifted(t);
  }

  lemma Shifted(t: seq<bool>)
    ensures Outputs(Pass) + Outputs(Window(t + [false])) == Outputs(Window([false] + t)) + Outputs(Pass)
  {
  }

  lemma TwoEvents(e: Event, f: Event)
    ensures AllOutputs([e, f]) == Outputs(e) + Outputs(f)
  {
    NextEvent([e], f);
    NextEvent([], e);
    assert [e] + [f] == [e, f] && [] + [e] == [e] && [] + Outputs(e) == Outputs(e);
  }

  lemma EarlyDrops(d: nat, n: nat)
    requires d <= n
    ensures Drops(Early(d, n)) == d && |Early(d, n)| == n
  {
    AllTrue(d);
    AllFalse(n - d);
    DropsConcat(seq(d, _ => true), seq(n - d, _ => false));
  }

  lemma OnePasses(t: seq<bool>)
    ensures Drops(t + [false]) == Drops(t) == Drops([false] + t)
  {
    AllFalse(1);
    assert seq(1, _ => false) == [false];
    DropsConcat(t, [false]);
    DropsConcat([false], t);
  }

  ghost predicate Unambiguous(c: Config) {
    forall es, fs | AllValid(c, es) && AllValid(c, fs) && AllOutputs(es) == AllOutputs(fs) :: es == fs
  }

  /** The outputs of complete events tell the events exactly for the readable configurations. */
  lemma UnambiguousIff(c: Config)
    ensures Unambiguous(c) <==> Readable(c)
  {
    if Readable(c) {
      forall es, fs | AllValid(c, es) && AllValid(c, fs) && AllOutputs(es) == AllOutputs(fs) ensures es == fs {
        Explained(c, es);
        Explained(c, fs);
        OutputsTell(c, es, fs, AllOutputs(es));
      }
    } else {
      Confuses(c);
      var r := Confused(c);
      assert AllValid(c, r.0) && AllValid(c, r.1);
    }
  }

  lemma Explained(c: Config, es: seq<Event>)
    requires Readable(c) && AllValid(c, es)
    ensures Explains(c, es, AllOutputs(es))
  {
    if es != [] { NotEmpty(c, es[|es| - 1]); }
  }

  // ---- runs ------------------------------------------------------------------------------------

  lemma NthValid(c: Config, events: seq<Event>, i: nat)
    requires AllValid(c, events) && i < |events|
    ensures ValidEvent(c, events[i])
  {
  }

  /** Every sequence of valid events is that of some run, if windows do not occur or have at least two packets. */
  method Replay(c: Config, events: seq<Event>) returns (d: PacketDropper)
    requires (CanBe(c, Windowed) ==> c.highFreqM >= 2) && AllValid(c, events)
    ensures d.Valid() && d.config == c && d.Idle() && d.started == events && d.outputs == AllOutputs(events)
  {
    hide AllValid;
    hide ValidEvent;
    hide ValidDraw;
    hide EventOf;
    hide DrawOf;
    hide AllOutputs;
    d := new PacketDropper(c);
    hide PacketDropper.Valid;
    hide PacketDropper.Idle;
    for i := 0 to |events|
      invariant d.Valid() && d.config == c && d.Idle() && d.started == events[..i] && fresh(d)
    {
      NthValid(c, events, i);
      d.Finish(DrawOf(c, events[i]));
      assert events[..i + 1] == events[..i] + [events[i]];
    }
    assert events[..|events|] == events;
    d.NothingOwed();
  }

  /** Two runs with the same outputs and different events, for every configuration that is not readable. */
  method TwoRuns(c: Config) returns (one: PacketDropper, other: PacketDropper)
    requires !Readable(c) && (CanBe(c, Windowed) ==> c.highFreqM >= 2)
    ensures one.Valid() && other.Valid() && one.config == other.config == c && one.Idle() && other.Idle()
    ensures one.outputs == other.outputs && one.started != other.started
  {
    Confuses(c);
    var r := Confused(c);
    one := Replay(c, r.0);
    other := Replay(c, r.1);
  }

  /** Two runs of a readable configuration with the same outputs have the same events, at every moment, but for the
      schedule of a window they may both be in. */
  lemma RunsTell(one: PacketDropper, other: PacketDropper)
    requires one.Valid() && other.Valid() && one.config == other.config && Readable(one.config)
    requires one.outputs == other.outputs
    ensures one.started == other.started || LastWindow(one.started, other.started)
    ensures OnlyDrops(one.config) || one.Idle() ==> one.started == other.started
  {
    one.OutputsExplained();
    other.OutputsExplained();
    if one.Idle() { one.NothingOwed(); }
    OutputsTell(one.config, one.started, other.started, one.outputs);
  }
}
