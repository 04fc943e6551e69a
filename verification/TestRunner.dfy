/** The concurrent test runner: one main thread, worker threads over a shared input and a shared
    output queue, and a flag that a signal handler may raise at any time. */
module TestRunner {

  /** A job object. `id` tells the dispatched jobs apart; the jobs that tell a worker to stop have id -1.
      `isBreak` also marks a job handed back undone after an interrupt. */
  datatype Job = Job(id: int, isBreak: bool, isSkip: bool, returncode: int)

  const STOP := Job(-1, true, false, 0)

  /** A worker waits for a job, has one in hand, is executing one, or has returned. */
  datatype Worker = Waiting | Holding(job: Job) | Running(job: Job) | Exited

  /** Where the main thread is follows from its counters: it dispatches all jobs, puts one stop job per worker,
      collects as many outputs as it dispatched jobs and joins the workers in order. */
  datatype State = State(input: seq<Job>, output: seq<Job>, workers: seq<Worker>, threadExit: bool,
                         dispatched: nat, stops: nat, collected: seq<Job>, joined: nat,
                         passed: nat, skipped: nat, failed: nat, valgrind: nat, crashed: nat)

  datatype Action =
    | Dispatch | PutStop | Collect | JoinNext
    | Take(w: nat) | Check(w: nat) | Complete(w: nat, rc: int)
    | Interrupt

  predicate IsStop(j: Job) { j.id == -1 }

  /** The jobs to run: numbered, none of them a break. */
  predicate ValidJobs(jobs: seq<Job>) {
    forall i | 0 <= i < |jobs| :: jobs[i].id == i && !jobs[i].isBreak
  }

  function Init(processors: nat): State {
    State([], [], seq(processors, _ => Waiting), false, 0, 0, [], 0, 0, 0, 0, 0, 0)
  }

  predicate Enabled(jobs: seq<Job>, s: State, a: Action) {
    match a
    case Dispatch => s.dispatched < |jobs|
    case PutStop => s.dispatched == |jobs| && s.stops < |s.workers|
    case Collect => s.dispatched == |jobs| && s.stops == |s.workers| && |s.collected| < |jobs| && s.output != []
    case JoinNext => s.dispatched == |jobs| && s.stops == |s.workers| && |s.collected| == |jobs|
                     && s.joined < |s.workers| && s.workers[s.joined].Exited?
    case Take(w) => w < |s.workers| && s.workers[w].Waiting? && s.input != []
    case Check(w) => w < |s.workers| && s.workers[w].Holding?
    case Complete(w, rc) => w < |s.workers| && s.workers[w].Running?
    case Interrupt => true
  }

  function Count(s: State, j: Job): State {
    if j.isBreak then s
    else if j.isSkip then s.(skipped := s.skipped + 1)
    else if j.returncode == 0 then s.(passed := s.passed + 1)
    else if j.returncode == 1 then s.(failed := s.failed + 1)
    else if j.returncode == 2 then s.(valgrind := s.valgrind + 1)
    else s.(crashed := s.crashed + 1)
  }

  /** One step. A worker that has seen the flag down may still be executing when it goes up. */
  function Do(jobs: seq<Job>, s: State, a: Action): State
    requires Enabled(jobs, s, a)
  {
    match a
    case Dispatch => s.(input := s.input + [jobs[s.dispatched]], dispatched := s.dispatched + 1)
    case PutStop => s.(input := s.input + [STOP], stops := s.stops + 1)
    case Collect =>
      var j := s.output[0];
      Count(s, j).(output := s.output[1..], collected := s.collected + [j])
    case JoinNext => s.(joined := s.joined + 1)
    case Take(w) => s.(input := s.input[1..], workers := s.workers[w := Holding(s.input[0])])
    case Check(w) =>
      var j := s.workers[w].job;
      if j.isBreak then s.(workers := s.workers[w := Exited])
      else if s.threadExit then s.(output := s.output + [j.(isBreak := true)], workers := s.workers[w := Waiting])
      else if j.isSkip then s.(output := s.output + [j], workers := s.workers[w := Waiting])
      else s.(workers := s.workers[w := Running(j)])
    case Complete(w, rc) =>
      s.(output := s.output + [s.workers[w].job.(returncode := rc)], workers := s.workers[w := Waiting])
    case Interrupt => s.(threadExit := true)
  }

  /** The main thread has joined every worker. */
  predicate Done(jobs: seq<Job>, s: State) {
    s.dispatched == |jobs| && s.stops == |s.workers| && |s.collected| == |jobs| && s.joined == |s.workers|
  }

  function ExitStatus(jobs: seq<Job>, s: State): int {
    if s.passed + s.skipped == |jobs| then 0 else 1
  }

  // ---- counting over the workers ---------------------------------------------------------

  /** Stop jobs a worker has consumed. */
  function StopsTaken(w: Worker): nat {
    match w
    case Exited => 1
    case Holding(j) => if IsStop(j) then 1 else 0
    case _ => 0
  }

  ghost function Sum(ws: seq<Worker>, f: Worker -> nat): nat {
    if ws == [] then 0 else Sum(ws[..|ws| - 1], f) + f(ws[|ws| - 1])
  }

  lemma {:induction false} SumUpdate(ws: seq<Worker>, f: Worker -> nat, k: nat, w: Worker)
    requires k < |ws|
    ensures Sum(ws[k := w], f) == Sum(ws, f) - f(ws[k]) + f(w)
  {
    var n := |ws| - 1;
    if k < n {
      assert ws[k := w][..n] == ws[..n][k := w];
      SumUpdate(ws[..n], f, k, w);
    } else {
      assert ws[k := w][..n] == ws[..n];
    }
  }

  /** If every worker has consumed at most one stop job and one of them none, fewer are consumed than there are workers. */
  lemma {:induction false} SumBelow(ws: seq<Worker>, f: Worker -> nat, k: int)
    requires forall w :: f(w) <= 1
    requires 0 <= k < |ws| ==> f(ws[k]) == 0
    ensures Sum(ws, f) <= |ws| && (0 <= k < |ws| ==> Sum(ws, f) < |ws|)
  {
    if ws != [] {
      SumBelow(ws[..|ws| - 1], f, k);
    }
  }

  // ---- the invariant -----------------------------------------------------------------------

  /** A worker has a job, other than a stop job, in hand. */
  predicate Busy(w: Worker) { (w.Holding? || w.Running?) && !IsStop(w.job) }

  /** Where a job taken from the input queue is: with a worker, or among the outputs. */
  datatype Place = With(worker: nat) | Out(position: nat)

  /** All outputs so far, in order. */
  function Outputs(s: State): seq<Job> { s.collected + s.output }

  /** The input queue holds the dispatched jobs not yet taken, in order, then the stop jobs not yet taken. */
  ghost predicate Queue(jobs: seq<Job>, s: State, taken: nat) {
    && taken <= s.dispatched <= |jobs| && s.stops <= |s.workers|
    && (s.dispatched < |jobs| ==> s.stops == 0)
    && Sum(s.workers, StopsTaken) <= s.stops && (Sum(s.workers, StopsTaken) > 0 ==> taken == |jobs|)
    && s.input == jobs[taken..s.dispatched] + seq(s.stops - Sum(s.workers, StopsTaken), _ => STOP)
  }

  /** The workers have genuine jobs, each the one it is recorded to have. */
  ghost predicate WorkersOk(jobs: seq<Job>, s: State, place: seq<Place>) {
    && (forall w | 0 <= w < |s.workers| && s.workers[w].Holding? && IsStop(s.workers[w].job) :: s.workers[w].job == STOP)
    && (forall w | 0 <= w < |s.workers| && s.workers[w].Running? :: !IsStop(s.workers[w].job))
    && (forall w | 0 <= w < |s.workers| && Busy(s.workers[w]) ::
          var id := s.workers[w].job.id;
          0 <= id < |place| <= |jobs| && s.workers[w].job == jobs[id] && place[id] == With(w))
  }

  /** The outputs belong to different taken jobs. */
  ghost predicate OutputsOk(jobs: seq<Job>, s: State, place: seq<Place>) {
    forall k | 0 <= k < |Outputs(s)| ::
      var j := Outputs(s)[k];
      && 0 <= j.id < |place| <= |jobs| && place[j.id] == Out(k)
      && j.isSkip == jobs[j.id].isSkip && (j.isBreak ==> s.threadExit)
  }

  /** Every taken job is where it is recorded to be. */
  ghost predicate PlacesOk(s: State, place: seq<Place>) {
    forall id | 0 <= id < |place| ::
      match place[id]
      case With(w) => w < |s.workers| && Busy(s.workers[w]) && s.workers[w].job.id == id
      case Out(k) => k < |Outputs(s)| && Outputs(s)[k].id == id
  }

  predicate Good(j: Job) { !j.isBreak && (j.isSkip || j.returncode == 0) }

  function GoodCount(js: seq<Job>): nat {
    if js == [] then 0 else GoodCount(js[..|js| - 1]) + if Good(js[|js| - 1]) then 1 else 0
  }

  /** What the main thread makes of a job that has come back. */
  datatype Outcome = Undone | Skipped | Passed | Failed | Valgrind | Crashed

  ghost predicate HasOutcome(j: Job, o: Outcome) {
    match o
    case Undone => j.isBreak
    case Skipped => !j.isBreak && j.isSkip
    case Passed => !j.isBreak && !j.isSkip && j.returncode == 0
    case Failed => !j.isBreak && !j.isSkip && j.returncode == 1
    case Valgrind => !j.isBreak && !j.isSkip && j.returncode == 2
    case Crashed => !j.isBreak && !j.isSkip && j.returncode !in {0, 1, 2}
  }

  ghost function CountOf(js: seq<Job>, o: Outcome): nat {
    if js == [] then 0 else CountOf(js[..|js| - 1], o) + if HasOutcome(js[|js| - 1], o) then 1 else 0
  }

  lemma CountAppend(js: seq<Job>, j: Job, o: Outcome)
    ensures CountOf(js + [j], o) == CountOf(js, o) + if HasOutcome(j, o) then 1 else 0
  {
    assert (js + [j])[..|js|] == js;
  }

  /** Every counter says how many of the collected jobs have its outcome. */
  ghost predicate Counted(s: State) {
    && s.passed == CountOf(s.collected, Passed) && s.skipped == CountOf(s.collected, Skipped)
    && s.failed == CountOf(s.collected, Failed) && s.valgrind == CountOf(s.collected, Valgrind)
    && s.crashed == CountOf(s.collected, Crashed)
  }

  lemma CollectCounts(jobs: seq<Job>, s: State)
    requires Enabled(jobs, s, Collect) && Counted(s)
    ensures Counted(Do(jobs, s, Collect))
  {
    var j := s.output[0];
    forall o { CountAppend(s.collected, j, o); }
    hide CountOf;
  }

  ghost predicate MainOk(jobs: seq<Job>, s: State) {
    && |s.collected| <= |jobs| && (s.collected != [] ==> s.dispatched == |jobs| && s.stops == |s.workers|)
    && s.joined <= |s.workers| && (s.joined > 0 ==> |s.collected| == |jobs| && s.dispatched == |jobs| && s.stops == |s.workers|)
    && (forall w | 0 <= w < s.joined :: s.workers[w].Exited?)
    && s.passed + s.skipped == GoodCount(s.collected)
    && Counted(s)
  }

  ghost predicate Inv(jobs: seq<Job>, s: State, place: seq<Place>) {
    && Queue(jobs, s, |place|) && WorkersOk(jobs, s, place) && OutputsOk(jobs, s, place) && PlacesOk(s, place)
    && MainOk(jobs, s)
  }

  lemma {:induction false} InitInv(jobs: seq<Job>, processors: nat)
    requires ValidJobs(jobs)
    ensures Inv(jobs, Init(processors), [])
  {
    NoStops(processors);
  }

  lemma {:induction false} NoStops(n: nat)
    ensures Sum(seq(n, _ => Waiting), StopsTaken) == 0
  {
    if n > 0 {
      assert seq(n, _ => Waiting)[..n - 1] == seq(n - 1, _ => Waiting);
      NoStops(n - 1);
    }
  }

  lemma CollectOutputs(jobs: seq<Job>, s: State)
    requires Enabled(jobs, s, Collect)
    ensures var s' := Do(jobs, s, Collect);
            && Outputs(s') == Outputs(s) && s'.workers == s.workers && s'.input == s.input
            && s'.dispatched == s.dispatched && s'.stops == s.stops && s'.joined == s.joined
            && (s.threadExit ==> s'.threadExit)
  {
  }

  lemma CollectMain(jobs: seq<Job>, s: State)
    requires MainOk(jobs, s) && Enabled(jobs, s, Collect)
    ensures MainOk(jobs, Do(jobs, s, Collect))
  {
    var s' := Do(jobs, s, Collect);
    assert s'.collected[..|s.collected|] == s.collected;
    CollectCounts(jobs, s);
    hide Counted;
  }

  lemma CollectStep(jobs: seq<Job>, s: State, place: seq<Place>)
    requires Inv(jobs, s, place) && Enabled(jobs, s, Collect)
    ensures Inv(jobs, Do(jobs, s, Collect), place)
  {
    CollectOutputs(jobs, s);
    CollectMain(jobs, s);
    hide MainOk;
    hide Outputs;
    hide Sum;
    hide Do;
    hide Enabled;
  }

  lemma MainStep(jobs: seq<Job>, s: State, a: Action, place: seq<Place>)
    requires ValidJobs(jobs) && Inv(jobs, s, place) && Enabled(jobs, s, a)
    requires a.Dispatch? || a.PutStop? || a.JoinNext? || a.Interrupt?
    ensures Inv(jobs, Do(jobs, s, a), place)
  {
    hide Sum;
    hide GoodCount;
    hide CountOf;
    var s' := Do(jobs, s, a);
    assert Outputs(s') == Outputs(s);
    if a.Dispatch? {
      assert jobs[|place|..s.dispatched + 1] == jobs[|place|..s.dispatched] + [jobs[s.dispatched]];
    }
    var n := s.stops - Sum(s.workers, StopsTaken);
    assert seq(n + 1, _ => STOP) == seq(n, _ => STOP) + [STOP];
    assert Queue(jobs, s', |place|);
    assert WorkersOk(jobs, s', place);
    assert OutputsOk(jobs, s', place);
    assert PlacesOk(s', place);
  }

  /** Taking a job off the queue. */
  lemma TakeStep(jobs: seq<Job>, s: State, w: nat, place: seq<Place>) returns (place': seq<Place>)
    requires ValidJobs(jobs) && Inv(jobs, s, place) && Enabled(jobs, s, Take(w))
    ensures Inv(jobs, Do(jobs, s, Take(w)), place')
  {
    var j := s.input[0];
    SumUpdate(s.workers, StopsTaken, w, Holding(j));
    var s' := Do(jobs, s, Take(w));
    assert Outputs(s') == Outputs(s);
    if |place| < s.dispatched {
      assert j == jobs[|place|];
      place' := place + [With(w)];
      TakeReal(jobs, s, w, place);
    } else {
      assert j == STOP;
      place' := place;
      TakeStop(jobs, s, w, place);
    }
  }

  lemma TakeReal(jobs: seq<Job>, s: State, w: nat, place: seq<Place>)
    requires ValidJobs(jobs) && Inv(jobs, s, place) && Enabled(jobs, s, Take(w)) && |place| < s.dispatched
    requires s.input[0] == jobs[|place|]
    requires Sum(s.workers[w := Holding(s.input[0])], StopsTaken) == Sum(s.workers, StopsTaken)
    ensures Inv(jobs, Do(jobs, s, Take(w)), place + [With(w)])
  {
    hide Sum;
    hide GoodCount;
    hide CountOf;
    var s' := Do(jobs, s, Take(w));
    assert Outputs(s') == Outputs(s);
    assert jobs[|place|..s.dispatched] == [jobs[|place|]] + jobs[|place| + 1..s.dispatched];
    assert Queue(jobs, s', |place| + 1);
    assert WorkersOk(jobs, s', place + [With(w)]);
    assert OutputsOk(jobs, s', place + [With(w)]);
    assert PlacesOk(s', place + [With(w)]);
  }

  lemma TakeStop(jobs: seq<Job>, s: State, w: nat, place: seq<Place>)
    requires ValidJobs(jobs) && Inv(jobs, s, place) && Enabled(jobs, s, Take(w)) && |place| == s.dispatched
    requires s.input[0] == STOP
    requires Sum(s.workers[w := Holding(s.input[0])], StopsTaken) == Sum(s.workers, StopsTaken) + 1
    ensures Inv(jobs, Do(jobs, s, Take(w)), place)
  {
    hide Sum;
    hide GoodCount;
    hide CountOf;
    var s' := Do(jobs, s, Take(w));
    assert Outputs(s') == Outputs(s);
    var n := s.stops - Sum(s.workers, StopsTaken);
    assert seq(n, _ => STOP)[1..] == seq(n - 1, _ => STOP);
    assert Queue(jobs, s', |place|);
    assert WorkersOk(jobs, s', place);
    assert OutputsOk(jobs, s', place);
    assert PlacesOk(s', place);
  }

  /** A worker delivers the job it has in hand. */
  lemma Deliver(jobs: seq<Job>, s: State, w: nat, j: Job, place: seq<Place>) returns (place': seq<Place>)
    requires ValidJobs(jobs) && Inv(jobs, s, place) && w < |s.workers| && Busy(s.workers[w])
    requires j.id == s.workers[w].job.id && j.isSkip == s.workers[w].job.isSkip && (j.isBreak ==> s.threadExit)
    ensures Inv(jobs, s.(output := s.output + [j], workers := s.workers[w := Waiting]), place')
  {
    var s' := s.(output := s.output + [j], workers := s.workers[w := Waiting]);
    place' := place[j.id := Out(|Outputs(s)|)];
    assert Outputs(s') == Outputs(s) + [j];
    SumUpdate(s.workers, StopsTaken, w, Waiting);
  }

  /** A worker goes on with the same job, or leaves with a stop job. */
  lemma Proceed(jobs: seq<Job>, s: State, w: nat, next: Worker, place: seq<Place>)
    requires ValidJobs(jobs) && Inv(jobs, s, place) && w < |s.workers| && s.workers[w].Holding?
    requires next == if IsStop(s.workers[w].job) then Exited else Running(s.workers[w].job)
    ensures Inv(jobs, s.(workers := s.workers[w := next]), place)
  {
    SumUpdate(s.workers, StopsTaken, w, next);
    hide Sum;
    hide GoodCount;
    hide CountOf;
    var s' := s.(workers := s.workers[w := next]);
    assert Outputs(s') == Outputs(s);
    assert Queue(jobs, s', |place|);
    assert WorkersOk(jobs, s', place);
    assert OutputsOk(jobs, s', place);
    assert PlacesOk(s', place);
  }

  lemma CheckStep(jobs: seq<Job>, s: State, w: nat, place: seq<Place>) returns (place': seq<Place>)
    requires ValidJobs(jobs) && Inv(jobs, s, place) && Enabled(jobs, s, Check(w))
    ensures Inv(jobs, Do(jobs, s, Check(w)), place')
  {
    HeldJob(jobs, s, w, place);
    hide Inv;
    hide ValidJobs;
    var j := s.workers[w].job;
    if j.isBreak {
      place' := place;
      Proceed(jobs, s, w, Exited, place);
    } else if s.threadExit {
      place' := Deliver(jobs, s, w, j.(isBreak := true), place);
    } else if j.isSkip {
      place' := Deliver(jobs, s, w, j, place);
    } else {
      place' := place;
      Proceed(jobs, s, w, Running(j), place);
    }
  }

  /** Only stop jobs are breaks when a worker takes them. */
  lemma HeldJob(jobs: seq<Job>, s: State, w: nat, place: seq<Place>)
    requires ValidJobs(jobs) && Inv(jobs, s, place) && w < |s.workers| && s.workers[w].Holding?
    ensures s.workers[w].job.isBreak <==> IsStop(s.workers[w].job)
  {
  }

  lemma Step(jobs: seq<Job>, s: State, a: Action, place: seq<Place>) returns (place': seq<Place>)
    requires ValidJobs(jobs) && Inv(jobs, s, place) && Enabled(jobs, s, a)
    ensures Inv(jobs, Do(jobs, s, a), place')
  {
    hide Inv;
    match a
    case Take(w) => place' := TakeStep(jobs, s, w, place);
    case Check(w) => place' := CheckStep(jobs, s, w, place);
    case Complete(w, rc) => place' := CompleteStep(jobs, s, w, rc, place);
    case Collect =>
      CollectStep(jobs, s, place);
      place' := place;
    case _ =>
      MainStep(jobs, s, a, place);
      place' := place;
  }

  lemma CompleteStep(jobs: seq<Job>, s: State, w: nat, rc: int, place: seq<Place>) returns (place': seq<Place>)
    requires ValidJobs(jobs) && Inv(jobs, s, place) && Enabled(jobs, s, Complete(w, rc))
    ensures Inv(jobs, Do(jobs, s, Complete(w, rc)), place')
  {
    place' := Deliver(jobs, s, w, s.workers[w].job.(returncode := rc), place);
  }

  // ---- runs -----------------------------------------------------------------------------

  /** Every state follows from the one before by some enabled step. */
  ghost predicate Run(jobs: seq<Job>, processors: nat, run: seq<State>) {
    && run != [] && run[0] == Init(processors)
    && forall i | 0 < i < |run| :: Next(jobs, run[i - 1], run[i])
  }

  ghost predicate Next(jobs: seq<Job>, s: State, s': State) {
    exists a :: Enabled(jobs, s, a) && s' == Do(jobs, s, a)
  }

  lemma {:induction false} RunInv(jobs: seq<Job>, processors: nat, run: seq<State>, i: nat) returns (place: seq<Place>)
    requires ValidJobs(jobs) && Run(jobs, processors, run) && i < |run|
    ensures Inv(jobs, run[i], place) && |run[i].workers| == processors
  {
    hide Inv;
    if i == 0 {
      InitInv(jobs, processors);
      place := [];
    } else {
      var before := RunInv(jobs, processors, run, i - 1);
      assert Next(jobs, run[i - 1], run[i]);
      var a :| Enabled(jobs, run[i - 1], a) && run[i] == Do(jobs, run[i - 1], a);
      place := Step(jobs, run[i - 1], a, before);
    }
  }

  // ---- progress ---------------------------------------------------------------------------

  /** A worker with a job in hand can go on. */
  lemma WorkerCanGoOn(jobs: seq<Job>, s: State, w: nat)
    requires w < |s.workers| && (s.workers[w].Holding? || s.workers[w].Running? || (s.workers[w].Waiting? && s.input != []))
    ensures exists a :: a != Interrupt && Enabled(jobs, s, a)
  {
    if s.workers[w].Holding? {
      assert Enabled(jobs, s, Check(w));
    } else if s.workers[w].Running? {
      assert Enabled(jobs, s, Complete(w, 0));
    } else {
      assert Enabled(jobs, s, Take(w));
    }
  }

  /** While the main thread waits for an output that is not there, some worker can go on. */
  lemma OutputComing(jobs: seq<Job>, s: State, place: seq<Place>)
    requires ValidJobs(jobs) && Inv(jobs, s, place) && |s.workers| > 0
    requires s.dispatched == |jobs| && s.stops == |s.workers| && |s.collected| < |jobs| && s.output == []
    ensures exists a :: a != Interrupt && Enabled(jobs, s, a)
  {
    if w :| 0 <= w < |s.workers| && Busy(s.workers[w]) {
      WorkerCanGoOn(jobs, s, w);
    } else {
      assert Outputs(s) == s.collected;
      if |place| == |jobs| {
        PlacesFit(place, |s.collected|);
      }
      assert s.input != [];
      SumBelow(s.workers, StopsTaken, -1);
      if StopsTaken(s.workers[0]) == 1 { SumZero(s.workers, StopsTaken, 0); }
      WorkerCanGoOn(jobs, s, 0);
    }
  }

  /** As many places among the outputs as there are jobs need as many outputs. */
  lemma {:induction false} PlacesFit(place: seq<Place>, n: nat)
    requires forall id | 0 <= id < |place| :: place[id].Out? && place[id].position < n
    requires forall i, j | 0 <= i < j < |place| :: place[i] != place[j]
    ensures |place| <= n
    decreases n
  {
    if place != [] {
      assert place[0].position < n;
      if k :| 0 <= k < |place| && place[k].position == n - 1 {
        PlacesFit(place[..k] + place[k + 1..], n - 1);
      } else {
        PlacesFit(place, n - 1);
      }
    }
  }

  lemma {:induction false} SumZero(ws: seq<Worker>, f: Worker -> nat, k: nat)
    requires k < |ws|
    ensures f(ws[k]) <= Sum(ws, f)
  {
    if k < |ws| - 1 { SumZero(ws[..|ws| - 1], f, k); }
  }

  /** While the main thread waits for a worker, this worker can go on. */
  lemma WorkerComing(jobs: seq<Job>, s: State, place: seq<Place>)
    requires ValidJobs(jobs) && Inv(jobs, s, place)
    requires s.dispatched == |jobs| && s.stops == |s.workers| && |s.collected| == |jobs|
    requires s.joined < |s.workers| && !s.workers[s.joined].Exited?
    ensures exists a :: a != Interrupt && Enabled(jobs, s, a)
  {
    var w := s.joined;
    if s.workers[w].Waiting? {
      SumBelow(s.workers, StopsTaken, w);
      assert s.input != [];
    }
    WorkerCanGoOn(jobs, s, w);
  }

  /** No reachable state before the end is stuck: with at least one worker, some thread can take a step. */
  lemma NoDeadlock(jobs: seq<Job>, processors: nat, run: seq<State>)
    requires ValidJobs(jobs) && processors > 0 && Run(jobs, processors, run)
    ensures var s := run[|run| - 1]; Done(jobs, s) || exists a :: a != Interrupt && Enabled(jobs, s, a)
  {
    var s := run[|run| - 1];
    var place := RunInv(jobs, processors, run, |run| - 1);
    if s.dispatched < |jobs| {
      assert Enabled(jobs, s, Dispatch);
    } else if s.stops < |s.workers| {
      assert Enabled(jobs, s, PutStop);
    } else if |s.collected| < |jobs| {
      if s.output != [] { assert Enabled(jobs, s, Collect); } else { OutputComing(jobs, s, place); }
    } else if s.joined < |s.workers| {
      if s.workers[s.joined].Exited? { assert Enabled(jobs, s, JoinNext); } else { WorkerComing(jobs, s, place); }
    }
  }

  function Weight(w: Worker): nat {
    match w
    case Holding(_) => 3
    case Running(_) => 2
    case _ => 0
  }

  /** Steps still to be taken, at most. */
  ghost function Remaining(jobs: seq<Job>, s: State): int {
    6 * (|jobs| - s.dispatched) + 4 * |s.input| + Sum(s.workers, Weight) + |s.output| + 6 * (|s.workers| - s.stops)
      + (|s.workers| - s.joined)
  }

  /** Every step but the interrupt brings the end closer, ... */
  lemma StepShrinks(jobs: seq<Job>, s: State, a: Action)
    requires Enabled(jobs, s, a)
    ensures Remaining(jobs, Do(jobs, s, a)) <= Remaining(jobs, s) - if a == Interrupt then 0 else 1
  {
    var s' := Do(jobs, s, a);
    match a
    case Take(w) => SumUpdate(s.workers, Weight, w, s'.workers[w]);
    case Check(w) => SumUpdate(s.workers, Weight, w, s'.workers[w]);
    case Complete(w, rc) => SumUpdate(s.workers, Weight, w, s'.workers[w]);
    case _ =>
  }

  /** The states of an execution with the steps between them. */
  ghost predicate Execution(jobs: seq<Job>, processors: nat, run: seq<State>, acts: seq<Action>) {
    && |run| == |acts| + 1 && run[0] == Init(processors)
    && forall i | 0 <= i < |acts| :: Enabled(jobs, run[i], acts[i]) && run[i + 1] == Do(jobs, run[i], acts[i])
  }

  function Progressing(acts: seq<Action>): nat {
    if acts == [] then 0 else Progressing(acts[..|acts| - 1]) + if acts[|acts| - 1] == Interrupt then 0 else 1
  }

  /** ... so no execution takes more than a fixed number of steps: with `NoDeadlock`, every one ends. */
  lemma ExecutionBound(jobs: seq<Job>, processors: nat, run: seq<State>, acts: seq<Action>)
    requires ValidJobs(jobs) && Execution(jobs, processors, run, acts)
    ensures Progressing(acts) <= 6 * |jobs| + 7 * processors
  {
    ExecutionIsRun(jobs, processors, run, acts);
    var place := RunInv(jobs, processors, run, |acts|);
    SomeRemaining(jobs, run[|acts|], place);
    StepsAndRemaining(jobs, processors, run, acts);
  }

  lemma SomeRemaining(jobs: seq<Job>, s: State, place: seq<Place>)
    requires Inv(jobs, s, place)
    ensures Remaining(jobs, s) >= 0
  {
  }

  lemma {:induction false} StepsAndRemaining(jobs: seq<Job>, processors: nat, run: seq<State>, acts: seq<Action>)
    requires Execution(jobs, processors, run, acts)
    ensures Progressing(acts) + Remaining(jobs, run[|acts|]) <= 6 * |jobs| + 7 * processors
    decreases |acts|
  {
    if acts == [] {
      NoWeight(processors);
    } else {
      var n := |acts| - 1;
      StepsAndRemaining(jobs, processors, run[..|acts|], acts[..n]);
      StepShrinks(jobs, run[n], acts[n]);
      hide Remaining;
    }
  }

  lemma ExecutionIsRun(jobs: seq<Job>, processors: nat, run: seq<State>, acts: seq<Action>)
    requires Execution(jobs, processors, run, acts)
    ensures Run(jobs, processors, run)
  {
  }

  lemma {:induction false} NoWeight(n: nat)
    ensures Sum(seq(n, _ => Waiting), Weight) == 0
  {
    if n > 0 {
      assert seq(n, _ => Waiting)[..n - 1] == seq(n - 1, _ => Waiting);
      NoWeight(n - 1);
    }
  }

  // ---- the end ------------------------------------------------------------------------------

  lemma {:induction false} AllGood(js: seq<Job>)
    ensures GoodCount(js) <= |js|
    ensures GoodCount(js) == |js| <==> forall k | 0 <= k < |js| :: Good(js[k])
  {
    if js != [] {
      AllGood(js[..|js| - 1]);
      assert forall k | 0 <= k < |js| - 1 :: js[..|js| - 1][k] == js[k];
    }
  }

  lemma {:induction false} DistinctIds(js: seq<Job>, n: nat)
    requires forall k | 0 <= k < |js| :: 0 <= js[k].id < n
    requires forall k, l | 0 <= k < l < |js| :: js[k].id != js[l].id
    ensures |js| <= n
    decreases n
  {
    if js != [] {
      assert 0 <= js[0].id < n;
      if k :| 0 <= k < |js| && js[k].id == n - 1 {
        DistinctIds(js[..k] + js[k + 1..], n - 1);
      } else {
        DistinctIds(js, n - 1);
      }
    }
  }

  /** Job `id` is among the collected outputs. */
  ghost predicate CameBack(s: State, id: int) {
    exists k :: 0 <= k < |s.collected| && s.collected[k].id == id
  }

  /** Exactly the dispatched jobs have come back, each once and with its own settings. */
  ghost predicate AllBackOnce(jobs: seq<Job>, s: State) {
    && (forall id | 0 <= id < |jobs| :: CameBack(s, id))
    && (forall k, l | 0 <= k < l < |s.collected| :: s.collected[k].id != s.collected[l].id)
    && (forall k | 0 <= k < |s.collected| ::
          var j := s.collected[k];
          0 <= j.id < |jobs| && j.isSkip == jobs[j.id].isSkip && (j.isBreak ==> s.threadExit))
  }

  /** Every worker has returned, each having consumed one stop job. */
  ghost predicate AllReturned(s: State, processors: nat) {
    |s.workers| == processors && s.input == [] && s.output == [] && forall w | 0 <= w < processors :: s.workers[w].Exited?
  }

  lemma NothingLeft(jobs: seq<Job>, s: State, place: seq<Place>)
    requires Inv(jobs, s, place) && Done(jobs, s) && |s.workers| > 0
    ensures |place| == |jobs| && s.input == [] && s.output == [] && Outputs(s) == s.collected
  {
    AllExited(s.workers);
    hide Sum;
    hide GoodCount;
    hide CountOf;
    DistinctIds(Outputs(s), |jobs|);
  }

  lemma BackOnce(jobs: seq<Job>, s: State, place: seq<Place>)
    requires OutputsOk(jobs, s, place) && PlacesOk(s, place) && Outputs(s) == s.collected
    requires |place| == |jobs| && (forall w | 0 <= w < |s.workers| :: s.workers[w].Exited?)
    ensures AllBackOnce(jobs, s)
  {
    hide Outputs;
    forall id | 0 <= id < |jobs| ensures CameBack(s, id) {
      assert place[id].Out? && s.collected[place[id].position].id == id;
    }
  }

  /** When the main thread is done, every dispatched job has come back exactly once, every worker has returned on its
      own stop job, both queues are empty, and the exit status is 0 iff every job was passed or skipped. */
  lemma AtTheEnd(jobs: seq<Job>, processors: nat, run: seq<State>)
    requires ValidJobs(jobs) && processors > 0 && Run(jobs, processors, run) && Done(jobs, run[|run| - 1])
    ensures AllBackOnce(jobs, run[|run| - 1]) && AllReturned(run[|run| - 1], processors)
    ensures ExitStatus(jobs, run[|run| - 1]) == 0 <==> forall j | j in run[|run| - 1].collected :: Good(j)
    ensures ExitStatus(jobs, run[|run| - 1]) in {0, 1}
  {
    var s := run[|run| - 1];
    var place := RunInv(jobs, processors, run, |run| - 1);
    hide Outputs;
    hide Queue;
    hide WorkersOk;
    hide OutputsOk;
    hide PlacesOk;
    hide AllBackOnce;
    hide Sum;
    hide GoodCount;
    hide CountOf;
    NothingLeft(jobs, s, place);
    BackOnce(jobs, s, place);
    AllGood(s.collected);
  }

  lemma {:induction false} AllExited(ws: seq<Worker>)
    requires forall w | 0 <= w < |ws| :: ws[w].Exited?
    ensures Sum(ws, StopsTaken) == |ws|
  {
    if ws != [] { AllExited(ws[..|ws| - 1]); }
  }
}
