/** What the test runner reports about a job is what the steps of the execution did with it. */
module TestOutcomes {
  import opened TestRunner

  // ---- the steps that concern a job --------------------------------------------------------------

  /** In step `i` a worker looks at job `id`, which it has taken. */
  ghost predicate CheckOf(run: seq<State>, acts: seq<Action>, i: int, id: int) {
    && 0 <= i < |acts| && i < |run| && acts[i].Check? && acts[i].w < |run[i].workers|
    && run[i].workers[acts[i].w].Holding? && run[i].workers[acts[i].w].job.id == id
  }

  /** In step `i` the execution of job `id` ends. */
  ghost predicate CompleteOf(run: seq<State>, acts: seq<Action>, i: int, id: int) {
    && 0 <= i < |acts| && i < |run| && acts[i].Complete? && acts[i].w < |run[i].workers|
    && run[i].workers[acts[i].w].Running? && run[i].workers[acts[i].w].job.id == id
  }

  ghost predicate Interrupted(acts: seq<Action>, i: int) { exists m :: 0 <= m < i && m < |acts| && acts[m] == Interrupt }

  lemma {:induction false} FlagIsInterrupt(jobs: seq<Job>, processors: nat, run: seq<State>, acts: seq<Action>, i: nat)
    requires Execution(jobs, processors, run, acts) && i <= |acts|
    ensures run[i].threadExit <==> Interrupted(acts, i)
  {
    if i > 0 {
      FlagIsInterrupt(jobs, processors, run, acts, i - 1);
      assert Enabled(jobs, run[i - 1], acts[i - 1]) && run[i - 1 + 1] == Do(jobs, run[i - 1], acts[i - 1]);
      if Interrupted(acts, i - 1) {
        var m :| 0 <= m < i - 1 && m < |acts| && acts[m] == Interrupt;
        assert Interrupted(acts, i);
      }
    }
  }

  // ---- their record --------------------------------------------------------------------------------

  /** The step in which each job was looked at, and the one in which its execution ended. */
  datatype History = History(checks: map<int, nat>, runs: map<int, nat>)

  ghost predicate Real(j: Job) { !j.isBreak && !j.isSkip }

  ghost predicate Recorded(run: seq<State>, acts: seq<Action>, n: nat, h: History) {
    && (forall id | id in h.checks :: id != -1 && h.checks[id] < n && CheckOf(run, acts, h.checks[id], id))
    && (forall i, id | 0 <= i < n && id != -1 && CheckOf(run, acts, i, id) :: id in h.checks && h.checks[id] == i)
    && (forall id | id in h.runs :: id != -1 && h.runs[id] < n && CompleteOf(run, acts, h.runs[id], id))
    && (forall i, id | 0 <= i < n && id != -1 && CompleteOf(run, acts, i, id) :: id in h.runs && h.runs[id] == i)
  }

  /** What has come back says what these steps did. */
  ghost predicate Tells(run: seq<State>, acts: seq<Action>, h: History, j: Job) {
    && j.id in h.checks && h.checks[j.id] < |run| && (j.isBreak <==> run[h.checks[j.id]].threadExit)
    && (Real(j) <==> j.id in h.runs)
    && (Real(j) ==> h.runs[j.id] < |acts| && acts[h.runs[j.id]].Complete? && acts[h.runs[j.id]].rc == j.returncode)
  }

  ghost predicate WorkerFits(run: seq<State>, h: History, w: Worker) {
    && (w.Running? ==> w.job.id in h.checks && h.checks[w.job.id] < |run| && !run[h.checks[w.job.id]].threadExit
                       && w.job.id !in h.runs && Real(w.job))
    && (w.Holding? && !IsStop(w.job) ==> w.job.id !in h.checks && w.job.id !in h.runs)
  }

  /** How many jobs have been taken from the input queue. */
  ghost function Taken(s: State): int { s.dispatched - |s.input| + s.stops - Sum(s.workers, StopsTaken) }

  ghost predicate Fits(run: seq<State>, acts: seq<Action>, h: History, s: State) {
    && (forall k | 0 <= k < |Outputs(s)| :: Tells(run, acts, h, Outputs(s)[k]))
    && (forall w | 0 <= w < |s.workers| :: WorkerFits(run, h, s.workers[w]))
    && (forall id | id in h.checks :: id < Taken(s))
    && (forall id | id in h.runs :: id < Taken(s))
  }

  lemma TakenIsPlaces(jobs: seq<Job>, s: State, place: seq<Place>)
    requires Inv(jobs, s, place)
    ensures Taken(s) == |place|
  {
  }

  lemma TakenGrows(jobs: seq<Job>, s: State, a: Action)
    requires Enabled(jobs, s, a)
    requires a.Take? ==> s.workers[a.w].Waiting?
    ensures var s' := Do(jobs, s, a);
            Taken(s') == Taken(s) + if a.Take? && !IsStop(s.input[0]) then 1 else 0
    requires a.Check? && s.workers[a.w].Holding? ==> (s.workers[a.w].job.isBreak <==> IsStop(s.workers[a.w].job))
    requires a.Complete? ==> !IsStop(s.workers[a.w].job)
  {
    var s' := Do(jobs, s, a);
    match a
    case Take(w) => SumUpdate(s.workers, StopsTaken, w, s'.workers[w]);
    case Check(w) => SumUpdate(s.workers, StopsTaken, w, s'.workers[w]);
    case Complete(w, rc) => SumUpdate(s.workers, StopsTaken, w, s'.workers[w]);
    case _ =>
  }

  // ---- one step ----------------------------------------------------------------------------------

  /** The record with step `n`. */
  ghost function Extend(run: seq<State>, acts: seq<Action>, n: nat, h: History): History
    requires n < |acts| && n < |run|
  {
    match acts[n]
    case Check(w) =>
      if w < |run[n].workers| && run[n].workers[w].Holding? && !IsStop(run[n].workers[w].job)
      then h.(checks := h.checks[run[n].workers[w].job.id := n]) else h
    case Complete(w, _) =>
      if w < |run[n].workers| && run[n].workers[w].Running? && !IsStop(run[n].workers[w].job)
      then h.(runs := h.runs[run[n].workers[w].job.id := n]) else h
    case _ => h
  }

  lemma RecordStep(run: seq<State>, acts: seq<Action>, n: nat, h: History)
    requires n < |acts| && n < |run| && Recorded(run, acts, n, h)
    requires forall w | 0 <= w < |run[n].workers| :: WorkerFits(run, h, run[n].workers[w])
    ensures Recorded(run, acts, n + 1, Extend(run, acts, n, h))
  {
    var h' := Extend(run, acts, n, h);
    if acts[n].Check? && acts[n].w < |run[n].workers| { assert WorkerFits(run, h, run[n].workers[acts[n].w]); }
    if acts[n].Complete? && acts[n].w < |run[n].workers| { assert WorkerFits(run, h, run[n].workers[acts[n].w]); }
    forall i, id | 0 <= i < n + 1 && id != -1 && CheckOf(run, acts, i, id) ensures id in h'.checks && h'.checks[id] == i {
      if i < n { assert id in h.checks && h.checks[id] == i; }
    }
    forall i, id | 0 <= i < n + 1 && id != -1 && CompleteOf(run, acts, i, id) ensures id in h'.runs && h'.runs[id] == i {
      if i < n { assert id in h.runs && h.runs[id] == i; }
    }
  }

  /** A job in hand is neither among the outputs nor with another worker. */
  lemma OnlyHere(jobs: seq<Job>, s: State, place: seq<Place>, w: nat)
    requires Inv(jobs, s, place) && w < |s.workers| && Busy(s.workers[w])
    ensures forall k | 0 <= k < |Outputs(s)| :: Outputs(s)[k].id != s.workers[w].job.id
    ensures forall v | 0 <= v < |s.workers| && v != w && Busy(s.workers[v]) :: s.workers[v].job.id != s.workers[w].job.id
  {
    hide Queue;
    hide MainOk;
    hide Outputs;
  }

  /** Steps that end or change nothing about a job keep what is known. */
  lemma Unmoved(run: seq<State>, acts: seq<Action>, h: History, s: State, s': State)
    requires Fits(run, acts, h, s) && Outputs(s') == Outputs(s) && Taken(s') >= Taken(s)
    requires forall w | 0 <= w < |s'.workers| :: WorkerFits(run, h, s'.workers[w])
    ensures Fits(run, acts, h, s')
  {
  }

  lemma CheckFits(jobs: seq<Job>, run: seq<State>, acts: seq<Action>, n: nat, h: History, place: seq<Place>)
    requires ValidJobs(jobs) && n < |acts| && |run| == |acts| + 1 && Inv(jobs, run[n], place) && Fits(run, acts, h, run[n])
    requires acts[n].Check? && Enabled(jobs, run[n], acts[n]) && run[n + 1] == Do(jobs, run[n], acts[n])
    requires Busy(run[n].workers[acts[n].w]) && Taken(run[n + 1]) >= Taken(run[n]) > run[n].workers[acts[n].w].job.id
    ensures Fits(run, acts, Extend(run, acts, n, h), run[n + 1])
  {
    var s, s', w := run[n], run[n + 1], acts[n].w;
    var j, h' := s.workers[w].job, Extend(run, acts, n, h);
    OnlyHere(jobs, s, place, w);
    assert WorkerFits(run, h, s.workers[w]);
    hide Inv;
    hide Taken;
    forall k | 0 <= k < |Outputs(s')| ensures Tells(run, acts, h', Outputs(s')[k]) {
      if k < |Outputs(s)| { assert Outputs(s')[k] == Outputs(s)[k]; }
    }
    forall v | 0 <= v < |s'.workers| ensures WorkerFits(run, h', s'.workers[v]) {
      assert WorkerFits(run, h, s.workers[v]);
    }
  }

  lemma CompleteFits(jobs: seq<Job>, run: seq<State>, acts: seq<Action>, n: nat, h: History, place: seq<Place>)
    requires ValidJobs(jobs) && n < |acts| && |run| == |acts| + 1 && Inv(jobs, run[n], place) && Fits(run, acts, h, run[n])
    requires acts[n].Complete? && Enabled(jobs, run[n], acts[n]) && run[n + 1] == Do(jobs, run[n], acts[n])
    requires Busy(run[n].workers[acts[n].w]) && Taken(run[n + 1]) >= Taken(run[n]) > run[n].workers[acts[n].w].job.id
    ensures Fits(run, acts, Extend(run, acts, n, h), run[n + 1])
  {
    var s, s', w := run[n], run[n + 1], acts[n].w;
    var j, h' := s.workers[w].job, Extend(run, acts, n, h);
    OnlyHere(jobs, s, place, w);
    assert WorkerFits(run, h, s.workers[w]);
    hide Inv;
    hide Taken;
    forall k | 0 <= k < |Outputs(s')| ensures Tells(run, acts, h', Outputs(s')[k]) {
      if k < |Outputs(s)| { assert Outputs(s')[k] == Outputs(s)[k]; }
    }
    forall v | 0 <= v < |s'.workers| ensures WorkerFits(run, h', s'.workers[v]) {
      assert WorkerFits(run, h, s.workers[v]);
    }
  }

  lemma TakeFits(jobs: seq<Job>, run: seq<State>, acts: seq<Action>, n: nat, h: History, place: seq<Place>)
    requires ValidJobs(jobs) && n < |acts| && |run| == |acts| + 1 && Inv(jobs, run[n], place) && Fits(run, acts, h, run[n])
    requires acts[n].Take? && Enabled(jobs, run[n], acts[n]) && run[n + 1] == Do(jobs, run[n], acts[n])
    requires Taken(run[n + 1]) >= Taken(run[n]) == |place|
    ensures Fits(run, acts, h, run[n + 1])
  {
    var s, s', w := run[n], run[n + 1], acts[n].w;
    assert IsStop(s.input[0]) || s.input[0].id == |place| by { NextTaken(jobs, s, place); }
    hide Inv;
    hide Taken;
    forall v | 0 <= v < |s'.workers| ensures WorkerFits(run, h, s'.workers[v]) {
      assert WorkerFits(run, h, s.workers[v]);
    }
    Unmoved(run, acts, h, s, s');
  }

  lemma NextTaken(jobs: seq<Job>, s: State, place: seq<Place>)
    requires ValidJobs(jobs) && Inv(jobs, s, place) && s.input != []
    ensures IsStop(s.input[0]) || s.input[0].id == |place|
  {
  }

  /** A stop job: the worker returns. */
  lemma StopFits(jobs: seq<Job>, run: seq<State>, acts: seq<Action>, n: nat, h: History)
    requires n < |acts| && |run| == |acts| + 1 && Fits(run, acts, h, run[n])
    requires acts[n].Check? && Enabled(jobs, run[n], acts[n]) && run[n + 1] == Do(jobs, run[n], acts[n])
    requires run[n].workers[acts[n].w].job == STOP && Taken(run[n + 1]) >= Taken(run[n])
    ensures Fits(run, acts, h, run[n + 1])
  {
    var s, s' := run[n], run[n + 1];
    hide Taken;
    forall v | 0 <= v < |s'.workers| ensures WorkerFits(run, h, s'.workers[v]) {
      assert WorkerFits(run, h, s.workers[v]);
    }
    Unmoved(run, acts, h, s, s');
  }

  lemma MainFits(jobs: seq<Job>, run: seq<State>, acts: seq<Action>, n: nat, h: History)
    requires n < |acts| && |run| == |acts| + 1 && Fits(run, acts, h, run[n])
    requires !acts[n].Check? && !acts[n].Complete? && !acts[n].Take?
    requires Enabled(jobs, run[n], acts[n]) && run[n + 1] == Do(jobs, run[n], acts[n]) && Taken(run[n + 1]) >= Taken(run[n])
    ensures Fits(run, acts, h, run[n + 1])
  {
    var s, s' := run[n], run[n + 1];
    hide Taken;
    assert Outputs(s') == Outputs(s) && s'.workers == s.workers;
    Unmoved(run, acts, h, s, s');
  }

  /** A job in a worker's hands is a stop job or one that has been taken. */
  lemma InHand(jobs: seq<Job>, s: State, place: seq<Place>, w: nat)
    requires ValidJobs(jobs) && Inv(jobs, s, place) && w < |s.workers| && (s.workers[w].Holding? || s.workers[w].Running?)
    ensures s.workers[w].Holding? && IsStop(s.workers[w].job) ==> s.workers[w].job == STOP
    ensures s.workers[w].Running? ==> !IsStop(s.workers[w].job)
    ensures !IsStop(s.workers[w].job) ==> Busy(s.workers[w]) && !s.workers[w].job.isBreak && s.workers[w].job.id < |place|
  {
    hide Queue;
    hide MainOk;
    hide PlacesOk;
  }

  lemma HistoryStep(jobs: seq<Job>, run: seq<State>, acts: seq<Action>, n: nat, h: History, place: seq<Place>)
    requires ValidJobs(jobs) && n < |acts| && |run| == |acts| + 1 && Inv(jobs, run[n], place)
    requires Enabled(jobs, run[n], acts[n]) && run[n + 1] == Do(jobs, run[n], acts[n])
    requires Recorded(run, acts, n, h) && Fits(run, acts, h, run[n])
    ensures Recorded(run, acts, n + 1, Extend(run, acts, n, h)) && Fits(run, acts, Extend(run, acts, n, h), run[n + 1])
  {
    var s, a := run[n], acts[n];
    TakenIsPlaces(jobs, s, place);
    RecordStep(run, acts, n, h);
    if a.Check? || a.Complete? { InHand(jobs, s, place, a.w); }
    TakenGrows(jobs, s, a);
    hide Inv;
    hide Taken;
    hide Fits;
    hide Do;
    hide Recorded;
    match a {
      case Check(w) =>
        if IsStop(s.workers[w].job) { StopFits(jobs, run, acts, n, h); } else { CheckFits(jobs, run, acts, n, h, place); }
      case Complete(w, rc) => CompleteFits(jobs, run, acts, n, h, place);
      case Take(w) => TakeFits(jobs, run, acts, n, h, place);
      case _ => MainFits(jobs, run, acts, n, h);
    }
  }

  lemma {:induction false} HistoryOf(jobs: seq<Job>, processors: nat, run: seq<State>, acts: seq<Action>, n: nat) returns (h: History)
    requires ValidJobs(jobs) && Execution(jobs, processors, run, acts) && n <= |acts|
    ensures Recorded(run, acts, n, h) && Fits(run, acts, h, run[n])
  {
    if n == 0 {
      h := History(map[], map[]);
    } else {
      var before := HistoryOf(jobs, processors, run, acts, n - 1);
      ExecutionIsRun(jobs, processors, run, acts);
      var place := RunInv(jobs, processors, run, n - 1);
      assert Enabled(jobs, run[n - 1], acts[n - 1]) && run[n - 1 + 1] == Do(jobs, run[n - 1], acts[n - 1]);
      HistoryStep(jobs, run, acts, n - 1, before, place);
      h := Extend(run, acts, n - 1, before);
    }
  }

  // ---- what comes back is what was done ------------------------------------------------------------

  /** The job was looked at in one step, and is a break iff an interrupt came before that; it was executed iff it is
      neither a break nor to be skipped, and then has the code that its execution gave. */
  ghost predicate Genuine(run: seq<State>, acts: seq<Action>, j: Job) {
    && (exists i :: CheckOf(run, acts, i, j.id) && (j.isBreak <==> Interrupted(acts, i)))
    && (Real(j) <==> exists i :: CompleteOf(run, acts, i, j.id))
    && (Real(j) ==> exists i :: CompleteOf(run, acts, i, j.id) && acts[i].rc == j.returncode)
  }

  /** Every job that has come back is genuine, and no job is looked at or executed twice. */
  lemma OutcomesGenuine(jobs: seq<Job>, processors: nat, run: seq<State>, acts: seq<Action>)
    requires ValidJobs(jobs) && Execution(jobs, processors, run, acts)
    ensures forall k | 0 <= k < |run[|acts|].collected| :: Genuine(run, acts, run[|acts|].collected[k])
    ensures forall i, i', id | id != -1 && CheckOf(run, acts, i, id) && CheckOf(run, acts, i', id) :: i == i'
    ensures forall i, i', id | id != -1 && CompleteOf(run, acts, i, id) && CompleteOf(run, acts, i', id) :: i == i'
  {
    var n := |acts|;
    var h := HistoryOf(jobs, processors, run, acts, n);
    forall k | 0 <= k < |run[n].collected| ensures Genuine(run, acts, run[n].collected[k]) {
      var j := run[n].collected[k];
      assert Outputs(run[n])[k] == j;
      assert Tells(run, acts, h, j);
      assert CheckOf(run, acts, h.checks[j.id], j.id);
      FlagIsInterrupt(jobs, processors, run, acts, h.checks[j.id]);
      if j.id in h.runs { assert CompleteOf(run, acts, h.runs[j.id], j.id); }
    }
  }

  /** What the steps did with job `id`. */
  ghost predicate Gave(jobs: seq<Job>, run: seq<State>, acts: seq<Action>, id: int, o: Outcome)
    requires 0 <= id < |jobs|
  {
    match o
    case Undone => exists i :: CheckOf(run, acts, i, id) && Interrupted(acts, i)
    case Skipped => jobs[id].isSkip && exists i :: CheckOf(run, acts, i, id) && !Interrupted(acts, i)
    case Passed => Returned(run, acts, id, 0)
    case Failed => Returned(run, acts, id, 1)
    case Valgrind => Returned(run, acts, id, 2)
    case Crashed => exists rc :: rc != 0 && rc != 1 && rc != 2 && Returned(run, acts, id, rc)
  }

  ghost predicate Returned(run: seq<State>, acts: seq<Action>, id: int, rc: int) {
    exists i :: CompleteOf(run, acts, i, id) && acts[i].rc == rc
  }

  ghost predicate Once(run: seq<State>, acts: seq<Action>, id: int) {
    && (forall i, i' | CheckOf(run, acts, i, id) && CheckOf(run, acts, i', id) :: i == i')
    && (forall i, i' | CompleteOf(run, acts, i, id) && CompleteOf(run, acts, i', id) :: i == i')
  }

  lemma OutcomeIff(jobs: seq<Job>, run: seq<State>, acts: seq<Action>, j: Job, o: Outcome)
    requires 0 <= j.id < |jobs| && j.isSkip == jobs[j.id].isSkip && Genuine(run, acts, j) && Once(run, acts, j.id)
    ensures HasOutcome(j, o) <==> Gave(jobs, run, acts, j.id, o)
  {
    hide CheckOf;
    hide Interrupted;
    var i :| CheckOf(run, acts, i, j.id) && (j.isBreak <==> Interrupted(acts, i));
    if Real(j) {
      var c :| CompleteOf(run, acts, c, j.id) && acts[c].rc == j.returncode;
      assert Returned(run, acts, j.id, j.returncode);
      assert forall rc :: Returned(run, acts, j.id, rc) ==> rc == j.returncode;
    } else {
      assert forall rc :: !Returned(run, acts, j.id, rc);
    }
    hide CompleteOf;
  }

  ghost predicate HasAt(js: seq<Job>, o: Outcome, id: int) {
    exists k :: 0 <= k < |js| && js[k].id == id && HasOutcome(js[k], o)
  }

  lemma HasAtLast(js: seq<Job>, o: Outcome, id: int)
    requires js != [] && forall k, l | 0 <= k < l < |js| :: js[k].id != js[l].id
    ensures var n := |js| - 1;
            && (HasAt(js, o, id) <==> HasAt(js[..n], o, id) || (js[n].id == id && HasOutcome(js[n], o)))
            && !HasAt(js[..n], o, js[n].id)
  {
    var n := |js| - 1;
    if k :| 0 <= k < n && js[..n][k].id == id && HasOutcome(js[..n][k], o) { assert js[k].id == id && HasOutcome(js[k], o); }
    if k :| 0 <= k < |js| && js[k].id == id && HasOutcome(js[k], o) { assert k < n ==> js[..n][k] == js[k]; }
  }

  /** Among jobs with different numbers as many have an outcome as there are such numbers. */
  lemma {:induction false} CountIsSize(js: seq<Job>, o: Outcome, ids: set<int>)
    requires forall k, l | 0 <= k < l < |js| :: js[k].id != js[l].id
    requires forall id :: id in ids <==> HasAt(js, o, id)
    ensures CountOf(js, o) == |ids|
  {
    if js == [] {
      NoneAt(o, ids);
    } else {
      var n := |js| - 1;
      forall id { HasAtLast(js, o, id); }
      hide HasOutcome;
      hide HasAt;
      CountIsSize(js[..n], o, if HasOutcome(js[n], o) then ids - {js[n].id} else ids);
    }
  }

  lemma NoneAt(o: Outcome, ids: set<int>)
    requires forall id :: id in ids <==> HasAt([], o, id)
    ensures |ids| == 0
  {
    forall id ensures id !in ids { assert !HasAt([], o, id); }
    NoMembers(ids);
  }

  lemma NoMembers<T>(s: set<T>)
    requires forall x :: x !in s
    ensures |s| == 0
  {
    assert s == {};
  }

  /** The jobs with an outcome. */
  ghost function JobsWith(jobs: seq<Job>, run: seq<State>, acts: seq<Action>, o: Outcome): set<int> {
    set id | 0 <= id < |jobs| && Gave(jobs, run, acts, id, o)
  }

  lemma CollectedCount(jobs: seq<Job>, run: seq<State>, acts: seq<Action>, s: State, o: Outcome)
    requires AllBackOnce(jobs, s) && (forall k | 0 <= k < |s.collected| :: Genuine(run, acts, s.collected[k]))
    requires forall id | 0 <= id < |jobs| :: Once(run, acts, id)
    ensures CountOf(s.collected, o) == |JobsWith(jobs, run, acts, o)|
  {
    hide Once;
    hide Genuine;
    forall k | 0 <= k < |s.collected| ensures HasOutcome(s.collected[k], o) <==> Gave(jobs, run, acts, s.collected[k].id, o) {
      OutcomeIff(jobs, run, acts, s.collected[k], o);
    }
    hide HasOutcome;
    hide Gave;
    var ids := JobsWith(jobs, run, acts, o);
    forall id ensures id in ids <==> HasAt(s.collected, o, id) {
      if id in ids {
        assert CameBack(s, id);
        var k :| 0 <= k < |s.collected| && s.collected[k].id == id;
        assert HasOutcome(s.collected[k], o);
      }
    }
    CountIsSize(s.collected, o, ids);
  }

  /** At the end every counter says how many jobs the steps gave its outcome, and the exit status is 0 iff every job was
      executed with code 0, or skipped with no interrupt before. */
  lemma Verdict(jobs: seq<Job>, processors: nat, run: seq<State>, acts: seq<Action>)
    requires ValidJobs(jobs) && processors > 0 && Execution(jobs, processors, run, acts) && Done(jobs, run[|acts|])
    ensures var s := run[|acts|];
            && s.passed == |JobsWith(jobs, run, acts, Passed)| && s.skipped == |JobsWith(jobs, run, acts, Skipped)|
            && s.failed == |JobsWith(jobs, run, acts, Failed)| && s.valgrind == |JobsWith(jobs, run, acts, Valgrind)|
            && s.crashed == |JobsWith(jobs, run, acts, Crashed)|
    ensures ExitStatus(jobs, run[|acts|]) in {0, 1}
    ensures ExitStatus(jobs, run[|acts|]) == 0 <==>
              forall id | 0 <= id < |jobs| :: Gave(jobs, run, acts, id, Passed) || Gave(jobs, run, acts, id, Skipped)
  {
    var s := run[|acts|];
    ExecutionIsRun(jobs, processors, run, acts);
    AtTheEnd(jobs, processors, run);
    OutcomesGenuine(jobs, processors, run, acts);
    var place := RunInv(jobs, processors, run, |acts|);
    assert Counted(s);
    assert forall id | 0 <= id < |jobs| :: Once(run, acts, id);
    hide *;
    forall o { CollectedCount(jobs, run, acts, s, o); }
    GoodIff(jobs, run, acts, s);
    CountedIs(s);
  }

  lemma CountedIs(s: State)
    requires Counted(s)
    ensures s.passed == CountOf(s.collected, Passed) && s.skipped == CountOf(s.collected, Skipped)
    ensures s.failed == CountOf(s.collected, Failed) && s.valgrind == CountOf(s.collected, Valgrind)
    ensures s.crashed == CountOf(s.collected, Crashed)
  {
  }

  lemma GoodIff(jobs: seq<Job>, run: seq<State>, acts: seq<Action>, s: State)
    requires AllBackOnce(jobs, s) && (forall k | 0 <= k < |s.collected| :: Genuine(run, acts, s.collected[k]))
    requires forall id | 0 <= id < |jobs| :: Once(run, acts, id)
    ensures (forall j | j in s.collected :: Good(j)) <==>
              forall id | 0 <= id < |jobs| :: Gave(jobs, run, acts, id, Passed) || Gave(jobs, run, acts, id, Skipped)
  {
    hide Once;
    hide Genuine;
    forall k | 0 <= k < |s.collected|
      ensures Good(s.collected[k]) <==>
                Gave(jobs, run, acts, s.collected[k].id, Passed) || Gave(jobs, run, acts, s.collected[k].id, Skipped)
    {
      OutcomeIff(jobs, run, acts, s.collected[k], Passed);
      OutcomeIff(jobs, run, acts, s.collected[k], Skipped);
    }
    hide Good;
    hide Gave;
    if forall j | j in s.collected :: Good(j) {
      forall id | 0 <= id < |jobs| ensures Gave(jobs, run, acts, id, Passed) || Gave(jobs, run, acts, id, Skipped) {
        assert CameBack(s, id);
        var k :| 0 <= k < |s.collected| && s.collected[k].id == id;
        assert s.collected[k] in s.collected;
      }
    }
    if forall id | 0 <= id < |jobs| :: Gave(jobs, run, acts, id, Passed) || Gave(jobs, run, acts, id, Skipped) {
      forall j | j in s.collected ensures Good(j) {
        var k :| 0 <= k < |s.collected| && s.collected[k] == j;
        assert Good(s.collected[k]);
      }
    }
  }
}
