/** Nothing that the steps of the test runner can do is ruled out: every outcome of every job comes about. */
module TestCourses {
  import opened TestRunner

  /** The actions lead from one state to another. */
  ghost predicate Leads(jobs: seq<Job>, s: State, acts: seq<Action>, t: State)
    decreases |acts|
  {
    if acts == [] then s == t
    else Enabled(jobs, s, acts[0]) && Leads(jobs, Do(jobs, s, acts[0]), acts[1..], t)
  }

  lemma First(jobs: seq<Job>, s: State, a: Action, acts: seq<Action>, t: State)
    requires Enabled(jobs, s, a) && Leads(jobs, Do(jobs, s, a), acts, t)
    ensures Leads(jobs, s, [a] + acts, t)
  {
    assert ([a] + acts)[1..] == acts;
  }

  lemma {:induction false} Then(jobs: seq<Job>, s: State, a: seq<Action>, t: State, b: seq<Action>, u: State)
    requires Leads(jobs, s, a, t) && Leads(jobs, t, b, u)
    ensures Leads(jobs, s, a + b, u)
    decreases |a|
  {
    if a == [] {
      assert a + b == b;
    } else {
      assert (a + b)[1..] == a[1..] + b;
      Then(jobs, Do(jobs, s, a[0]), a[1..], t, b, u);
    }
  }

  lemma {:induction false} IsExecution(jobs: seq<Job>, s: State, acts: seq<Action>, t: State) returns (run: seq<State>)
    requires Leads(jobs, s, acts, t)
    ensures |run| == |acts| + 1 && run[0] == s && run[|acts|] == t
    ensures forall i | 0 <= i < |acts| :: Enabled(jobs, run[i], acts[i]) && run[i + 1] == Do(jobs, run[i], acts[i])
    decreases |acts|
  {
    if acts == [] {
      run := [s];
    } else {
      var rest := IsExecution(jobs, Do(jobs, s, acts[0]), acts[1..], t);
      run := [s] + rest;
      forall i | 0 <= i < |acts| ensures Enabled(jobs, run[i], acts[i]) && run[i + 1] == Do(jobs, run[i], acts[i]) {
        if i > 0 { assert run[i] == rest[i - 1] && acts[i] == acts[1..][i - 1] && run[i + 1] == rest[i - 1 + 1]; }
      }
    }
  }

  function Stops(n: nat): seq<Job> { seq(n, _ => STOP) }

  // ---- one phase after the other -----------------------------------------------------------------

  lemma {:induction false} DispatchAll(jobs: seq<Job>, s: State) returns (acts: seq<Action>)
    requires s.dispatched <= |jobs| && s.input == jobs[..s.dispatched]
    ensures Leads(jobs, s, acts, s.(input := jobs, dispatched := |jobs|))
    decreases |jobs| - s.dispatched
  {
    if s.dispatched == |jobs| {
      acts := [];
      assert s.input == jobs;
    } else {
      var next := Do(jobs, s, Dispatch);
      assert next.input == jobs[..next.dispatched];
      var rest := DispatchAll(jobs, next);
      First(jobs, s, Dispatch, rest, s.(input := jobs, dispatched := |jobs|));
      acts := [Dispatch] + rest;
    }
  }

  lemma {:induction false} PutStops(jobs: seq<Job>, s: State) returns (acts: seq<Action>)
    requires s.dispatched == |jobs| && s.stops <= |s.workers| && s.input == jobs + Stops(s.stops)
    ensures Leads(jobs, s, acts, s.(input := jobs + Stops(|s.workers|), stops := |s.workers|))
    decreases |s.workers| - s.stops
  {
    if s.stops == |s.workers| {
      acts := [];
    } else {
      var next := Do(jobs, s, PutStop);
      assert next.input == jobs + Stops(next.stops);
      var rest := PutStops(jobs, next);
      First(jobs, s, PutStop, rest, s.(input := jobs + Stops(|s.workers|), stops := |s.workers|));
      acts := [PutStop] + rest;
    }
  }

  /** How a job comes back, with the flag up or down. */
  function Came(j: Job, flag: bool, rc: int): Job {
    if flag then j.(isBreak := true) else if j.isSkip then j else j.(returncode := rc)
  }

  /** A waiting worker takes the next job and brings it to its end. */
  lemma WorkOne(jobs: seq<Job>, s: State, rc: int) returns (acts: seq<Action>)
    requires |s.workers| > 0 && s.workers[0].Waiting? && s.input != [] && !s.input[0].isBreak
    ensures Leads(jobs, s, acts, s.(input := s.input[1..], output := s.output + [Came(s.input[0], s.threadExit, rc)]))
  {
    var t := s.(input := s.input[1..], output := s.output + [Came(s.input[0], s.threadExit, rc)]);
    var taken := Do(jobs, s, Take(0));
    var checked := Do(jobs, taken, Check(0));
    assert s.workers[0 := Waiting] == s.workers;
    if s.threadExit || s.input[0].isSkip {
      assert checked == t;
      acts := [];
    } else {
      var completed := Do(jobs, checked, Complete(0, rc));
      assert completed == t;
      acts := [Complete(0, rc)] + [];
      First(jobs, checked, Complete(0, rc), [], t);
    }
    First(jobs, taken, Check(0), acts, t);
    First(jobs, s, Take(0), [Check(0)] + acts, t);
    acts := [Take(0)] + ([Check(0)] + acts);
  }

  /** The next jobs of the input, all with the same flag. */
  lemma {:induction false} Work(jobs: seq<Job>, s: State, todo: seq<Job>, after: seq<Job>, codes: seq<int>) returns (acts: seq<Action>)
    requires |s.workers| > 0 && s.workers[0].Waiting? && s.input == todo + after && |codes| == |todo|
    requires forall j | j in todo :: !j.isBreak
    ensures Leads(jobs, s, acts, s.(input := after, output := s.output + AllCame(todo, s.threadExit, codes)))
    decreases |todo|
  {
    if todo == [] {
      acts := [];
      assert s.input == after && s.output + [] == s.output;
    } else {
      var one := WorkOne(jobs, s, codes[0]);
      var came := Came(todo[0], s.threadExit, codes[0]);
      var next := s.(input := s.input[1..], output := s.output + [came]);
      assert s.input[1..] == todo[1..] + after;
      var rest := Work(jobs, next, todo[1..], after, codes[1..]);
      var t := s.(input := after, output := s.output + AllCame(todo, s.threadExit, codes));
      assert AllCame(todo, s.threadExit, codes) == [came] + AllCame(todo[1..], s.threadExit, codes[1..]);
      assert next.output + AllCame(todo[1..], s.threadExit, codes[1..]) == t.output;
      Then(jobs, s, one, next, rest, t);
      acts := one + rest;
    }
  }

  function AllCame(todo: seq<Job>, flag: bool, codes: seq<int>): seq<Job>
    requires |codes| == |todo|
  {
    seq(|todo|, k requires 0 <= k < |todo| => Came(todo[k], flag, codes[k]))
  }

  function SomeExited(n: nat, w: nat): seq<Worker> { seq(n, k => if k < w then Exited else Waiting) }

  lemma {:induction false} ExitAll(jobs: seq<Job>, s: State, n: nat, w: nat) returns (acts: seq<Action>)
    requires w <= n && s.workers == SomeExited(n, w) && s.input == Stops(n - w)
    ensures Leads(jobs, s, acts, s.(input := [], workers := SomeExited(n, n)))
    decreases n - w
  {
    if w == n {
      acts := [];
    } else {
      var t := s.(input := [], workers := SomeExited(n, n));
      var taken := Do(jobs, s, Take(w));
      var gone := Do(jobs, taken, Check(w));
      assert gone.workers == SomeExited(n, w + 1) && gone.input == Stops(n - (w + 1));
      var rest := ExitAll(jobs, gone, n, w + 1);
      First(jobs, taken, Check(w), rest, t);
      First(jobs, s, Take(w), [Check(w)] + rest, t);
      acts := [Take(w)] + ([Check(w)] + rest);
    }
  }

  ghost predicate ReadyToCollect(jobs: seq<Job>, s: State) {
    && s.dispatched == |jobs| && s.stops == |s.workers| && s.input == [] && s.joined == 0
    && |s.collected| + |s.output| == |jobs| && s.workers == SomeExited(|s.workers|, |s.workers|)
  }

  lemma {:induction false} CollectAll(jobs: seq<Job>, s: State) returns (acts: seq<Action>, t: State)
    requires ReadyToCollect(jobs, s)
    ensures Leads(jobs, s, acts, t) && ReadyToCollect(jobs, t) && t.collected == s.collected + s.output && t.output == []
    decreases |s.output|
  {
    if s.output == [] {
      acts, t := [], s;
      assert s.collected + s.output == s.collected;
    } else {
      var next := Do(jobs, s, Collect);
      acts, t := CollectAll(jobs, next);
      assert next.collected + next.output == s.collected + s.output;
      First(jobs, s, Collect, acts, t);
      acts := [Collect] + acts;
    }
  }

  lemma {:induction false} JoinAll(jobs: seq<Job>, s: State) returns (acts: seq<Action>)
    requires s.dispatched == |jobs| && s.stops == |s.workers| && |s.collected| == |jobs| && s.joined <= |s.workers|
    requires s.workers == SomeExited(|s.workers|, |s.workers|)
    ensures Leads(jobs, s, acts, s.(joined := |s.workers|))
    decreases |s.workers| - s.joined
  {
    if s.joined == |s.workers| {
      acts := [];
    } else {
      var next := Do(jobs, s, JoinNext);
      var rest := JoinAll(jobs, next);
      First(jobs, s, JoinNext, rest, s.(joined := |s.workers|));
      acts := [JoinNext] + rest;
    }
  }

  // ---- the whole course ------------------------------------------------------------------------------

  lemma Prepare(jobs: seq<Job>, n: nat) returns (acts: seq<Action>, t: State)
    ensures Leads(jobs, Init(n), acts, t)
    ensures t == Init(n).(input := jobs + Stops(n), dispatched := |jobs|, stops := n)
  {
    var s := Init(n);
    assert jobs + Stops(0) == jobs;
    var a := DispatchAll(jobs, s);
    var ready := s.(input := jobs, dispatched := |jobs|);
    var b := PutStops(jobs, ready);
    t := s.(input := jobs + Stops(n), dispatched := |jobs|, stops := n);
    Then(jobs, s, a, ready, b, t);
    acts := a + b;
  }

  lemma Process(jobs: seq<Job>, n: nat, s: State, codes: seq<int>, m: nat) returns (acts: seq<Action>, t: State)
    requires n > 0 && m <= |jobs| == |codes| && (forall j | j in jobs :: !j.isBreak)
    requires s == Init(n).(input := jobs + Stops(n), dispatched := |jobs|, stops := n)
    ensures Leads(jobs, s, acts, t)
    ensures t == s.(input := Stops(n), threadExit := true,
                    output := AllCame(jobs[..m], false, codes[..m]) + AllCame(jobs[m..], true, codes[m..]))
  {
    assert s.input == jobs[..m] + (jobs[m..] + Stops(n));
    var a := Work(jobs, s, jobs[..m], jobs[m..] + Stops(n), codes[..m]);
    var before := AllCame(jobs[..m], false, codes[..m]);
    assert s.output + before == before;
    var half := s.(input := jobs[m..] + Stops(n), output := before);
    var up := half.(threadExit := true);
    var b := Work(jobs, up, jobs[m..], Stops(n), codes[m..]);
    t := up.(input := Stops(n), output := before + AllCame(jobs[m..], true, codes[m..]));
    First(jobs, half, Interrupt, b, t);
    Then(jobs, s, a, half, [Interrupt] + b, t);
    acts := a + ([Interrupt] + b);
  }

  lemma Finish(jobs: seq<Job>, n: nat, s: State) returns (acts: seq<Action>, t: State)
    requires s.dispatched == |jobs| && s.stops == |s.workers| == n && s.input == Stops(n) && s.joined == 0
    requires s.workers == SomeExited(n, 0) && s.collected == [] && |s.output| == |jobs|
    ensures Leads(jobs, s, acts, t) && Done(jobs, t) && t.collected == s.output
  {
    var a := ExitAll(jobs, s, n, 0);
    var left := s.(input := [], workers := SomeExited(n, n));
    var b, all := CollectAll(jobs, left);
    var c := JoinAll(jobs, all);
    t := all.(joined := |all.workers|);
    Then(jobs, left, b, all, c, t);
    Then(jobs, s, a, left, b + c, t);
    acts := a + (b + c);
  }

  /** The jobs that come back, one by one. */
  ghost predicate BackAs(jobs: seq<Job>, codes: seq<int>, m: nat, back: seq<Job>)
    requires |codes| == |jobs|
  {
    |back| == |jobs| && forall k | 0 <= k < |jobs| ::
      && back[k].id == k && (back[k].isBreak <==> k >= m) && back[k].isSkip == jobs[k].isSkip
      && (k < m && !jobs[k].isSkip ==> back[k].returncode == codes[k])
  }

  lemma CameAsSaid(jobs: seq<Job>, codes: seq<int>, m: nat)
    requires ValidJobs(jobs) && m <= |jobs| == |codes|
    ensures BackAs(jobs, codes, m, AllCame(jobs[..m], false, codes[..m]) + AllCame(jobs[m..], true, codes[m..]))
  {
    var before, after := AllCame(jobs[..m], false, codes[..m]), AllCame(jobs[m..], true, codes[m..]);
    forall k | 0 <= k < |jobs| ensures (before + after)[k] == Came(jobs[k], k >= m, codes[k]) {
    }
  }

  /** For every choice of return codes, and of the job before which an interrupt comes, there is an execution to the end in which
      exactly the jobs from this one on come back undone, and the others, if not skipped, with these codes. */
  lemma EveryCourse(jobs: seq<Job>, processors: nat, codes: seq<int>, m: nat) returns (run: seq<State>, acts: seq<Action>)
    requires ValidJobs(jobs) && processors > 0 && m <= |jobs| == |codes|
    ensures Execution(jobs, processors, run, acts) && Done(jobs, run[|acts|])
    ensures BackAs(jobs, codes, m, run[|acts|].collected)
  {
    var a, ready := Prepare(jobs, processors);
    var b, worked := Process(jobs, processors, ready, codes, m);
    assert worked.workers == SomeExited(processors, 0);
    var c, t := Finish(jobs, processors, worked);
    CameAsSaid(jobs, codes, m);
    hide *;
    Then(jobs, ready, b, worked, c, t);
    Then(jobs, Init(processors), a, ready, b + c, t);
    acts := a + (b + c);
    run := IsExecution(jobs, Init(processors), acts, t);
  }
}
