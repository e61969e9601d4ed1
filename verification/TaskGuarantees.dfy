/** What every interleaving of vSynchronize and its workers guarantees.  Each statement is about
    the state reached by an arbitrary legal sequence of steps. */
module TaskGuarantees {
  import opened Wrappers
  import Sequences
  import opened TaskProtocol

  /** s is reached by some interleaving of a valid call. */
  ghost predicate Reachable(c: Call, s: State) {
    ValidCall(c) && exists steps :: Exec(c, steps) == Some(s)
  }

  lemma ReachableInv(c: Call, s: State)
    requires Reachable(c, s)
    ensures Inv(c, s)
  {
    var steps :| Exec(c, steps) == Some(s);
    RunInv(c, steps);
  }

  /** Tokens are neither lost nor duplicated: each is free, or held by the main thread, or owned
      by one worker; and never do more tasks run than the degree allows. */
  lemma TokensConserved(c: Call, s: State)
    requires Reachable(c, s)
    ensures |s.pool| + |s.workers| + |Held(s.main)| == c.degree
    ensures Sequences.NoDup(s.pool) && s.workers.Keys !! Held(s.main)
    ensures forall k <- s.pool :: k !in s.workers && k !in Held(s.main)
    ensures forall k :: 0 <= k < c.degree ==> k in s.pool || k in s.workers.Keys + Held(s.main)
    ensures forall i :: 0 <= i <= |s.log| ==> InFlight(s.log[..i]) <= c.degree
  {
    ReachableInv(c, s);
    NoneMissing(c.degree, s.pool, s.workers.Keys, Held(s.main));
  }

  lemma PoolFits(c: Call, steps: seq<Step>)
    requires ValidCall(c) && Exec(c, steps).Some?
    ensures |Exec(c, steps).value.pool| <= Exec(c, steps).value.degree
  {
    RunInv(c, steps);
  }

  lemma NoneMissing(degree: nat, pool: seq<Token>, busy: set<Token>, held: set<Token>)
    requires TokenTable(degree, pool, busy, held)
    ensures forall k :: 0 <= k < degree ==> k in pool || k in busy + held
  {
    forall k | 0 <= k < degree ensures k in pool || k in busy + held {
      DistinctSize(pool);
      Pigeonhole((set l <- pool) + (busy + held), degree, k);
    }
  }

  lemma DistinctSize<T>(xs: seq<T>)
    requires Sequences.NoDup(xs)
    ensures |(set x <- xs)| == |xs|
  {
    if xs != [] {
      var init, x := xs[..|xs| - 1], xs[|xs| - 1];
      DistinctSize(init);
      assert (set y <- xs) == (set y <- init) + {x};
    }
  }

  /** n distinct numbers below n leave none out. */
  lemma Pigeonhole(s: set<nat>, n: nat, k: nat)
    requires |s| == n && k < n && forall i <- s :: i < n
    ensures k in s
  {
    if k !in s {
      BelowSize(s + {k}, n);
    }
  }

  lemma BelowSize(s: set<nat>, n: nat)
    requires forall i <- s :: i < n
    ensures |s| <= n
  {
    if s != {} {
      assert n > 0;
      BelowSize(s - {n - 1}, n - 1);
      assert s <= s - {n - 1} + {n - 1};
      SubsetSize(s, s - {n - 1} + {n - 1});
    }
  }

  /** Tasks start in queue order and at most once, and none is both queued and started. */
  lemma StartOrder(c: Call, s: State)
    requires Reachable(c, s)
    ensures c.tasks == StartedTasks(s.log) + s.queue
    ensures Sequences.NoDup(StartedTasks(s.log))
    ensures forall t <- s.queue :: t !in StartedTasks(s.log)
  {
    ReachableInv(c, s);
    Disjoint(c.tasks, StartedTasks(s.log), s.queue);
  }

  lemma Disjoint(tasks: seq<Task>, started: seq<Task>, queue: seq<Task>)
    requires Sequences.NoDup(tasks) && tasks == started + queue
    ensures forall t <- queue :: t !in started
  {
    forall i, j | 0 <= i < |started| && 0 <= j < |queue| ensures started[i] != queue[j] {
      assert tasks[i] == started[i] && tasks[|started| + j] == queue[j];
    }
  }

  /** When vSynchronize is left every token is back, and exactly the started tasks have ended,
      each once; unless the run was cancelled those are all the tasks. */
  lemma Completion(c: Call, s: State)
    requires Reachable(c, s) && s.main.Finished?
    ensures |s.pool| == c.degree && s.workers == map[]
    ensures multiset(EndedTasks(s.log)) == multiset(StartedTasks(s.log))
    ensures Sequences.NoDup(EndedTasks(s.log))
    ensures s.cont ==> s.queue == [] && multiset(EndedTasks(s.log)) == multiset(c.tasks)
  {
    ReachableInv(c, s);
    var started, ended := StartedTasks(s.log), EndedTasks(s.log);
    assert |s.workers| == 0;
    assert forall t <- started :: t in ended;
    SameElements(started, ended);
  }

  lemma SameElements<T>(xs: seq<T>, ys: seq<T>)
    requires Sequences.NoDup(xs) && Sequences.NoDup(ys)
    requires forall x :: x in xs <==> x in ys
    ensures multiset(xs) == multiset(ys)
  {
    forall x ensures multiset(xs)[x] == multiset(ys)[x] {
      Occurrences(xs, x);
      Occurrences(ys, x);
    }
  }

  lemma SameTasks(xs: seq<Task>, ys: seq<Task>)
    requires multiset(xs) == multiset(ys)
    ensures |xs| == |ys| && forall t :: t in xs <==> t in ys
  {
    assert |multiset(xs)| == |xs| && |multiset(ys)| == |ys|;
    assert forall t :: t in multiset(xs) <==> t in xs;
    assert forall t :: t in multiset(ys) <==> t in ys;
  }

  lemma Occurrences<T>(xs: seq<T>, x: T)
    requires Sequences.NoDup(xs)
    ensures multiset(xs)[x] == if x in xs then 1 else 0
  {
    if xs != [] {
      var init := xs[..|xs| - 1];
      assert xs == init + [xs[|xs| - 1]];
      Occurrences(init, x);
    }
  }

  /** Behind a recorded exception or a break at most one further task starts, and none at all if the
      call found the flag down. */
  lemma StopsSoon(c: Call, s: State)
    requires Reachable(c, s)
    ensures forall p :: 0 <= p < |s.log| && (s.log[p].Recorded? || s.log[p].Broken?) ==> |StartedTasks(s.log[p..])| <= 1
    ensures !c.cont ==> StartedTasks(s.log) == []
    ensures (Broken in s.log ==> !s.cont) && (s.cont ==> c.cont)
  {
    ReachableInv(c, s);
    forall p | 0 <= p < |s.log| && (s.log[p].Recorded? || s.log[p].Broken?) ensures |StartedTasks(s.log[p..])| <= 1 {
      LateStartsFrom(s.log, p);
    }
  }

  lemma LateStartsFrom(log: seq<Event>, p: nat)
    requires p < |log| && (log[p].Recorded? || log[p].Broken?)
    ensures |StartedTasks(log[p..])| <= LateStarts(log)
  {
    var init, e := log[..|log| - 1], log[|log| - 1];
    if p == |log| - 1 {
      assert log[p..] == [] + [e];
      TasksSnoc([], e);
    } else {
      assert init[p] == log[p];
      LateStartsFrom(init, p);
      assert log[p..] == init[p..] + [e];
      TasksSnoc(init[p..], e);
    }
  }

  /** ep keeps the earliest recorded exception. */
  lemma EpIsFirst(c: Call, s: State)
    requires Reachable(c, s)
    ensures s.ep == FirstRecorded(s.log)
  {
    ReachableInv(c, s);
  }

  /** Whatever comes later: ep once written stays, the cancel flag once down stays down, and the
      log only grows. */
  lemma {:induction false} Irrevocable(c: Call, steps: seq<Step>, more: seq<Step>)
    requires Exec(c, steps + more).Some?
    ensures Exec(c, steps).Some? && Outlasts(Exec(c, steps).value, Exec(c, steps + more).value)
    decreases |more|
  {
    if more == [] {
      assert steps + more == steps;
    } else {
      var all, init := steps + more, more[..|more| - 1];
      assert all[..|all| - 1] == steps + init;
      Irrevocable(c, steps, init);
      StepOutlasts(Exec(c, steps + init).value, all[|all| - 1]);
    }
  }

  predicate Outlasts(s: State, s': State) {
    && s.log <= s'.log
    && (s.ep.Some? ==> s'.ep == s.ep)
    && (!s.cont ==> !s'.cont)
  }

  lemma StepOutlasts(s: State, a: Step)
    requires Enabled(s, a)
    ensures Outlasts(s, Apply(s, a))
  {
  }

  /** The call throws exactly when an exception was recorded before the main thread looked behind
      its loop, and then it throws the first one recorded. */
  lemma ThrowsIff(c: Call, s: State)
    requires Reachable(c, s) && s.main.Finished?
    ensures s.main.thrown.Some? <==> exists e <- BeforeTested(s.log) :: e.Recorded?
    ensures s.main.thrown.Some? ==> s.main.thrown == s.ep
  {
    ReachableInv(c, s);
    var before := BeforeTested(s.log);
    FirstRecordedIff(before);
    BeforeTestedPrefix(s.log);
    if FirstRecorded(before).Some? {
      FirstOfPrefix(before, s.log);
    }
  }

  lemma FirstRecordedIff(log: seq<Event>)
    ensures FirstRecorded(log).Some? <==> exists e <- log :: e.Recorded?
  {
    if log != [] {
      var init, e := log[..|log| - 1], log[|log| - 1];
      assert log == init + [e];
      FirstRecordedIff(init);
    }
  }

  lemma BeforeTestedPrefix(log: seq<Event>)
    ensures BeforeTested(log) <= log
  {
    if log != [] {
      BeforeTestedPrefix(log[..|log| - 1]);
    }
  }

  lemma FirstOfPrefix(a: seq<Event>, b: seq<Event>)
    requires a <= b && FirstRecorded(a).Some?
    ensures FirstRecorded(b) == FirstRecorded(a)
  {
    if |a| < |b| {
      FirstOfPrefix(a, b[..|b| - 1]);
    } else {
      assert a == b;
    }
  }

  /** Behind the look of the main thread no task starts. */
  predicate NoLateStart(log: seq<Event>) {
    forall p, q :: 0 <= p < q < |log| && log[p] == Tested ==> !log[q].Started?
  }

  lemma {:induction false} NoLateStarts(c: Call, steps: seq<Step>)
    requires ValidCall(c) && Exec(c, steps).Some?
    ensures NoLateStart(Exec(c, steps).value.log)
    decreases |steps|
  {
    if steps != [] {
      var init, a := steps[..|steps| - 1], steps[|steps| - 1];
      var before := Exec(c, init).value;
      NoLateStarts(c, init);
      RunInv(c, init);
      if Apply(before, a).log != before.log {
        LogGrows(before, a);
      }
    }
  }

  lemma BeforeTestedAt(log: seq<Event>)
    requires Tested in log
    ensures var n := |BeforeTested(log)|; n < |log| && log[n] == Tested && BeforeTested(log) == log[..n]
  {
    var init, e := log[..|log| - 1], log[|log| - 1];
    assert log == init + [e];
    if Tested in init {
      BeforeTestedAt(init);
      assert log[..|BeforeTested(init)|] == init[..|BeforeTested(init)|];
    } else {
      NothingTested(init);
    }
  }

  lemma NothingTested(log: seq<Event>)
    requires Tested !in log
    ensures BeforeTested(log) == log
  {
  }

  /** An exception at place p of the log came while the main thread waited: behind its look, with no task started
      since. */
  predicate LateAt(log: seq<Event>, p: nat)
    requires p < |log|
  {
    exists q :: 0 <= q < p && log[q] == Tested && forall m :: q < m <= p ==> !log[m].Started?
  }

  predicate AllLate(log: seq<Event>) {
    forall p :: 0 <= p < |log| && log[p].Recorded? ==> LateAt(log, p)
  }

  lemma SilentLog(log: seq<Event>)
    requires Tested in log && FirstRecorded(BeforeTested(log)) == None && NoLateStart(log)
    ensures AllLate(log)
  {
    var n := |BeforeTested(log)|;
    BeforeTestedAt(log);
    FirstRecordedIff(BeforeTested(log));
    assert forall p :: 0 <= p < n ==> log[p] in BeforeTested(log) && !log[p].Recorded?;
    forall p | 0 <= p < |log| && log[p].Recorded? ensures LateAt(log, p) {
      assert log[n] == Tested;
    }
  }

  /** If the call does not throw, every exception was recorded during the wait at its scope exit. */
  lemma SilentMeansLate(c: Call, s: State)
    requires Reachable(c, s) && s.main == Finished(None)
    ensures AllLate(s.log)
  {
    var steps :| Exec(c, steps) == Some(s);
    RunInv(c, steps);
    NoLateStarts(c, steps);
    SilentLog(s.log);
  }

  // What may be lost.

  /** The call was left without throwing although an exception is stored. */
  predicate Lost(s: State) {
    s.main == Finished(None) && s.ep.Some?
  }

  /** No task was started, so no exception was recorded. */
  lemma {:induction false} NothingStarted(c: Call, steps: seq<Step>)
    requires ValidCall(c) && Exec(c, steps).Some? && StartedTasks(Exec(c, steps).value.log) == []
    ensures Exec(c, steps).value.ep == None
    decreases |steps|
  {
    if steps != [] {
      var init, a := steps[..|steps| - 1], steps[|steps| - 1];
      var before, s := Exec(c, init).value, Exec(c, steps).value;
      RunInv(c, init);
      if s.log != before.log {
        LogGrows(before, a);
        TasksSnoc(before.log, s.log[|before.log|]);
      }
      NothingStarted(c, init);
    }
  }

  /** Before the loop condition, with nothing running and nothing wrong. */
  predicate Idle(c: Call, s: State) {
    s.main == LoopTest && s.workers == map[] && |s.pool| == s.degree == c.degree && s.ep == None && s.cont && Broken !in s.log
  }

  /** A task is started, and then its worker runs. */
  lemma Launch(c: Call, steps: seq<Step>, s: State) returns (steps': seq<Step>, s': State, k: Token)
    requires ValidCall(c) && Exec(c, steps) == Some(s) && Idle(c, s) && s.queue != []
    ensures Exec(c, steps') == Some(s') && k == s.pool[|s.pool| - 1]
    ensures s' == s.(main := LoopTest, queue := s.queue[1..], pool := s.pool[..|s.pool| - 1],
                     workers := map[k := Running(s.queue[0])], log := s.log + [Started(s.queue[0])])
  {
    k := s.pool[|s.pool| - 1];
    steps', s' := Extend(c, steps, s, Test);
    steps', s' := Extend(c, steps', s', Pop);
    steps', s' := Extend(c, steps', s', Start);
    steps', s' := Extend(c, steps', s', Check);
  }

  /** A task returns before the next one is started. */
  lemma RunOne(c: Call, steps: seq<Step>, s: State) returns (steps': seq<Step>, s': State)
    requires ValidCall(c) && Exec(c, steps) == Some(s) && Idle(c, s) && s.queue != []
    ensures Exec(c, steps') == Some(s') && Idle(c, s') && s'.queue == s.queue[1..]
  {
    var k;
    steps', s', k := Launch(c, steps, s);
    steps', s' := Extend(c, steps', s', Return(k));
    steps', s' := Extend(c, steps', s', Push(k));
  }

  /** The last task throws while the main thread waits. */
  lemma LoseLast(c: Call, steps: seq<Step>, s: State) returns (steps': seq<Step>, s': State)
    requires ValidCall(c) && Exec(c, steps) == Some(s) && Idle(c, s) && |s.queue| == 1
    ensures Exec(c, steps') == Some(s') && Lost(s') && s'.cont && s'.queue == [] && Broken !in s'.log
  {
    var k;
    steps', s', k := Launch(c, steps, s);
    steps', s' := Extend(c, steps', s', Test);
    steps', s' := Extend(c, steps', s', Rethrow);
    steps', s' := Extend(c, steps', s', Throw(k, 5));
    steps', s' := Extend(c, steps', s', Record(k));
    steps', s' := Extend(c, steps', s', Push(k));
    steps', s' := Extend(c, steps', s', Join);
  }

  lemma {:induction false} LoseFrom(c: Call, steps: seq<Step>, s: State) returns (s': State)
    requires ValidCall(c) && Exec(c, steps) == Some(s) && Idle(c, s) && s.queue != []
    ensures Reachable(c, s') && Lost(s') && s'.cont && s'.queue == [] && Broken !in s'.log
    decreases |s.queue|
  {
    if |s.queue| == 1 {
      var steps';
      steps', s' := LoseLast(c, steps, s);
    } else {
      var steps', next := RunOne(c, steps, s);
      s' := LoseFrom(c, steps', next);
    }
  }

  /** An exception recorded during the scope-exit wait is stored but not rethrown.  That can happen in every call
      that finds a task and the flag up, even if nothing is cancelled, every task runs and the flag stays up; and
      in no other call. */
  lemma LateExceptionIsLost(c: Call)
    requires ValidCall(c)
    ensures (exists s :: Reachable(c, s) && Lost(s)) <==> c.tasks != [] && c.cont
    ensures (exists s :: Reachable(c, s) && Lost(s) && s.cont && s.queue == [] && Broken !in s.log) <==> c.tasks != [] && c.cont
  {
    if c.tasks != [] && c.cont {
      var s := LoseFrom(c, [], Init(c));
    } else {
      forall s | Reachable(c, s) ensures !Lost(s) {
        var steps :| Exec(c, steps) == Some(s);
        RunInv(c, steps);
        NothingStarted(c, steps);
      }
    }
  }

  lemma Extend(c: Call, steps: seq<Step>, s: State, a: Step) returns (steps': seq<Step>, s': State)
    requires Exec(c, steps) == Some(s) && Enabled(s, a)
    ensures steps' == steps + [a] && s' == Apply(s, a) && Exec(c, steps') == Some(s')
  {
    steps', s' := steps + [a], Apply(s, a);
    assert steps'[..|steps'| - 1] == steps;
  }

  // Liveness.

  function Unreturned(workers: map<Token, Phase>): set<Token> {
    set k <- workers | !workers[k].Returning?
  }

  function Weight(workers: map<Token, Phase>): nat {
    |workers| + |Unreturned(workers)| + |RunningTokens(workers)|
  }

  function PhaseWeight(p: Phase): nat {
    match p case Running(_) => 3 case Caught(_, _) => 2 case Returning(_) => 1
  }

  function Rank(m: Main): nat {
    match m
    case Checking => 4
    case LoopTest => 3
    case Popping => 2
    case Rethrowing => 2
    case Starting(_) => 1
    case Waiting(_) => 1
    case Finished(_) => 0
  }

  /** Steps that the main thread and the workers can still make. */
  function Remaining(s: State): nat {
    8 * |s.queue| + Weight(s.workers) + Rank(s.main)
  }

  lemma WeightOf(workers: map<Token, Phase>, k: Token)
    requires k in workers
    ensures Weight(workers) == Weight(workers - {k}) + PhaseWeight(workers[k])
  {
    var rest := workers - {k};
    assert workers.Keys == rest.Keys + {k};
    if workers[k].Returning? {
      assert Unreturned(workers) == Unreturned(rest);
    } else {
      assert Unreturned(workers) == Unreturned(rest) + {k};
    }
    if workers[k].Running? {
      assert RunningTokens(workers) == RunningTokens(rest) + {k};
    } else {
      assert RunningTokens(workers) == RunningTokens(rest);
    }
  }

  lemma WeightUpdate(workers: map<Token, Phase>, k: Token, p: Phase)
    ensures Weight(workers[k := p]) ==
            Weight(workers) + PhaseWeight(p) - if k in workers then PhaseWeight(workers[k]) else 0
  {
    WeightOf(workers[k := p], k);
    assert workers[k := p] - {k} == workers - {k};
    if k in workers {
      WeightOf(workers, k);
    } else {
      assert workers - {k} == workers;
    }
  }

  /** Every step but a break brings the end nearer, and a break does not put it off. */
  lemma StepsDecrease(c: Call, s: State, a: Step)
    requires TokensOk(c, s) && StopOk(c, s) && Enabled(s, a)
    ensures if a == Break then Remaining(Apply(s, a)) == Remaining(s) else Remaining(Apply(s, a)) < Remaining(s)
  {
    hide Weight, StopOk;
    if a == Start {
      WeightUpdate(s.workers, s.main.token, Running(s.queue[0]));
    } else if a.Return? || a.Record? {
      WeightUpdate(s.workers, a.token, Returning(s.workers[a.token].task));
    } else if a.Throw? {
      WeightUpdate(s.workers, a.token, Caught(s.workers[a.token].task, a.exn));
    } else if a.Push? {
      WeightOf(s.workers, a.token);
    }
  }

  /** Until vSynchronize is left some step other than a break is enabled; where the main thread is
      blocked it is a step of a worker. */
  lemma NeverStuck(c: Call, s: State) returns (a: Step)
    requires Reachable(c, s) && !s.main.Finished?
    ensures a != Break && Enabled(s, a)
    ensures (s.main == Popping && s.pool == []) || (s.main.Waiting? && |s.pool| < c.degree) ==>
              (a.Return? || a.Record? || a.Push?) && a.token in s.workers
  {
    ReachableInv(c, s);
    if s.main == LoopTest {
      a := Test;
    } else if s.main == Checking {
      a := Check;
    } else if s.main.Starting? {
      a := Start;
    } else if s.main == Rethrowing {
      a := Rethrow;
    } else if s.main == Popping && s.pool != [] {
      a := Pop;
    } else if s.main.Waiting? && |s.pool| == c.degree {
      a := Join;
    } else {
      assert s.workers.Keys != {};
      var k :| k in s.workers;
      a := match s.workers[k] case Running(_) => Return(k) case Caught(_, _) => Record(k) case Returning(_) => Push(k);
    }
  }

  function Moves(steps: seq<Step>): nat {
    if steps == [] then 0 else Moves(steps[..|steps| - 1]) + if steps[|steps| - 1] == Break then 0 else 1
  }

  /** No schedule, however long, makes more than 8|tasks| + 3 steps other than breaks. */
  lemma {:induction false} RunsAreBounded(c: Call, steps: seq<Step>)
    requires ValidCall(c) && Exec(c, steps).Some?
    ensures Moves(steps) + Remaining(Exec(c, steps).value) <= 8 * |c.tasks| + 3
    decreases |steps|
  {
    if steps == [] {
      assert Unreturned(map[]) == {} && RunningTokens(map[]) == {};
    } else {
      var init, a := steps[..|steps| - 1], steps[|steps| - 1];
      RunsAreBounded(c, init);
      RunInv(c, init);
      StepsDecrease(c, Exec(c, init).value, a);
    }
  }

  /** From every reachable state the call can run to its end. */
  lemma {:induction false} CanFinish(c: Call, s: State) returns (end: State)
    requires Reachable(c, s)
    ensures Reachable(c, end) && end.main.Finished? && s.log <= end.log
    decreases Remaining(s)
  {
    if s.main.Finished? {
      end := s;
    } else {
      var a := NeverStuck(c, s);
      var steps :| Exec(c, steps) == Some(s);
      var steps', s' := Extend(c, steps, s, a);
      ReachableInv(c, s);
      StepsDecrease(c, s, a);
      assert s.log <= s'.log;
      end := CanFinish(c, s');
    }
  }
}
