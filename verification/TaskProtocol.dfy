/** The protocol between the main thread of vSynchronize and the worker threads it starts
    (inc/cDispatcher.h, inc/cPool.h), as a machine whose every step is one atomic action of one
    thread.  Thread creation and the store of the thread handle are one step. */
module TaskProtocol {
  import opened Wrappers
  import Sequences

  type Task = nat
  type Token = nat
  type Exn = nat

  /** What a started worker still has to do: run its task; record the exception the task threw;
      give its token back to the pool. */
  datatype Phase = Running(task: Task) | Caught(task: Task, exn: Exn) | Returning(task: Task)

  /** Where the main thread stands in vSynchronize. */
  datatype Main =
    | LoopTest
    | Popping
    | Starting(token: Token)
    | Checking
    | Rethrowing
    | Waiting(thrown: Option<Exn>)
    | Finished(thrown: Option<Exn>)

  datatype Event =
    | Started(task: Task)
    | Ended(task: Task)
    | Recorded(task: Task, exn: Exn)
    | Broken
    | Tested

  /** A call: its degree of concurrency, its task sequence and the cancel flag it finds. */
  datatype Call = Call(degree: nat, tasks: seq<Task>, cont: bool)

  datatype State = State(
    degree: nat,
    queue: seq<Task>,
    pool: seq<Token>,            // a stack: its top is the last element
    main: Main,
    workers: map<Token, Phase>,
    ep: Option<Exn>,
    cont: bool,
    log: seq<Event>)

  datatype Step =
    | Test                       // the loop condition
    | Pop                        // oPop, enabled once the pool holds a token
    | Start                      // a thread is created for the head of the queue
    | Check                      // the locked look at ep that may cancel the rest
    | Rethrow                    // the unlocked look at ep behind the loop
    | Join                       // the scope exit, enabled once the pool is full
    | Return(token: Token)       // a task returns
    | Throw(token: Token, exn: Exn)
    | Record(token: Token)       // the worker stores its exception unless one is stored
    | Push(token: Token)         // vPush
    | Break                      // vBreak, by a task or by a signal

  function Init(c: Call): State {
    State(c.degree, c.tasks, seq(c.degree, i => i), LoopTest, map[], None, c.cont, [])
  }

  predicate Enabled(s: State, a: Step) {
    match a
    case Test => s.main == LoopTest
    case Pop => s.main == Popping && s.pool != []
    case Start => s.main.Starting? && s.queue != []
    case Check => s.main == Checking
    case Rethrow => s.main == Rethrowing
    case Join => s.main.Waiting? && |s.pool| == s.degree
    case Return(k) => k in s.workers && s.workers[k].Running?
    case Throw(k, _) => k in s.workers && s.workers[k].Running?
    case Record(k) => k in s.workers && s.workers[k].Caught?
    case Push(k) => k in s.workers && s.workers[k].Returning?
    case Break => true
  }

  function Apply(s: State, a: Step): State
    requires Enabled(s, a)
  {
    match a
    case Test =>
      s.(main := if s.queue != [] && s.cont then Popping else Rethrowing)
    case Pop =>
      s.(main := Starting(s.pool[|s.pool| - 1]), pool := s.pool[..|s.pool| - 1])
    case Start =>
      s.(main := Checking, queue := s.queue[1..],
         workers := s.workers[s.main.token := Running(s.queue[0])],
         log := s.log + [Started(s.queue[0])])
    case Check =>
      s.(main := LoopTest, cont := s.cont && s.ep.None?)
    case Rethrow =>
      s.(main := Waiting(s.ep), log := s.log + [Tested])
    case Join =>
      s.(main := Finished(s.main.thrown))
    case Return(k) =>
      s.(workers := s.workers[k := Returning(s.workers[k].task)],
         log := s.log + [Ended(s.workers[k].task)])
    case Throw(k, e) =>
      s.(workers := s.workers[k := Caught(s.workers[k].task, e)],
         log := s.log + [Ended(s.workers[k].task)])
    case Record(k) =>
      s.(workers := s.workers[k := Returning(s.workers[k].task)],
         ep := if s.ep.None? then Some(s.workers[k].exn) else s.ep,
         log := s.log + [Recorded(s.workers[k].task, s.workers[k].exn)])
    case Push(k) =>
      s.(workers := s.workers - {k}, pool := s.pool + [k])
    case Break =>
      s.(cont := false, log := s.log + [Broken])
  }

  /** The state after a sequence of steps, or None where some step was not enabled. */
  function Exec(c: Call, steps: seq<Step>): (r: Option<State>)
    decreases |steps|
  {
    if steps == [] then Some(Init(c)) else
      var before := Exec(c, steps[..|steps| - 1]);
      var a := steps[|steps| - 1];
      if before.Some? && Enabled(before.value, a) then Some(Apply(before.value, a)) else None
  }

  /** What the callers of vSynchronize give it: at least one thread, and task objects that are
      distinct. */
  predicate ValidCall(c: Call) {
    c.degree > 0 && Sequences.NoDup(c.tasks)
  }

  // What a log says.

  function StartedTasks(log: seq<Event>): seq<Task> {
    if log == [] then [] else
      var e := log[|log| - 1];
      var before := StartedTasks(log[..|log| - 1]);
      if e.Started? then before + [e.task] else before
  }

  function EndedTasks(log: seq<Event>): seq<Task> {
    if log == [] then [] else
      var e := log[|log| - 1];
      var before := EndedTasks(log[..|log| - 1]);
      if e.Ended? then before + [e.task] else before
  }

  /** The exception of the earliest Recorded event. */
  function FirstRecorded(log: seq<Event>): Option<Exn> {
    if log == [] then None else
      var e := log[|log| - 1];
      var before := FirstRecorded(log[..|log| - 1]);
      if before.None? && e.Recorded? then Some(e.exn) else before
  }

  /** An exception was recorded or a break was requested. */
  predicate Stopped(log: seq<Event>) {
    exists i :: 0 <= i < |log| && (log[i].Recorded? || log[i].Broken?)
  }

  /** The number of tasks started behind the first Recorded or Broken event. */
  function LateStarts(log: seq<Event>): nat {
    if log == [] then 0 else
      var before := log[..|log| - 1];
      LateStarts(before) + if log[|log| - 1].Started? && Stopped(before) then 1 else 0
  }

  /** The part of the log before the main thread's look at ep behind its loop. */
  function BeforeTested(log: seq<Event>): seq<Event> {
    if log == [] then [] else
      var init := log[..|log| - 1];
      if Tested in init || log[|log| - 1] == Tested then BeforeTested(init) else log
  }

  /** Tasks that run at the end of the log. */
  function InFlight(log: seq<Event>): int {
    |StartedTasks(log)| - |EndedTasks(log)|
  }

  lemma TasksSnoc(log: seq<Event>, e: Event)
    ensures StartedTasks(log + [e]) == if e.Started? then StartedTasks(log) + [e.task] else StartedTasks(log)
    ensures EndedTasks(log + [e]) == if e.Ended? then EndedTasks(log) + [e.task] else EndedTasks(log)
  {
    var l := log + [e];
    assert l[..|l| - 1] == log && l[|l| - 1] == e;
  }

  lemma StopSnoc(log: seq<Event>, e: Event)
    ensures Stopped(log + [e]) <==> Stopped(log) || e.Recorded? || e.Broken?
    ensures LateStarts(log + [e]) == if e.Started? && Stopped(log) then LateStarts(log) + 1 else LateStarts(log)
  {
    var l := log + [e];
    assert l[..|l| - 1] == log && l[|l| - 1] == e;
    if Stopped(log) {
      var i :| 0 <= i < |log| && (log[i].Recorded? || log[i].Broken?);
      assert l[i] == log[i];
    }
    if Stopped(l) {
      var i :| 0 <= i < |l| && (l[i].Recorded? || l[i].Broken?);
      assert i < |log| ==> log[i] == l[i];
    }
  }

  lemma EpSnoc(log: seq<Event>, e: Event)
    ensures FirstRecorded(log + [e]) ==
            if FirstRecorded(log).None? && e.Recorded? then Some(e.exn) else FirstRecorded(log)
    ensures BeforeTested(log + [e]) == if Tested in log || e == Tested then BeforeTested(log) else log + [e]
    ensures Tested in log + [e] <==> Tested in log || e == Tested
  {
    var l := log + [e];
    assert l[..|l| - 1] == log && l[|l| - 1] == e;
  }

  // The invariant, in five parts.

  function Held(m: Main): set<Token> {
    if m.Starting? then {m.token} else {}
  }

  predicate TokensOk(c: Call, s: State) {
    && s.degree == c.degree
    && TokenTable(c.degree, s.pool, s.workers.Keys, Held(s.main))
    && (s.main.Finished? ==> |s.pool| == c.degree)
  }

  /** Each token is free, or busy with a worker, or held by the main thread. */
  predicate TokenTable(degree: nat, pool: seq<Token>, busy: set<Token>, held: set<Token>) {
    && Sequences.NoDup(pool)
    && (forall k <- pool :: k < degree && k !in busy && k !in held)
    && (forall k <- busy :: k < degree)
    && (forall k <- held :: k < degree)
    && busy !! held
    && |pool| + |busy| + |held| == degree
  }

  function RunningTokens(workers: map<Token, Phase>): set<Token> {
    set k <- workers | workers[k].Running?
  }

  predicate TasksOk(c: Call, s: State) {
    && c.tasks == StartedTasks(s.log) + s.queue
    && Ledger(StartedTasks(s.log), EndedTasks(s.log), s.workers)
  }

  /** The workers' table against the tasks that started and ended. */
  predicate Ledger(started: seq<Task>, ended: seq<Task>, workers: map<Token, Phase>) {
    && Sequences.NoDup(started)
    && Sequences.NoDup(ended)
    && (forall t <- ended :: t in started)
    && (forall k <- workers :: workers[k].task in started)
    && (forall k <- workers :: workers[k].Running? <==> workers[k].task !in ended)
    && (forall k, l :: k in workers && l in workers && k != l && workers[k].Running? ==> workers[k].task != workers[l].task)
    && (forall t <- started :: t !in ended ==> RunsSomewhere(t, workers))
  }

  predicate RunsSomewhere(t: Task, workers: map<Token, Phase>) {
    exists k <- workers :: workers[k] == Running(t)
  }

  predicate FlightOk(c: Call, s: State) {
    && InFlight(s.log) == |RunningTokens(s.workers)|
    && (forall i :: 0 <= i <= |s.log| ==> InFlight(s.log[..i]) <= c.degree)
  }

  predicate PastLoop(m: Main) {
    m.Rethrowing? || m.Waiting? || m.Finished?
  }

  predicate StopOk(c: Call, s: State) {
    && (s.cont ==> c.cont)
    && (Broken in s.log ==> !s.cont)
    && (c.cont ==> (Stopped(s.log) <==> s.ep.Some? || !s.cont))
    && (!c.cont ==> StartedTasks(s.log) == [] && (s.main == LoopTest || PastLoop(s.main)))
    && LateStarts(s.log) <= 1
    && (LateStarts(s.log) == 1 ==> s.main == Checking || (s.main == LoopTest && !s.cont) || PastLoop(s.main))
    && (s.main == Popping || s.main.Starting? ==> s.queue != [])
    && (PastLoop(s.main) ==> s.queue == [] || !s.cont)
  }

  predicate EpOk(s: State) {
    && s.ep == FirstRecorded(s.log)
    && (Tested in s.log <==> s.main.Waiting? || s.main.Finished?)
    && (Tested in s.log ==> s.main.thrown == FirstRecorded(BeforeTested(s.log)))
    && (Tested !in s.log ==> BeforeTested(s.log) == s.log)
  }

  ghost predicate Inv(c: Call, s: State) {
    TokensOk(c, s) && TasksOk(c, s) && FlightOk(c, s) && StopOk(c, s) && EpOk(s)
  }

  lemma InitInv(c: Call)
    requires ValidCall(c)
    ensures Inv(c, Init(c))
  {
    assert RunningTokens(Init(c).workers) == {};
  }

  lemma TablePop(degree: nat, pool: seq<Token>, busy: set<Token>)
    requires TokenTable(degree, pool, busy, {}) && pool != []
    ensures TokenTable(degree, pool[..|pool| - 1], busy, {pool[|pool| - 1]})
  {
    var rest, top := pool[..|pool| - 1], pool[|pool| - 1];
    assert top in pool;
    forall k <- rest ensures k in pool && k != top {
      var i :| 0 <= i < |rest| && rest[i] == k;
      assert pool[i] == k;
    }
  }

  lemma TablePush(degree: nat, pool: seq<Token>, busy: set<Token>, held: set<Token>, k: Token)
    requires TokenTable(degree, pool, busy, held) && k in busy
    ensures TokenTable(degree, pool + [k], busy - {k}, held)
  {
    assert forall l <- pool + [k] :: l in pool || l == k;
  }

  lemma TokensWork(c: Call, s: State, a: Step)
    requires a.Return? || a.Throw? || a.Record? || a.Push?
    requires TokensOk(c, s) && Enabled(s, a)
    ensures TokensOk(c, Apply(s, a))
  {
    if a.Push? {
      TablePush(c.degree, s.pool, s.workers.Keys, Held(s.main), a.token);
      assert Apply(s, a).workers.Keys == s.workers.Keys - {a.token};
    } else {
      assert Apply(s, a).workers.Keys == s.workers.Keys;
    }
  }

  lemma TokensStart(c: Call, s: State)
    requires TokensOk(c, s) && Enabled(s, Start)
    ensures TokensOk(c, Apply(s, Start))
  {
    assert Apply(s, Start).workers.Keys == s.workers.Keys + {s.main.token};
  }

  lemma TokensStep(c: Call, s: State, a: Step)
    requires TokensOk(c, s) && Enabled(s, a)
    ensures TokensOk(c, Apply(s, a))
  {
    if a == Pop {
      TablePop(c.degree, s.pool, s.workers.Keys);
    } else if a == Start {
      TokensStart(c, s);
    } else if a.Return? || a.Throw? || a.Record? || a.Push? {
      TokensWork(c, s, a);
    }
  }

  lemma EpStep(s: State, a: Step)
    requires EpOk(s) && Enabled(s, a)
    ensures EpOk(Apply(s, a))
  {
    if a == Start {
      EpSnoc(s.log, Started(s.queue[0]));
    } else if a.Return? || a.Throw? {
      EpSnoc(s.log, Ended(s.workers[a.token].task));
    } else if a.Record? {
      EpSnoc(s.log, Recorded(s.workers[a.token].task, s.workers[a.token].exn));
    } else if a == Rethrow {
      EpSnoc(s.log, Tested);
    } else if a == Break {
      EpSnoc(s.log, Broken);
    }
  }

  lemma StopWork(c: Call, s: State, a: Step)
    requires a.Return? || a.Throw? || a.Record? || a.Push?
    requires StopOk(c, s) && Enabled(s, a)
    ensures StopOk(c, Apply(s, a))
  {
    var p := s.workers[a.token];
    if a.Return? || a.Throw? {
      StopSnoc(s.log, Ended(p.task));
      TasksSnoc(s.log, Ended(p.task));
    } else if a.Record? {
      StopSnoc(s.log, Recorded(p.task, p.exn));
      TasksSnoc(s.log, Recorded(p.task, p.exn));
    }
  }

  lemma StopStep(c: Call, s: State, a: Step)
    requires StopOk(c, s) && Enabled(s, a)
    ensures StopOk(c, Apply(s, a))
  {
    hide Stopped, LateStarts, StartedTasks;
    if a.Return? || a.Throw? || a.Record? || a.Push? {
      StopWork(c, s, a);
    } else if a == Start {
      StopSnoc(s.log, Started(s.queue[0]));
      LateNeedsStop(s.log);
    } else if a == Rethrow {
      StopSnoc(s.log, Tested);
      TasksSnoc(s.log, Tested);
    } else if a == Break {
      StopSnoc(s.log, Broken);
      TasksSnoc(s.log, Broken);
    } else if a == Check {
      LateNeedsStop(s.log);
    }
  }

  lemma LateNeedsStop(log: seq<Event>)
    ensures LateStarts(log) > 0 ==> Stopped(log)
  {
    if log != [] {
      var init, e := log[..|log| - 1], log[|log| - 1];
      assert log == init + [e];
      StopSnoc(init, e);
      LateNeedsStop(init);
    }
  }

  lemma LogGrows(s: State, a: Step)
    requires Enabled(s, a) && Apply(s, a).log != s.log
    ensures Apply(s, a).log == s.log + [Apply(s, a).log[|s.log|]]
  {
  }

  lemma LedgerStart(started: seq<Task>, ended: seq<Task>, workers: map<Token, Phase>, k: Token, t: Task)
    requires Ledger(started, ended, workers) && k !in workers && t !in started
    ensures Ledger(started + [t], ended, workers[k := Running(t)])
  {
    var workers' := workers[k := Running(t)];
    forall u <- started + [t] | u !in ended ensures RunsSomewhere(u, workers') {
      if u == t {
        assert workers'[k] == Running(u);
      } else {
        var l :| l in workers && workers[l] == Running(u);
        assert workers'[l] == Running(u);
      }
    }
  }

  /** A task ends, returning or throwing: its worker is left in the phase p. */
  lemma LedgerEnd(started: seq<Task>, ended: seq<Task>, workers: map<Token, Phase>, k: Token, p: Phase)
    requires Ledger(started, ended, workers) && k in workers && workers[k].Running?
    requires p.task == workers[k].task && !p.Running?
    ensures Ledger(started, ended + [p.task], workers[k := p])
  {
    var workers' := workers[k := p];
    forall u <- started | u !in ended + [p.task] ensures RunsSomewhere(u, workers') {
      var l :| l in workers && workers[l] == Running(u);
      assert workers'[l] == Running(u);
    }
  }

  /** A worker whose task has ended moves on, or leaves. */
  lemma LedgerAfter(started: seq<Task>, ended: seq<Task>, workers: map<Token, Phase>, k: Token)
    requires Ledger(started, ended, workers) && k in workers && !workers[k].Running?
    ensures Ledger(started, ended, workers[k := Returning(workers[k].task)])
    ensures Ledger(started, ended, workers - {k})
  {
    var workers', workers'' := workers[k := Returning(workers[k].task)], workers - {k};
    forall u <- started | u !in ended ensures RunsSomewhere(u, workers') && RunsSomewhere(u, workers'') {
      var l :| l in workers && workers[l] == Running(u);
      assert l != k && workers'[l] == Running(u) && workers''[l] == Running(u);
    }
  }

  lemma TasksStart(c: Call, s: State)
    requires Sequences.NoDup(c.tasks) && TokensOk(c, s) && TasksOk(c, s) && Enabled(s, Start)
    ensures TasksOk(c, Apply(s, Start))
  {
    var started, ended, t := StartedTasks(s.log), EndedTasks(s.log), s.queue[0];
    NotYetStarted(c.tasks, started, s.queue);
    TasksSnoc(s.log, Started(t));
    LedgerStart(started, ended, s.workers, s.main.token, t);
  }

  lemma NotYetStarted(tasks: seq<Task>, started: seq<Task>, queue: seq<Task>)
    requires Sequences.NoDup(tasks) && tasks == started + queue && queue != []
    ensures queue[0] !in started
    ensures tasks == started + [queue[0]] + queue[1..]
  {
    assert tasks[|started|] == queue[0];
    assert forall i :: 0 <= i < |started| ==> tasks[i] == started[i];
  }

  lemma TasksWork(c: Call, s: State, a: Step)
    requires a.Return? || a.Throw? || a.Record? || a.Push?
    requires TasksOk(c, s) && Enabled(s, a)
    ensures TasksOk(c, Apply(s, a))
  {
    var started, ended, k := StartedTasks(s.log), EndedTasks(s.log), a.token;
    var t := s.workers[k].task;
    if a.Return? {
      TasksSnoc(s.log, Ended(t));
      LedgerEnd(started, ended, s.workers, k, Returning(t));
    } else if a.Throw? {
      TasksSnoc(s.log, Ended(t));
      LedgerEnd(started, ended, s.workers, k, Caught(t, a.exn));
    } else {
      TasksSnoc(s.log, Recorded(t, if a.Record? then s.workers[k].exn else 0));
      LedgerAfter(started, ended, s.workers, k);
    }
  }

  lemma TasksStep(c: Call, s: State, a: Step)
    requires Sequences.NoDup(c.tasks) && TokensOk(c, s) && TasksOk(c, s) && Enabled(s, a)
    ensures TasksOk(c, Apply(s, a))
  {
    if a == Start {
      TasksStart(c, s);
    } else if a.Return? || a.Throw? || a.Record? || a.Push? {
      TasksWork(c, s, a);
    } else if a == Rethrow {
      TasksSnoc(s.log, Tested);
    } else if a == Break {
      TasksSnoc(s.log, Broken);
    }
  }

  lemma RunningUpdate(workers: map<Token, Phase>, k: Token, p: Phase)
    requires k !in workers <==> p.Running?
    ensures |RunningTokens(workers[k := p])| ==
            |RunningTokens(workers)| + if p.Running? then 1 else if workers[k].Running? then -1 else 0
  {
    var r, r' := RunningTokens(workers), RunningTokens(workers[k := p]);
    if p.Running? {
      assert r' == r + {k};
    } else if workers[k].Running? {
      assert r' == r - {k};
    } else {
      assert r' == r;
    }
  }

  lemma FlightCount(s: State, a: Step)
    requires Enabled(s, a) && (a == Start ==> s.main.token !in s.workers)
    requires InFlight(s.log) == |RunningTokens(s.workers)|
    ensures InFlight(Apply(s, a).log) == |RunningTokens(Apply(s, a).workers)|
  {
    match a
    case Start =>
      TasksSnoc(s.log, Started(s.queue[0]));
      RunningUpdate(s.workers, s.main.token, Running(s.queue[0]));
    case Return(k) =>
      TasksSnoc(s.log, Ended(s.workers[k].task));
      RunningUpdate(s.workers, k, Returning(s.workers[k].task));
    case Throw(k, e) =>
      TasksSnoc(s.log, Ended(s.workers[k].task));
      RunningUpdate(s.workers, k, Caught(s.workers[k].task, e));
    case Record(k) =>
      TasksSnoc(s.log, Recorded(s.workers[k].task, s.workers[k].exn));
      RunningUpdate(s.workers, k, Returning(s.workers[k].task));
    case Push(k) => assert RunningTokens(s.workers - {k}) == RunningTokens(s.workers);
    case Rethrow => TasksSnoc(s.log, Tested);
    case Break => TasksSnoc(s.log, Broken);
    case Test =>
    case Pop =>
    case Check =>
    case Join =>
  }

  lemma FlightStep(c: Call, s: State, a: Step)
    requires TokensOk(c, s) && FlightOk(c, s) && Enabled(s, a)
    ensures FlightOk(c, Apply(s, a))
  {
    var s' := Apply(s, a);
    TokensStep(c, s, a);
    FlightCount(s, a);
    SubsetSize(RunningTokens(s'.workers), s'.workers.Keys);
    if s'.log != s.log {
      LogGrows(s, a);
    }
    forall i | 0 <= i <= |s'.log| ensures InFlight(s'.log[..i]) <= c.degree {
      if i == |s'.log| {
        assert s'.log[..i] == s'.log;
      } else {
        assert s'.log[..i] == s.log[..i];
      }
    }
  }

  lemma SubsetSize<T>(a: set<T>, b: set<T>)
    requires a <= b
    ensures |a| <= |b|
  {
    assert b == a + (b - a);
  }

  lemma {:induction false} RunInv(c: Call, steps: seq<Step>)
    requires ValidCall(c) && Exec(c, steps).Some?
    ensures Inv(c, Exec(c, steps).value)
    decreases |steps|
  {
    if steps == [] {
      InitInv(c);
    } else {
      var before, a := steps[..|steps| - 1], steps[|steps| - 1];
      RunInv(c, before);
      var s := Exec(c, before).value;
      TokensStep(c, s, a);
      TasksStep(c, s, a);
      FlightStep(c, s, a);
      StopStep(c, s, a);
      EpStep(s, a);
    }
  }
}
