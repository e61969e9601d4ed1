/** vSynchronize and the workers it starts (inc/cDispatcher.h) as code: the main thread's loop,
    with the steps of the workers interleaved at every point where they can be.  The ghost field
    `steps` records the run, so that every guarantee about runs holds of the code. */
module Dispatchers {
  import opened Wrappers
  import Sequences
  import opened TaskProtocol
  import opened TaskGuarantees
  import opened TaskOutcomes
  import ReturnCodes
  import Pools

  class Dispatcher {
    const pool: Pools.Pool
    const rtn: ReturnCodes.ReturnCode
    const world: World
    var queue: seq<Task>
    var workers: map<Token, Phase>
    var ep: Option<Exn>
    var main: Main
    var log: seq<Event>
    ghost const call: Call
    ghost const code: ReturnCodes.Word       // the return code the call found
    ghost var steps: seq<Step>

    function View(): State
      reads this, pool, rtn
    {
      State(pool.parallelism, queue, pool.idle, main, workers, ep, rtn.cont, log)
    }

    ghost predicate Valid()
      reads this, pool, rtn
    {
      ValidCall(call) && Exec(call, steps) == Some(View()) && RunFits(world, call, steps) && CodeIs(Failed(steps))
    }

    ghost predicate CodeIs(failed: bool)
      reads rtn
    {
      rtn.rtn == if failed then code + ReturnCodes.EXIT_FAILURE else code
    }

    constructor (n: nat, tasks: seq<Task>, rtn: ReturnCodes.ReturnCode, world: World)
      requires n > 0 && Sequences.NoDup(tasks)
      ensures Valid() && call == Call(n, tasks, rtn.cont) && View() == Init(call)
      ensures fresh(pool) && this.rtn == rtn && this.world == world && code == rtn.rtn
    {
      pool := new Pools.Pool(n);
      this.rtn, this.world, code := rtn, world, rtn.rtn;
      queue, workers, ep, main, log := tasks, map[], None, LoopTest, [];
      call := Call(n, tasks, rtn.cont);
      steps := [];
    }

    /** One step was made: the state before it is `before`.  A step of the main thread that finds an exception in the
        loop must have set the return code; no other step may have changed it. */
    ghost method Note(before: State, a: Step)
      requires ValidCall(call) && Exec(call, steps) == Some(before) && RunFits(world, call, steps)
      requires Enabled(before, a) && View() == Apply(before, a) && StepFits(world, before, a)
      requires CodeIs(Failed(steps) || (a == Check && before.ep.Some?))
      modifies `steps
      ensures Valid()
      ensures if a == Break then Remaining(View()) == Remaining(before) else Remaining(View()) < Remaining(before)
    {
      steps := LongerRun(world, call, steps, before, a);
    }

    // The main thread.

    method TestLoop() returns (go: bool)
      requires Valid() && main == LoopTest
      modifies this
      ensures Valid() && View() == Apply(old(View()), Test) && Remaining(View()) < Remaining(old(View()))
      ensures (go <==> main == Popping) && (go <==> queue != [] && rtn.cont)
    {
      ghost var before := View();
      go := queue != [] && rtn.cont;
      main := if go then Popping else Rethrowing;
      Note(before, Test);
    }

    method PopToken() returns (k: Token)
      requires Valid() && main == Popping && pool.idle != []
      modifies this, pool
      ensures Valid() && View() == Apply(old(View()), Pop) && Remaining(View()) < Remaining(old(View())) && main == Starting(k)
    {
      ghost var before := View();
      k := pool.Pop();
      main := Starting(k);
      Note(before, Pop);
    }

    method StartTask(k: Token)
      requires Valid() && main == Starting(k) && queue != []
      modifies this
      ensures Valid() && View() == Apply(old(View()), Start) && Remaining(View()) < Remaining(old(View()))
    {
      ghost var before := View();
      var t := queue[0];
      queue := queue[1..];
      workers := workers[k := Running(t)];
      log := log + [Started(t)];
      main := Checking;
      Note(before, Start);
    }

    method CheckException()
      requires Valid() && main == Checking
      modifies this, rtn
      ensures Valid() && View() == Apply(old(View()), Check) && Remaining(View()) < Remaining(old(View()))
      ensures rtn.rtn == if ep.Some? then old(rtn.rtn) + ReturnCodes.EXIT_FAILURE else old(rtn.rtn)
    {
      ghost var before := View();
      if ep.Some? {
        rtn.OrValue(ReturnCodes.EXIT_FAILURE);
      }
      main := LoopTest;
      Note(before, Check);
    }

    method LookBehindLoop()
      requires Valid() && main == Rethrowing
      modifies this
      ensures Valid() && View() == Apply(old(View()), Rethrow) && Remaining(View()) < Remaining(old(View()))
      ensures main == Waiting(old(ep)) && log == old(log) + [Tested] && rtn.rtn == old(rtn.rtn)
    {
      ghost var before := View();
      main := Waiting(ep);
      log := log + [Tested];
      Note(before, Rethrow);
    }

    method Leave()
      requires Valid() && main.Waiting? && |pool.idle| == pool.parallelism
      modifies this
      ensures Valid() && View() == Apply(old(View()), Join) && Remaining(View()) < Remaining(old(View()))
    {
      ghost var before := View();
      main := Finished(main.thrown);
      Note(before, Join);
    }

    // The workers: vRun, cut at its critical sections.

    /** What the steps of workers and breaks leave as it was at s. */
    ghost predicate Keeps(s: State)
      reads this, rtn
    {
      main == s.main && queue == s.queue && (s.ep.Some? ==> ep == s.ep) && (rtn.cont ==> s.cont) && s.log <= log
    }

    /** A task returns, which one that cancels does behind its vBreak, or it throws. */
    method EndTask(k: Token, thrown: Option<Exn>)
      requires Valid() && k in workers && workers[k].Running?
      requires if thrown.None? then MayReturn(world, workers[k].task, rtn.cont) else thrown == world.result(workers[k].task)
      modifies this
      ensures Valid() && Keeps(old(View())) && rtn.rtn == old(rtn.rtn)
      ensures View() == Apply(old(View()), if thrown.None? then Return(k) else Throw(k, thrown.value))
      ensures Remaining(View()) < Remaining(old(View()))
    {
      ghost var before := View();
      var t := workers[k].task;
      workers := workers[k := if thrown.None? then Returning(t) else Caught(t, thrown.value)];
      log := log + [Ended(t)];
      Note(before, if thrown.None? then Return(k) else Throw(k, thrown.value));
    }

    method RecordException(k: Token)
      requires Valid() && k in workers && workers[k].Caught?
      modifies this
      ensures Valid() && Keeps(old(View())) && View() == Apply(old(View()), Record(k)) && Remaining(View()) < Remaining(old(View()))
    {
      ghost var before := View();
      var Caught(t, e) := workers[k];
      if ep == None {
        ep := Some(e);
      }
      workers := workers[k := Returning(t)];
      log := log + [Recorded(t, e)];
      Note(before, Record(k));
    }

    method GiveBack(k: Token)
      requires Valid() && k in workers && workers[k].Returning?
      modifies this, pool
      ensures Valid() && Keeps(old(View())) && View() == Apply(old(View()), Push(k)) && Remaining(View()) < Remaining(old(View()))
    {
      ghost var before := View();
      workers := workers - {k};
      pool.Push(k);
      Note(before, Push(k));
    }

    /** A signal may arrive, or a running task has a reason to cancel. */
    predicate MayCancel()
      reads this
    {
      world.signals || exists k <- workers :: workers[k].Running? && Cancels(world, workers[k].task)
    }

    method Cancel()
      requires Valid() && MayCancel()
      modifies this, rtn
      ensures Valid() && Keeps(old(View())) && workers == old(workers) && !rtn.cont
      ensures View() == Apply(old(View()), Break) && Remaining(View()) == Remaining(old(View()))
      ensures rtn.rtn == old(rtn.rtn)
    {
      ghost var before := View();
      var signalled := rtn.Break();
      log := log + [Broken];
      Note(before, Break);
    }

    /** A task.  One that finds the flag down may return at once; one that cancels does so before it returns. */
    method RunTask(k: Token)
      requires Valid() && k in workers && workers[k].Running?
      modifies this, rtn
      ensures Valid() && Keeps(old(View()))
      ensures Remaining(View()) < Remaining(old(View())) && rtn.rtn == old(rtn.rtn)
    {
      var t := workers[k].task;
      var early: bool := *;
      if early && world.quits && !rtn.cont {
        EndTask(k, None);
      } else {
        if Cancels(world, t) && rtn.cont {
          Cancel();
        }
        EndTask(k, world.result(t));
      }
    }

    /** One step of one worker, whichever the scheduler picks. */
    method Work()
      requires Valid() && workers.Keys != {}
      modifies this, pool, rtn
      ensures Valid() && Keeps(old(View()))
      ensures Remaining(View()) < Remaining(old(View())) && rtn.rtn == old(rtn.rtn)
    {
      var k :| k in workers;
      match workers[k] {
        case Running(_) =>
          RunTask(k);
        case Caught(_, _) =>
          RecordException(k);
        case Returning(_) =>
          GiveBack(k);
      }
    }

    /** A break, or one step of a worker, or nothing. */
    method Stir()
      requires Valid()
      modifies this, pool, rtn
      ensures Valid() && Keeps(old(View()))
      ensures Remaining(View()) <= Remaining(old(View())) && rtn.rtn == old(rtn.rtn)
    {
      var stop: bool := *;
      if stop && MayCancel() {
        Cancel();
      } else if workers.Keys != {} {
        Work();
      }
    }

    /** Between two steps of the main thread: any number of steps of workers, and breaks. */
    method Interfere()
      requires Valid()
      modifies this, pool, rtn
      ensures Valid() && Keeps(old(View())) && (world.slow ==> View() == old(View()))
      ensures Remaining(View()) <= Remaining(old(View())) && rtn.rtn == old(rtn.rtn)
    {
      var n: nat := *;
      if world.slow {
        n := 0;
      }
      while n > 0
        invariant Valid() && Keeps(old(View())) && (world.slow ==> n == 0 && View() == old(View()))
        invariant Remaining(View()) <= Remaining(old(View())) && rtn.rtn == old(rtn.rtn)
      {
        Stir();
        n := n - 1;
      }
    }

    /** The wait inside oPop: workers go on, and breaks arrive, until there is a token. */
    method AwaitToken()
      requires Valid() && main == Popping
      modifies this, pool, rtn
      ensures Valid() && Keeps(old(View())) && (world.slow && old(pool.idle) != [] ==> View() == old(View()))
      ensures pool.idle != [] && Remaining(View()) <= Remaining(old(View())) && rtn.rtn == old(rtn.rtn)
    {
      Interfere();
      while pool.idle == []
        invariant Valid() && Keeps(old(View())) && (world.slow && old(pool.idle) != [] ==> View() == old(View()))
        invariant Remaining(View()) <= Remaining(old(View())) && rtn.rtn == old(rtn.rtn)
        decreases Remaining(View())
      {
        ghost var a := NeverStuck(call, View());
        Work();
        Interfere();
      }
    }

    /** The wait in the scope exit. */
    method AwaitAll()
      requires Valid() && main.Waiting?
      modifies this, pool, rtn
      ensures Valid() && Keeps(old(View()))
      ensures |pool.idle| == pool.parallelism && rtn.rtn == old(rtn.rtn)
    {
      Interfere();
      PoolFits(call, steps);
      while |pool.idle| < pool.parallelism
        invariant Valid() && Keeps(old(View()))
        invariant |pool.idle| <= pool.parallelism && rtn.rtn == old(rtn.rtn)
        decreases Remaining(View())
      {
        ghost var a := NeverStuck(call, View());
        Work();
        Interfere();
        PoolFits(call, steps);
      }
    }

    /** oPop. */
    method TakeToken() returns (k: Token)
      requires Valid() && main == Popping
      modifies this, pool, rtn
      ensures Valid() && main == Starting(k) && Remaining(View()) < Remaining(old(View())) && rtn.rtn == old(rtn.rtn)
      ensures queue == old(queue) && (old(ep).Some? ==> ep == old(ep)) && old(log) <= log
      ensures world.slow && old(pool.idle) != [] ==> View() == Apply(old(View()), Pop)
    {
      AwaitToken();
      k := PopToken();
    }

    /** A thread is taken from the pool and started on the head of the queue, at once if the pool holds one. */
    method StartNext()
      requires Valid() && main == Popping && queue != []
      modifies this, pool, rtn
      ensures Valid() && main == Checking && Remaining(View()) < Remaining(old(View())) && old(log) <= log
      ensures (old(ep).Some? ==> ep == old(ep)) && rtn.rtn == old(rtn.rtn)
      ensures world.slow && old(pool.idle) != [] ==> StartedHead(old(View()), View())
    {
      var k := TakeToken();
      Interfere();
      StartTask(k);
    }

    /** A task is started, and the rest is cancelled if an exception is stored. */
    method Advance()
      requires Valid() && main == Popping && queue != []
      modifies this, pool, rtn
      ensures Valid() && main == LoopTest && Remaining(View()) < Remaining(old(View())) && old(log) <= log
      ensures old(ep).Some? ==> ep == old(ep) && !rtn.cont && rtn.rtn == code + ReturnCodes.EXIT_FAILURE
      ensures rtn.rtn != old(rtn.rtn) ==> ep.Some? && rtn.rtn == code + ReturnCodes.EXIT_FAILURE
      ensures world.slow && old(pool.idle) != [] && old(ep) == None ==> StartedHead(old(View()), View())
    {
      StartNext();
      Interfere();
      CheckException();
    }

    /** One turn of the loop, from the pop to the next test of the condition.  If an exception was stored before, the
        code is set and no further turn follows. */
    method Turn() returns (go: bool)
      requires Valid() && main == Popping && queue != []
      modifies this, pool, rtn
      ensures Valid() && main == (if go then Popping else Rethrowing) && Remaining(View()) < Remaining(old(View()))
      ensures old(ep).Some? ==> ep == old(ep) && !go && rtn.rtn == code + ReturnCodes.EXIT_FAILURE
      ensures rtn.rtn != old(rtn.rtn) ==> ep.Some? && rtn.rtn == code + ReturnCodes.EXIT_FAILURE
      ensures call.cont && !rtn.cont && Broken !in log ==> rtn.rtn == code + ReturnCodes.EXIT_FAILURE
      ensures (go <==> queue != [] && rtn.cont) && old(log) <= log
      ensures world.slow && old(pool.idle) != [] && old(ep) == None ==> StartedHead(old(View()), View())
    {
      Advance();
      Interfere();
      go := TestLoop();
      Cause();
    }

    lemma Cause()
      requires Valid()
      ensures call.cont && !rtn.cont && Broken !in log ==> rtn.rtn == code + ReturnCodes.EXIT_FAILURE
    {
      if call.cont {
        CancelledIff(call, steps);
      }
    }

    /** The loop.  The code is set if a look at ep in it came behind the record of an exception, and only then; which is
        the case if the flag fell without a break. */
    method Loop()
      requires Valid() && main == LoopTest
      modifies this, pool, rtn
      ensures Valid() && main == Rethrowing
      ensures rtn.rtn != old(rtn.rtn) ==> ep.Some?
      ensures rtn.rtn == if Failed(steps) then code + ReturnCodes.EXIT_FAILURE else code
      ensures call.cont && !rtn.cont && Broken !in log ==> rtn.rtn == code + ReturnCodes.EXIT_FAILURE
      ensures world.slow && old(View()) == Init(call) && call.cont ==> Starts(call.tasks, AtOnce(call)) <= log
    {
      ghost var filling := world.slow && old(View()) == Init(call) && call.cont;
      var go := TestLoop();
      while go
        invariant Valid() && main == (if go then Popping else Rethrowing) && (go <==> queue != [] && rtn.cont)
        invariant rtn.rtn != old(rtn.rtn) ==> ep.Some?
        invariant filling ==> Filling(call, View())
        decreases Remaining(View())
      {
        ghost var before := View();
        go := Turn();
        if filling {
          FillingTurn(call, before, View());
        }
      }
      Cause();
    }

    /** The scope exit. */
    method JoinAll()
      requires Valid() && main.Waiting?
      modifies this, pool, rtn
      ensures Valid() && main.Finished? && rtn.rtn == old(rtn.rtn) && old(log) <= log
    {
      AwaitAll();
      Leave();
    }

    /** The look at ep behind the loop, and the scope exit. */
    method Exit()
      requires Valid() && main == Rethrowing
      modifies this, pool, rtn
      ensures Valid() && main.Finished? && rtn.rtn == old(rtn.rtn) && old(log) <= log
    {
      hide Exec, RunFits, Failed;
      Interfere();
      LookBehindLoop();
      JoinAll();
    }
  }

  function StatusOf(rtn: ReturnCodes.ReturnCode): Status
    reads rtn
  {
    Status(rtn.cont, rtn.rtn)
  }

  /** vSynchronize.  `rest` is what is left of the task sequence and `log` what happened.  The return code is set if
      the call cancelled by itself, or started a task behind a recorded exception; and only then or together with a
      break. */
  method Synchronize(concurrency: int, tasks: seq<Task>, rtn: ReturnCodes.ReturnCode, world: World)
    returns (r: Result<Option<Exn>, int>, rest: seq<Task>, log: seq<Event>)
    requires Sequences.NoDup(tasks)
    modifies rtn
    ensures concurrency <= 0 ==> r == Err(concurrency) && rest == tasks && log == [] && unchanged(rtn)
    ensures concurrency > 0 ==>
              r.Ok? && Outcome(world, Call(concurrency, tasks, old(rtn.cont)), r.value, rest, log, rtn.cont, old(rtn.rtn), rtn.rtn)
    ensures Report(world, log, old(StatusOf(rtn)), StatusOf(rtn))
    ensures StartedLate(log) ==> rtn.rtn == old(rtn.rtn) + ReturnCodes.EXIT_FAILURE
    ensures forall t <- EndedTasks(log) :: world.result(t).Some? ==>
              Event.Recorded(t, world.result(t).value) in log || (world.quits && !rtn.cont)
    ensures r.Ok? && r.value.Some? ==> exists t <- EndedTasks(log) :: world.result(t) == r.value
    ensures concurrency > 0 && old(rtn.cont) && Clean(world, tasks) ==>
              r == Ok(None) && rest == [] && multiset(EndedTasks(log)) == multiset(tasks) && unchanged(rtn`cont, rtn`rtn)
    ensures concurrency > 0 && old(rtn.cont) && world.slow ==>
              Starts(tasks, AtOnce(Call(concurrency, tasks, true))) <= log
  {
    if concurrency <= 0 {
      return Err(concurrency), tasks, [];
    }
    var d := new Dispatcher(concurrency, tasks, rtn, world);
    d.Interfere();
    d.Loop();
    d.Exit();
    r, rest, log := Ok(d.main.thrown), d.queue, d.log;
    RunMeans(world, d.call, d.steps, d.code);
  }

  /** Some run of the call ends with these results. */
  ghost predicate Outcome(w: World, c: Call, thrown: Option<Exn>, rest: seq<Task>, log: seq<Event>, cont: bool,
                          before: ReturnCodes.Word, code: ReturnCodes.Word) {
    exists steps :: Exec(c, steps).Some? && RunFits(w, c, steps) && Ends(Exec(c, steps).value, thrown, rest, log, cont) &&
                    code == Code(before, steps)
  }

  predicate Ends(s: State, thrown: Option<Exn>, rest: seq<Task>, log: seq<Event>, cont: bool) {
    s.main == Finished(thrown) && s.queue == rest && s.log == log && s.cont == cont
  }

  lemma OutcomeReached(w: World, c: Call, thrown: Option<Exn>, rest: seq<Task>, log: seq<Event>, cont: bool,
                       before: ReturnCodes.Word, code: ReturnCodes.Word) returns (s: State)
    requires ValidCall(c) && Outcome(w, c, thrown, rest, log, cont, before, code)
    ensures Reachable(c, s) && Ends(s, thrown, rest, log, cont)
  {
    var steps :| Exec(c, steps).Some? && Ends(Exec(c, steps).value, thrown, rest, log, cont);
    s := Exec(c, steps).value;
  }
}
