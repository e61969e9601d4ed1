/** The script scheduler of mpx (app/mpx/cAppLocal.cpp): it runs the statements of a script, those
    whose program is on the multiplex list through vSynchronize. */
module Mpx {
  import opened Wrappers
  import Sequences
  import opened TaskProtocol
  import opened TaskGuarantees
  import opened TaskOutcomes
  import opened MpxScripts
  import opened MpxSteps
  import ReturnCodes
  import Dispatchers

  function StatusOf(rtn: ReturnCodes.ReturnCode): Status
    reads rtn
  {
    Dispatchers.StatusOf(rtn)
  }

  /** A signal may arrive while the main thread is on its own. */
  method Signal(rtn: ReturnCodes.ReturnCode, w: World) returns (seen: seq<Event>)
    modifies rtn
    ensures seen == [] || (seen == [Broken] && !rtn.cont && w.signals)
    ensures seen == [] ==> rtn.cont == old(rtn.cont)
    ensures rtn.rtn == old(rtn.rtn)
  {
    var stop: bool := *;
    seen := [];
    if stop && w.signals {
      var signalled := rtn.Break();
      seen := [Broken];
    }
  }

  /** What may come before a turn. */
  method Listen(u: Setup, rtn: ReturnCodes.ReturnCode, log: seq<Event>, ghost queue: seq<Task>, i: nat, ghost s0: Status)
    returns (log': seq<Event>)
    requires After(u, Ok(()), log, queue, i, s0, StatusOf(rtn))
    modifies rtn
    ensures After(u, Ok(()), log', queue, i, s0, StatusOf(rtn)) && (rtn.cont ==> old(rtn.cont) && log' == log)
  {
    ghost var s := StatusOf(rtn);
    var seen := Signal(rtn, u.world);
    log' := log + seen;
    StepHeard(u, log, queue, i, s0, s, seen, StatusOf(rtn));
  }

  /** A call of vSynchronize on the queue, with the result of rethrowing.  While nothing is cancelled the queue is a
      maximal run, or empty. */
  method Flush(u: Setup, rtn: ReturnCodes.ReturnCode, log: seq<Event>, queue: seq<Task>, i: nat, ghost s0: Status)
    returns (r: Result<(), Failure>, log': seq<Event>, rest: seq<Task>)
    requires i <= |u.script| && Queued(u, log, queue, i, rtn.cont) && Report(u.world, log, s0, StatusOf(rtn))
    requires rtn.cont && queue != [] ==> MaximalRun(u.script, u.maxList, i - |queue|, i)
    modifies rtn
    ensures After(u, r, log', rest, i, s0, StatusOf(rtn))
    ensures r.Ok? ==> u.parallelism > 0 && (rtn.cont ==> rest == [])
  {
    ghost var s := StatusOf(rtn);
    var outcome, rest', seen := Dispatchers.Synchronize(u.parallelism, queue, rtn, u.world);
    if outcome.Err? {
      return Err(BadConcurrency(outcome.error)), log, queue;
    }
    log', rest := log + seen, rest';
    ghost var c := Call(u.parallelism, queue, s.cont);
    ghost var e := Dispatchers.OutcomeReached(u.world, c, outcome.value, rest, seen, rtn.cont, s.code, rtn.rtn);
    r := if outcome.value.Some? then Err(TaskThrew(outcome.value.value)) else Ok(());
    CallMeans(c, e);
    StepFlush(u, log, queue, i, s0, s, c, outcome.value, seen, rest, StatusOf(rtn));
    FailsLater(r, u.world, u.parallelism, log, seen);
  }

  /** A program runs: it may be cancelled, or cancel the rest at its end. */
  method Execute(rtn: ReturnCodes.ReturnCode, w: World, i: nat) returns (seen: seq<Event>, thrown: Option<Exn>)
    requires rtn.cont
    modifies rtn
    ensures seen == if rtn.cont then [Started(i), Ended(i)] else [Started(i), Broken, Ended(i)]
    ensures Cancels(w, i) || !w.signals ==> (!rtn.cont <==> Cancels(w, i))
    ensures thrown == w.result(i) && rtn.rtn == old(rtn.rtn)
  {
    var noise := Signal(rtn, w);
    thrown := w.result(i);
    if thrown == None && w.cancels(i) && rtn.cont {
      var signalled := rtn.Break();
      noise := [Broken];
    }
    seen := [Started(i)] + noise + [Ended(i)];
  }

  /** A program run by the main thread itself; nothing is run once the flag is down. */
  method RunHere(u: Setup, rtn: ReturnCodes.ReturnCode, log: seq<Event>, ghost queue: seq<Task>, i: nat, ghost s0: Status)
    returns (r: Result<(), Failure>, log': seq<Event>)
    requires i < |u.script| && After(u, Ok(()), log, queue, i, s0, StatusOf(rtn))
    requires Runs(u.script, i) && !Parallel(u.script, u.maxList, i)
    modifies rtn
    ensures After(u, r, log', queue, i + 1, s0, StatusOf(rtn))
    ensures !old(rtn.cont) ==> r.Ok? && log' == log && unchanged(rtn)
    ensures old(rtn.cont) ==> log' == log + if rtn.cont then [Started(i), Ended(i)] else [Started(i), Broken, Ended(i)]
    ensures old(rtn.cont) ==> r == if u.world.result(i).Some? then Err(TaskThrew(u.world.result(i).value)) else Ok(())
    ensures old(rtn.cont) && Cancels(u.world, i) ==> !rtn.cont
  {
    if !rtn.cont {
      StepQuit(u, log, queue, i, s0, StatusOf(rtn));
      return Ok(()), log;
    }
    ghost var s := StatusOf(rtn);
    var seen, thrown := Execute(rtn, u.world, i);
    log' := log + seen;
    StepHere(u, log, queue, i, s0, s, seen, StatusOf(rtn));
    r := if thrown.Some? then Err(TaskThrew(thrown.value)) else Ok(());
  }

  /** A program that is multiplexed waits in the queue, which a barrier runs if the next program is another one. */
  method Multiplex(u: Setup, rtn: ReturnCodes.ReturnCode, log: seq<Event>, ghost before: seq<Task>, queue: seq<Task>,
                   i: nat, ghost s0: Status)
    returns (r: Result<(), Failure>, log': seq<Event>, queue': seq<Task>)
    requires i < |u.script| && After(u, Ok(()), log, before, i, s0, StatusOf(rtn)) && queue == before + [i]
    requires Parallel(u.script, u.maxList, i)
    modifies rtn
    ensures After(u, r, log', queue', i + 1, s0, StatusOf(rtn))
    ensures i + 1 == |u.script| || u.script[i].program == u.script[i + 1].program ==>
              r.Ok? && log' == log && queue' == queue && unchanged(rtn)
    ensures i + 1 < |u.script| && u.script[i].program != u.script[i + 1].program && r.Ok? && rtn.cont ==> queue' == []
  {
    hide After, Queued, Report;
    if i < |u.script| - 1 && u.script[i].program != u.script[i + 1].program {
      ToBarrier(u, log, before, i, s0, StatusOf(rtn));
      r, log', queue' := Flush(u, rtn, log, queue, i + 1, s0);
    } else {
      StepQueue(u, log, before, i, s0, StatusOf(rtn));
      r, log', queue' := Ok(()), log, queue;
    }
  }

  method PopBack(queue: seq<Task>, ghost before: seq<Task>, ghost last: Task) returns (t: Task, rest: seq<Task>)
    requires queue == before + [last]
    ensures t == last && rest == before
  {
    t, rest := queue[|queue| - 1], queue[..|queue| - 1];
  }

  /** One turn of the loop.  A statement that is followed by one of its program is only queued. */
  method Turn(u: Setup, rtn: ReturnCodes.ReturnCode, log: seq<Event>, queue: seq<Task>, i: nat, ghost s0: Status)
    returns (r: Result<(), Failure>, log': seq<Event>, queue': seq<Task>)
    requires i < |u.script| && After(u, Ok(()), log, queue, i, s0, StatusOf(rtn))
    modifies rtn
    ensures After(u, r, log', queue', i + 1, s0, StatusOf(rtn))
    ensures !Runs(u.script, i) ==> r.Ok? && log' == log && queue' == queue && unchanged(rtn)
    ensures Parallel(u.script, u.maxList, i) && (i + 1 == |u.script| || u.script[i].program == u.script[i + 1].program) ==>
              r.Ok? && log' == log && queue' == queue + [i] && unchanged(rtn)
    ensures Parallel(u.script, u.maxList, i) && i + 1 < |u.script| && u.script[i].program != u.script[i + 1].program ==>
              r.Ok? && rtn.cont ==> queue' == []
    ensures Runs(u.script, i) && !Parallel(u.script, u.maxList, i) && old(rtn.cont) ==>
              log' == log + if rtn.cont then [Started(i), Ended(i)] else [Started(i), Broken, Ended(i)]
  {
    hide After;
    r, log', queue' := Ok(()), log, queue;
    if u.script[i].program == "" || Comment(u.script[i].program) {
      StepSkip(u, log, queue, i, s0, StatusOf(rtn));
      return;
    }
    queue' := queue' + [i];
    if u.script[i].program !in u.maxList {
      var t;
      t, queue' := PopBack(queue', queue, i);
      r, log' := RunHere(u, rtn, log, queue, t, s0);
    } else {
      r, log', queue' := Multiplex(u, rtn, log, queue, queue', i, s0);
    }
  }

  /** What the statements of a script do: what their programs throw, how they exit, and which exits are ignored. */
  function ScriptWorld(script: seq<Statement>, ignList: set<string>, thrown: Task -> Option<Exn>, exit: Task -> int,
                       signals: bool, slow: bool): (w: World)
    ensures w.result == thrown && w.signals == signals && w.slow == slow && w.quits
    ensures forall t :: 0 <= t < |script| ==> (w.cancels(t) <==> exit(t) != 0 && script[t].program !in ignList)
  {
    World(thrown, t requires t >= 0 => exit(t) != 0 && !(t < |script| && script[t].program in ignList), true, signals, slow)
  }

  method RunScript(u: Setup, rtn: ReturnCodes.ReturnCode) returns (r: Result<(), Failure>, log: seq<Event>)
    modifies rtn
    ensures Completed(u, r, log, old(StatusOf(rtn)), StatusOf(rtn))
  {
    hide After, Completed;
    ghost var s0 := StatusOf(rtn);
    StepStart(u, s0);
    r, log := Ok(()), [];
    var queue: seq<Task> := [];
    var i := 0;
    while i < |u.script|
      invariant i <= |u.script| && After(u, Ok(()), log, queue, i, s0, StatusOf(rtn))
    {
      log := Listen(u, rtn, log, queue, i, s0);
      r, log, queue := Turn(u, rtn, log, queue, i, s0);
      if r.Err? {
        Completes(u, r, log, queue, i + 1, s0, StatusOf(rtn));
        return;
      }
      GoesOn(u, r, log, queue, i + 1, s0, StatusOf(rtn));
      i := i + 1;
    }
    log := Listen(u, rtn, log, queue, i, s0);
    AtEnd(u, log, queue, rtn.cont);
    r, log, queue := Flush(u, rtn, log, queue, i, s0);
    Completes(u, r, log, queue, i, s0, StatusOf(rtn));
  }

  /** vRun behind the parsing of the script.

      Whatever happens, no statement runs twice, statements that do not lie in one run never overlap, and behind a break
      at most one more starts.  Unless the run fails or is cancelled, every statement that is not empty and not a comment
      has run, to its end or until it threw, and no exit was an error; and if the programs are slow, as many statements
      of each run as allowed start one directly behind the other.  If nothing goes wrong, nothing is cancelled.  A run
      that is cancelled for another reason than a break sets the return code.  If the run does not fail, the only
      exceptions recorded are those of tasks that threw while the main thread waited at the end of a barrier. */
  method Run(script: seq<Statement>, maxList: set<string>, ignList: set<string>, parallelism: int,
             rtn: ReturnCodes.ReturnCode, thrown: Task -> Option<Exn>, exit: Task -> int, signals: bool, slow: bool)
    returns (r: Result<(), Failure>, log: seq<Event>)
    modifies rtn
    ensures Sound(script, maxList, Width(parallelism), log)
    ensures r.Ok? && rtn.cont ==> forall t :: Runs(script, t) ==> t in EndedTasks(log)
    ensures r.Ok? && rtn.cont && slow ==>
              forall lo: nat, hi: nat :: MaximalRun(script, maxList, lo, hi) ==> Multiplexed(Width(parallelism), log, lo, hi)
    ensures r.Ok? ==> AllLate(log)
    ensures parallelism <= 0 ==> r.Err?
    ensures var w := ScriptWorld(script, ignList, thrown, exit, signals, slow);
            Report(w, log, old(StatusOf(rtn)), StatusOf(rtn)) && FailsRightly(r, w, parallelism, log)
    ensures rtn.cont ==> forall t <- EndedTasks(log) :: exit(t) == 0 || script[t].program in ignList || thrown(t) != None
    ensures parallelism > 0 && old(rtn.cont) && !signals &&
            (forall t :: 0 <= t < |script| && Runs(script, t) ==>
               thrown(t) == None && (exit(t) == 0 || script[t].program in ignList)) ==>
              r.Ok? && rtn.cont && rtn.rtn == old(rtn.rtn)
  {
    var w := ScriptWorld(script, ignList, thrown, exit, signals, slow);
    var u := Setup(script, maxList, parallelism, w);
    ghost var s0 := StatusOf(rtn);
    r, log := RunScript(u, rtn);
    CleanScript(u, r, log, s0, StatusOf(rtn));
  }
}
