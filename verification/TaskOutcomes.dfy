/** What a call of vSynchronize makes of its surroundings: of what its tasks do, and of breaks that are requested
    meanwhile.  A run is judged by its steps, from the return code to the exceptions that are recorded. */
module TaskOutcomes {
  import opened Wrappers
  import opened TaskProtocol
  import opened TaskGuarantees
  import ReturnCodes

  /** What each task does when it is run: it returns or throws, and it may cancel by a break before it returns;
      whether tasks return at once when they find the flag down; whether a signal may arrive; and whether the workers
      are so slow that they get on only while the main thread waits. */
  datatype World = World(
    result: Task -> Option<Exn>,
    cancels: Task -> bool,
    quits: bool,
    signals: bool,
    slow: bool)

  predicate Cancels(w: World, t: Task) {
    w.result(t) == None && w.cancels(t)
  }

  predicate MayReturn(w: World, t: Task, cont: bool) {
    if w.result(t) == None then w.cancels(t) ==> !cont else w.quits && !cont
  }

  predicate StepFits(w: World, s: State, a: Step) {
    match a
    case Return(k) => k in s.workers && MayReturn(w, s.workers[k].task, s.cont)
    case Throw(k, e) => k in s.workers && w.result(s.workers[k].task) == Some(e)
    case Break => w.signals || exists k <- s.workers :: s.workers[k].Running? && Cancels(w, s.workers[k].task)
    case Test => true
    case Pop => true
    case Start => true
    case Check => true
    case Rethrow => true
    case Join => true
    case Record(_) => true
    case Push(_) => true
  }

  /** The run is one of these surroundings. */
  predicate RunFits(w: World, c: Call, steps: seq<Step>)
    requires Exec(c, steps).Some?
    decreases |steps|
  {
    if steps == [] then true else
      var init := steps[..|steps| - 1];
      RunFits(w, c, init) && StepFits(w, Exec(c, init).value, steps[|steps| - 1])
  }

  // Slow workers: as many tasks as there are tokens start before the first one ends.

  function Starts(tasks: seq<Task>, k: nat): (log: seq<Event>)
    requires k <= |tasks|
    ensures |log| == k && forall i :: 0 <= i < k ==> log[i] == Started(tasks[i])
  {
    seq(k, i requires 0 <= i < k => Started(tasks[i]))
  }

  function AtOnce(c: Call): (k: nat)
    ensures k <= |c.tasks| && k <= c.degree && (k == |c.tasks| || k == c.degree)
  {
    if c.degree < |c.tasks| then c.degree else |c.tasks|
  }

  /** The first tasks are being started, or have been started, before anything else happened. */
  predicate Filling(c: Call, s: State) {
    if |s.log| < AtOnce(c) then
      && s.log == Starts(c.tasks, |s.log|) && s.queue == c.tasks[|s.log|..]
      && |s.pool| == c.degree - |s.log| && s.ep == None && s.cont
    else
      Starts(c.tasks, AtOnce(c)) <= s.log
  }

  /** The head of the queue of s has been started and nothing else has happened. */
  predicate StartedHead(s: State, s': State) {
    && s.queue != [] && s.pool != []
    && s'.log == s.log + [Started(s.queue[0])] && s'.queue == s.queue[1..]
    && s'.pool == s.pool[..|s.pool| - 1] && s'.ep == s.ep && s'.cont == s.cont
  }

  lemma FillingTurn(c: Call, s: State, s': State)
    requires Filling(c, s) && s.log <= s'.log
    requires s.pool != [] && s.ep == None ==> StartedHead(s, s')
    ensures Filling(c, s')
  {
    if |s.log| < AtOnce(c) {
      assert s'.log == Starts(c.tasks, |s.log| + 1);
      assert s'.queue == c.tasks[|s.log| + 1..];
    } else {
      assert forall i :: 0 <= i < AtOnce(c) ==> s'.log[i] == s.log[i];
    }
  }

  // The return code.

  predicate Recorded(steps: seq<Step>) {
    if steps == [] then false else Recorded(steps[..|steps| - 1]) || steps[|steps| - 1].Record?
  }

  /** Some look of the main thread in its loop found an exception. */
  predicate Failed(steps: seq<Step>) {
    if steps == [] then false else
      var init := steps[..|steps| - 1];
      Failed(init) || (steps[|steps| - 1] == Check && Recorded(init))
  }

  function Code(code: ReturnCodes.Word, steps: seq<Step>): ReturnCodes.Word {
    if Failed(steps) then code + ReturnCodes.EXIT_FAILURE else code
  }

  lemma RecordedIff(steps: seq<Step>)
    ensures Recorded(steps) <==> exists i :: 0 <= i < |steps| && steps[i].Record?
  {
    if steps != [] {
      var init := steps[..|steps| - 1];
      RecordedIff(init);
      if exists i :: 0 <= i < |steps| && steps[i].Record? {
        var i :| 0 <= i < |steps| && steps[i].Record?;
        assert i < |init| ==> init[i] == steps[i];
      }
    }
  }

  /** The code is set exactly if a look in the loop comes behind the record of an exception. */
  lemma FailedIff(steps: seq<Step>)
    ensures Failed(steps) <==> exists i, j :: 0 <= i < j < |steps| && steps[i].Record? && steps[j] == Check
  {
    if steps != [] {
      var init, last := steps[..|steps| - 1], |steps| - 1;
      FailedIff(init);
      RecordedIff(init);
      if exists i, j :: 0 <= i < j < |steps| && steps[i].Record? && steps[j] == Check {
        var i, j :| 0 <= i < j < |steps| && steps[i].Record? && steps[j] == Check;
        assert init[i] == steps[i] && (j < last ==> init[j] == steps[j]);
      }
      if Failed(steps) && !Failed(init) {
        var i :| 0 <= i < |init| && init[i].Record?;
        assert steps[i].Record? && steps[last] == Check;
      }
    }
  }

  lemma {:induction false} EpIffRecorded(c: Call, steps: seq<Step>)
    requires Exec(c, steps).Some?
    ensures Exec(c, steps).value.ep.Some? <==> Recorded(steps)
    decreases |steps|
  {
    if steps != [] {
      EpIffRecorded(c, steps[..|steps| - 1]);
    }
  }

  /** A run is made longer by one step. */
  lemma LongerRun(w: World, c: Call, steps: seq<Step>, s: State, a: Step) returns (steps': seq<Step>)
    requires ValidCall(c) && Exec(c, steps) == Some(s) && RunFits(w, c, steps) && Enabled(s, a) && StepFits(w, s, a)
    ensures Exec(c, steps') == Some(Apply(s, a)) && RunFits(w, c, steps')
    ensures Failed(steps') <==> Failed(steps) || (a == Check && s.ep.Some?)
    ensures if a == Break then Remaining(Apply(s, a)) == Remaining(s) else Remaining(Apply(s, a)) < Remaining(s)
  {
    RunInv(c, steps);
    StepsDecrease(c, s, a);
    EpIffRecorded(c, steps);
    var after;
    steps', after := Extend(c, steps, s, a);
    assert steps'[..|steps'| - 1] == steps;
  }

  /** An exception found in the loop cancels, and without a break nothing else does. */
  lemma {:induction false} CancelledIff(c: Call, steps: seq<Step>)
    requires Exec(c, steps).Some? && c.cont
    ensures var s := Exec(c, steps).value; !s.cont <==> Failed(steps) || Broken in s.log
    decreases |steps|
  {
    if steps != [] {
      var init, a := steps[..|steps| - 1], steps[|steps| - 1];
      var before := Exec(c, init).value;
      CancelledIff(c, init);
      EpIffRecorded(c, init);
      if Apply(before, a).log != before.log {
        LogGrows(before, a);
      }
    }
  }

  /** A call that finds the flag down starts nothing, and nothing fails. */
  lemma NoFailureWhenDown(c: Call, steps: seq<Step>)
    requires ValidCall(c) && Exec(c, steps).Some? && !c.cont
    ensures !Failed(steps)
  {
    RunInv(c, steps);
    NothingStarted(c, steps);
    EpIffRecorded(c, steps);
    FailedNeedsRecord(steps);
  }

  lemma FailedNeedsRecord(steps: seq<Step>)
    ensures Failed(steps) ==> Recorded(steps)
  {
  }

  // Behind a recorded exception every start is followed by a failure.

  /** An exception is recorded, and behind it a task was started. */
  predicate StartedLate(log: seq<Event>) {
    exists p, q :: 0 <= p < q < |log| && log[p].Recorded? && log[q].Started?
  }

  lemma StartedLateSnoc(log: seq<Event>, e: Event)
    ensures StartedLate(log + [e]) ==> StartedLate(log) || (e.Started? && FirstRecorded(log).Some?)
  {
    var l := log + [e];
    if StartedLate(l) {
      var p, q :| 0 <= p < q < |l| && l[p].Recorded? && l[q].Started?;
      assert l[p] == log[p] && log[p] in log;
      FirstRecordedIff(log);
      if q < |log| {
        assert log[q] == l[q];
      }
    }
  }

  lemma {:induction false} LateStartFails(c: Call, steps: seq<Step>)
    requires ValidCall(c) && Exec(c, steps).Some?
    ensures var s := Exec(c, steps).value; StartedLate(s.log) ==> Failed(steps) || (s.main == Checking && s.ep.Some?)
    decreases |steps|
  {
    if steps != [] {
      var init, a := steps[..|steps| - 1], steps[|steps| - 1];
      var before := Exec(c, init).value;
      var s := Apply(before, a);
      LateStartFails(c, init);
      RunInv(c, init);
      EpIffRecorded(c, init);
      if s.log != before.log {
        LogGrows(before, a);
        StartedLateSnoc(before.log, s.log[|before.log|]);
      }
    }
  }

  // What is recorded.

  /** Exceptions are recorded for exactly the tasks that throw them, but for those whose workers have yet to do it, and
      for those that found the flag down and returned. */
  ghost predicate RecordsOk(w: World, s: State) {
    && (forall k <- s.workers :: s.workers[k].Caught? ==> w.result(s.workers[k].task) == Some(s.workers[k].exn))
    && (forall t: Task, e: Exn :: Event.Recorded(t, e) in s.log ==> t in EndedTasks(s.log) && w.result(t) == Some(e))
    && (forall t <- EndedTasks(s.log) :: w.result(t).Some? ==>
          Event.Recorded(t, w.result(t).value) in s.log || CaughtSomewhere(t, s.workers) || (w.quits && !s.cont))
  }

  predicate CaughtSomewhere(t: Task, workers: map<Token, Phase>) {
    exists k <- workers :: workers[k].Caught? && workers[k].task == t
  }

  lemma RecordsEnd(w: World, s: State, k: Token, a: Step)
    requires RecordsOk(w, s) && Enabled(s, a) && StepFits(w, s, a) && (a == Return(k) || (a.Throw? && a.token == k))
    ensures RecordsOk(w, Apply(s, a))
  {
    var s' := Apply(s, a);
    var task := s.workers[k].task;
    TasksSnoc(s.log, Ended(task));
    forall t | t in EndedTasks(s'.log) && w.result(t).Some?
      ensures Event.Recorded(t, w.result(t).value) in s'.log || CaughtSomewhere(t, s'.workers) || (w.quits && !s'.cont)
    {
      if t in EndedTasks(s.log) {
        if CaughtSomewhere(t, s.workers) {
          var l :| l in s.workers && s.workers[l].Caught? && s.workers[l].task == t;
          assert s'.workers[l] == s.workers[l];
        }
      } else {
        assert t == task && (s'.workers[k].Caught? || !s.cont);
      }
    }
  }

  lemma RecordsRecord(w: World, s: State, k: Token)
    requires RecordsOk(w, s) && Enabled(s, Record(k)) && s.workers[k].task in EndedTasks(s.log)
    ensures RecordsOk(w, Apply(s, Record(k)))
  {
    var s' := Apply(s, Record(k));
    var e := Event.Recorded(s.workers[k].task, s.workers[k].exn);
    TasksSnoc(s.log, e);
    assert e in s'.log;
    forall t | t in EndedTasks(s'.log) && w.result(t).Some?
      ensures Event.Recorded(t, w.result(t).value) in s'.log || CaughtSomewhere(t, s'.workers) || (w.quits && !s'.cont)
    {
      if CaughtSomewhere(t, s.workers) {
        var l :| l in s.workers && s.workers[l].Caught? && s.workers[l].task == t;
        if l != k {
          assert s'.workers[l] == s.workers[l];
        }
      }
    }
  }

  lemma RecordsOther(w: World, s: State, a: Step)
    requires RecordsOk(w, s) && Enabled(s, a) && !a.Return? && !a.Throw? && !a.Record?
    requires a == Start ==> s.main.token !in s.workers
    ensures RecordsOk(w, Apply(s, a))
  {
    var s' := Apply(s, a);
    if s'.log != s.log {
      LogGrows(s, a);
      TasksSnoc(s.log, s'.log[|s.log|]);
    }
    forall t | CaughtSomewhere(t, s.workers) ensures CaughtSomewhere(t, s'.workers) {
      var l :| l in s.workers && s.workers[l].Caught? && s.workers[l].task == t;
      assert l in s'.workers && s'.workers[l] == s.workers[l];
    }
  }

  lemma {:induction false} RecordsInv(w: World, c: Call, steps: seq<Step>)
    requires ValidCall(c) && Exec(c, steps).Some? && RunFits(w, c, steps)
    ensures RecordsOk(w, Exec(c, steps).value)
    decreases |steps|
  {
    if steps != [] {
      var init, a := steps[..|steps| - 1], steps[|steps| - 1];
      var s := Exec(c, init).value;
      RecordsInv(w, c, init);
      RunInv(c, init);
      if a.Return? || a.Throw? {
        RecordsEnd(w, s, a.token, a);
      } else if a.Record? {
        RecordsRecord(w, s, a.token);
      } else {
        RecordsOther(w, s, a);
      }
    }
  }

  lemma RecordMeans(w: World, s: State, e: Event)
    requires RecordsOk(w, s) && e in s.log && e.Recorded?
    ensures e.task in EndedTasks(s.log) && w.result(e.task) == Some(e.exn)
  {
    assert Event.Recorded(e.task, e.exn) == e;
  }

  lemma RecordedThrew(w: World, s: State)
    requires RecordsOk(w, s)
    ensures FirstRecorded(s.log).Some? ==> exists t <- EndedTasks(s.log) :: w.result(t).Some?
  {
    FirstRecordedIff(s.log);
    if FirstRecorded(s.log).Some? {
      var p :| 0 <= p < |s.log| && s.log[p].Recorded?;
      RecordMeans(w, s, s.log[p]);
    }
  }

  /** When the call is left, exceptions are recorded for exactly the tasks that ended by throwing them. */
  lemma RecordedExactly(w: World, c: Call, steps: seq<Step>, t: Task, e: Exn)
    requires ValidCall(c) && Exec(c, steps).Some? && RunFits(w, c, steps) && Exec(c, steps).value.main.Finished?
    ensures var s := Exec(c, steps).value;
            && (Event.Recorded(t, e) in s.log ==> t in EndedTasks(s.log) && w.result(t) == Some(e))
            && (t in EndedTasks(s.log) && w.result(t) == Some(e) ==> Event.Recorded(t, e) in s.log || (w.quits && !s.cont))
  {
    RecordsInv(w, c, steps);
    RunInv(c, steps);
    var s := Exec(c, steps).value;
    assert |s.workers| == 0;
  }

  /** Every break was requested by a signal or by a task that was started. */
  predicate BreaksOk(w: World, log: seq<Event>) {
    Broken in log ==> w.signals || exists t <- StartedTasks(log) :: Cancels(w, t)
  }

  lemma BreakStep(w: World, c: Call, s: State, a: Step)
    requires TasksOk(c, s) && Enabled(s, a) && StepFits(w, s, a) && BreaksOk(w, s.log)
    ensures BreaksOk(w, Apply(s, a).log)
  {
    if a == Break {
      TasksSnoc(s.log, Broken);
    } else if Apply(s, a).log != s.log {
      LogGrows(s, a);
      TasksSnoc(s.log, Apply(s, a).log[|s.log|]);
    }
  }

  lemma {:induction false} BreaksAreRequested(w: World, c: Call, steps: seq<Step>)
    requires ValidCall(c) && Exec(c, steps).Some? && RunFits(w, c, steps)
    ensures BreaksOk(w, Exec(c, steps).value.log)
    decreases |steps|
  {
    if steps != [] {
      var init, a := steps[..|steps| - 1], steps[|steps| - 1];
      BreaksAreRequested(w, c, init);
      RunInv(c, init);
      BreakStep(w, c, Exec(c, init).value, a);
    }
  }

  lemma {:induction false} TasksCancel(w: World, c: Call, steps: seq<Step>)
    requires ValidCall(c) && Exec(c, steps).Some? && RunFits(w, c, steps)
    ensures var s := Exec(c, steps).value; s.cont ==> forall t <- EndedTasks(s.log) :: !Cancels(w, t)
    decreases |steps|
  {
    if steps != [] {
      var init, a := steps[..|steps| - 1], steps[|steps| - 1];
      var s := Exec(c, init).value;
      TasksCancel(w, c, init);
      if Apply(s, a).log != s.log {
        LogGrows(s, a);
        TasksSnoc(s.log, Apply(s, a).log[|s.log|]);
      }
    }
  }

  predicate Clean(w: World, tasks: seq<Task>) {
    !w.signals && forall t <- tasks :: w.result(t) == None && !w.cancels(t)
  }

  /** If no task throws or cancels and no signal arrives, a call that finds the flag up runs everything and changes
      nothing. */
  lemma CleanRun(w: World, c: Call, steps: seq<Step>)
    requires ValidCall(c) && Exec(c, steps).Some? && RunFits(w, c, steps) && Exec(c, steps).value.main.Finished?
    requires c.cont && Clean(w, c.tasks)
    ensures var s := Exec(c, steps).value;
            s.main == Finished(None) && s.cont && s.queue == [] && s.ep == None && !Failed(steps) &&
            multiset(EndedTasks(s.log)) == multiset(c.tasks)
  {
    var s := Exec(c, steps).value;
    RunInv(c, steps);
    RecordsInv(w, c, steps);
    BreaksAreRequested(w, c, steps);
    assert forall t <- EndedTasks(s.log) :: t in StartedTasks(s.log) && t in c.tasks;
    RecordedThrew(w, s);
    EpIffRecorded(c, steps);
    FailedNeedsRecord(steps);
    CancelledIff(c, steps);
    assert Reachable(c, s);
    Completion(c, s);
    ThrowsIff(c, s);
  }

  datatype Status = Status(cont: bool, code: ReturnCodes.Word)

  /** What events tell of the statuses before and behind them.  The code is set only if the flag falls too, and it is set
      if the flag falls without a break; an exception was recorded then.  A break has a reason; behind a lowered flag
      nothing starts and the code stays; a flag that is still up shows that no task cancelled; and only exceptions that
      were thrown are recorded. */
  ghost predicate Report(w: World, log: seq<Event>, s: Status, s': Status) {
    && (s'.code == s.code || (s'.code == s.code + ReturnCodes.EXIT_FAILURE && !s'.cont))
    && (s.cont && !s'.cont && Broken !in log ==> s'.code == s.code + ReturnCodes.EXIT_FAILURE && exists e <- log :: e.Recorded?)
    && (Broken in log ==> !s'.cont && (w.signals || exists t <- EndedTasks(log) :: Cancels(w, t)))
    && (!s.cont ==> !s'.cont && s'.code == s.code && StartedTasks(log) == [])
    && (s'.cont ==> forall t <- EndedTasks(log) :: !Cancels(w, t))
    && (forall e <- log :: e.Recorded? ==> e.task in EndedTasks(log) && w.result(e.task) == Some(e.exn))
  }

  /** What the end of a call shows of its return code. */
  lemma CodeMeans(w: World, c: Call, steps: seq<Step>, code: ReturnCodes.Word)
    requires ValidCall(c) && Exec(c, steps).Some? && RunFits(w, c, steps) && Exec(c, steps).value.main.Finished?
    ensures var s := Exec(c, steps).value;
            Report(w, s.log, Status(c.cont, code), Status(s.cont, Code(code, steps))) && (StartedLate(s.log) ==> Failed(steps))
  {
    var s := Exec(c, steps).value;
    RunInv(c, steps);
    EpIffRecorded(c, steps);
    FailedNeedsRecord(steps);
    LateStartFails(c, steps);
    FirstRecordedIff(s.log);
    if c.cont {
      CancelledIff(c, steps);
    } else {
      NoFailureWhenDown(c, steps);
    }
    EventsMean(w, c, steps);
  }

  lemma {:induction false} FirstIsRecorded(log: seq<Event>)
    ensures FirstRecorded(log).Some? ==> exists t: Task :: Event.Recorded(t, FirstRecorded(log).value) in log
  {
    if log != [] {
      var init, last := log[..|log| - 1], log[|log| - 1];
      assert log == init + [last];
      FirstIsRecorded(init);
      assert last.Recorded? ==> Event.Recorded(last.task, last.exn) == last;
    }
  }

  /** What is thrown is the exception of a task. */
  lemma ThrownByTask(w: World, c: Call, steps: seq<Step>)
    requires ValidCall(c) && Exec(c, steps).Some? && RunFits(w, c, steps) && Exec(c, steps).value.main.Finished?
    ensures var s := Exec(c, steps).value;
            s.main.thrown.Some? ==> exists t <- EndedTasks(s.log) :: w.result(t) == s.main.thrown
  {
    var s := Exec(c, steps).value;
    assert Reachable(c, s);
    RunInv(c, steps);
    ThrowsIff(c, s);
    FirstIsRecorded(s.log);
    RecordsInv(w, c, steps);
  }

  lemma EventsMean(w: World, c: Call, steps: seq<Step>)
    requires ValidCall(c) && Exec(c, steps).Some? && RunFits(w, c, steps) && Exec(c, steps).value.main.Finished?
    ensures var s := Exec(c, steps).value;
            && (forall e <- s.log :: e.Recorded? ==> e.task in EndedTasks(s.log) && w.result(e.task) == Some(e.exn))
            && (Broken in s.log ==> w.signals || exists t <- EndedTasks(s.log) :: Cancels(w, t))
            && (s.cont ==> forall t <- EndedTasks(s.log) :: !Cancels(w, t))
  {
    var s := Exec(c, steps).value;
    forall e | e in s.log && e.Recorded? ensures e.task in EndedTasks(s.log) && w.result(e.task) == Some(e.exn) {
      RecordedExactly(w, c, steps, e.task, e.exn);
      assert Event.Recorded(e.task, e.exn) == e;
    }
    BreaksAreRequested(w, c, steps);
    assert Reachable(c, s);
    Completion(c, s);
    SameTasks(StartedTasks(s.log), EndedTasks(s.log));
    TasksCancel(w, c, steps);
  }

  /** All of this together. */
  lemma RunMeans(w: World, c: Call, steps: seq<Step>, code: ReturnCodes.Word)
    requires ValidCall(c) && Exec(c, steps).Some? && RunFits(w, c, steps) && Exec(c, steps).value.main.Finished?
    ensures var s := Exec(c, steps).value;
            && Report(w, s.log, Status(c.cont, code), Status(s.cont, Code(code, steps)))
            && (StartedLate(s.log) ==> Failed(steps))
            && (forall t <- EndedTasks(s.log) :: w.result(t).Some? ==>
                  Event.Recorded(t, w.result(t).value) in s.log || (w.quits && !s.cont))
            && (s.main.thrown.Some? ==> exists t <- EndedTasks(s.log) :: w.result(t) == s.main.thrown)
            && (c.cont && Clean(w, c.tasks) ==>
                  s.main == Finished(None) && s.cont && s.queue == [] && multiset(EndedTasks(s.log)) == multiset(c.tasks))
  {
    var s := Exec(c, steps).value;
    CodeMeans(w, c, steps, code);
    ThrownByTask(w, c, steps);
    forall t | t in EndedTasks(s.log) && w.result(t).Some?
      ensures Event.Recorded(t, w.result(t).value) in s.log || (w.quits && !s.cont)
    {
      RecordedExactly(w, c, steps, t, w.result(t).value);
    }
    if c.cont && Clean(w, c.tasks) {
      CleanRun(w, c, steps);
    }
  }
}
