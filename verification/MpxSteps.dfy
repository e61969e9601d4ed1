/** What each turn of the script scheduler of mpx keeps: the steps of Mpx on values. */
module MpxSteps {
  import opened Wrappers
  import Sequences
  import opened TaskProtocol
  import opened TaskGuarantees
  import opened TaskOutcomes
  import opened MpxScripts
  import ReturnCodes

  datatype Failure = BadConcurrency(given: int) | TaskThrew(exn: Exn)

  /** A script to run, with what its statements do. */
  datatype Setup = Setup(script: seq<Statement>, maxList: set<string>, parallelism: int, world: World)

  predicate Sound(script: seq<Statement>, maxList: set<string>, width: nat, log: seq<Event>) {
    && Ordered(script, maxList, log) && CutShort(log) && Narrow(log, width) && InFlight(log) == 0
    && Sequences.NoDup(EndedTasks(log)) && (forall t <- EndedTasks(log) :: Runs(script, t))
  }

  /** At statement i, with `queue` waiting. */
  predicate Pending(script: seq<Statement>, maxList: set<string>, log: seq<Event>, queue: seq<Task>, i: nat, cont: bool) {
    && Within(log, 0, i) && (Broken in log ==> !cont)
    && Sequences.NoDup(queue) && (forall t <- queue :: t < i)
    && (cont ==> |queue| <= i && CaughtUp(script, maxList, log, queue, i - |queue|, i))
  }

  /** While nothing is cancelled, all statements below lo have been run and the queue holds the others. */
  predicate CaughtUp(script: seq<Statement>, maxList: set<string>, log: seq<Event>, queue: seq<Task>, lo: nat, i: nat)
    requires lo <= i
  {
    && Within(log, 0, lo) && queue == Range(lo, i)
    && (forall t :: 0 <= t < lo && Runs(script, t) ==> t in EndedTasks(log))
    && (lo < i ==> SameRun(script, maxList, lo, i - 1))
  }

  /** A run of consecutive log entries, all about statements lo to hi - 1, is put behind a sound log. */
  lemma SoundConcat(script: seq<Statement>, maxList: set<string>, width: nat, a: seq<Event>, b: seq<Event>, lo: nat, hi: nat)
    requires Sound(script, maxList, width, a) && Within(a, 0, lo) && Within(b, lo, hi)
    requires lo <= hi && (hi <= lo + 1 || SameRun(script, maxList, lo, hi - 1))
    requires CutShort(b) && Narrow(b, width) && InFlight(b) == 0 && (Broken in a ==> StartedTasks(b) == [])
    requires Sequences.NoDup(EndedTasks(b)) && forall t <- EndedTasks(b) :: lo <= t < hi && Runs(script, t)
    ensures Sound(script, maxList, width, a + b) && Within(a + b, 0, hi)
    ensures EndedTasks(a + b) == EndedTasks(a) + EndedTasks(b)
  {
    Concat(a, b);
    OrderedConcat(script, maxList, a, b, lo, hi);
    NarrowConcat(a, b, width);
    CutShortConcat(a, b);
    EndedWithin(a, lo);
    JoinDistinct(EndedTasks(a), EndedTasks(b), lo);
  }

  lemma JoinDistinct(xs: seq<Task>, ys: seq<Task>, lo: nat)
    requires Sequences.NoDup(xs) && Sequences.NoDup(ys) && (forall t <- xs :: t < lo) && (forall t <- ys :: lo <= t)
    ensures Sequences.NoDup(xs + ys) && forall t <- xs + ys :: t in xs || t in ys
  {
    assert forall i :: 0 <= i < |xs| ==> xs[i] in xs;
    assert forall i :: 0 <= i < |ys| ==> ys[i] in ys;
  }

  lemma EndedWithin(log: seq<Event>, hi: nat)
    requires Within(log, 0, hi)
    ensures forall t <- EndedTasks(log) :: t < hi
  {
    if log != [] {
      var init := log[..|log| - 1];
      assert forall p :: 0 <= p < |init| ==> init[p] == log[p];
      EndedWithin(init, hi);
    }
  }

  lemma HereCounts(t: Task)
    ensures InFlight([]) == 0 && InFlight([Started(t)]) == 1 && InFlight([Started(t), Broken]) == 1
    ensures StartedTasks([Broken, Ended(t)]) == []
    ensures StartedTasks([Started(t), Ended(t)]) == [t] && StartedTasks([Started(t), Broken, Ended(t)]) == [t]
    ensures InFlight([Started(t), Ended(t)]) == 0 && EndedTasks([Started(t), Ended(t)]) == [t]
    ensures InFlight([Started(t), Broken, Ended(t)]) == 0 && EndedTasks([Started(t), Broken, Ended(t)]) == [t]
  {
    var s, b := [Started(t)], [Started(t), Broken];
    TasksSnoc([], Started(t));
    TasksSnoc(s, Broken);
    TasksSnoc(s, Ended(t));
    TasksSnoc(b, Ended(t));
    TasksSnoc([Broken], Ended(t));
    assert [] + s == s && s + [Broken] == b && s + [Ended(t)] == [Started(t), Ended(t)];
    assert b + [Ended(t)] == [Started(t), Broken, Ended(t)] && [Broken] + [Ended(t)] == [Broken, Ended(t)];
  }

  lemma HereFacts(t: Task, seen: seq<Event>)
    requires seen == [] || seen == [Started(t), Ended(t)] || seen == [Started(t), Broken, Ended(t)]
    ensures Within(seen, t, t + 1) && CutShort(seen) && Narrow(seen, 1) && InFlight(seen) == 0
    ensures EndedTasks(seen) == (if seen == [] then [] else [t]) && AllLate(seen)
  {
    HereCounts(t);
    forall i | 0 <= i <= |seen| ensures InFlight(seen[..i]) <= 1 {
      assert i == 0 ==> seen[..i] == [];
      assert i == 1 ==> seen[..i] == [Started(t)];
      assert i == |seen| ==> seen[..i] == seen;
      assert i == 2 && |seen| == 3 ==> seen[..i] == [Started(t), Broken];
    }
    assert |seen| == 3 ==> seen[1..] == [Broken, Ended(t)];
  }

  lemma SignalFacts(seen: seq<Event>)
    requires seen == [] || seen == [Broken]
    ensures Within(seen, 0, 0) && CutShort(seen) && Narrow(seen, 1) && InFlight(seen) == 0
    ensures EndedTasks(seen) == [] && StartedTasks(seen) == []
  {
  }

  /** Slow workers let the first statements of the queue start at once. */
  lemma QueueFacts(c: Call, seen: seq<Event>, lo: nat)
    requires c.tasks == Range(lo, lo + |c.tasks|) && Starts(c.tasks, AtOnce(c)) <= seen
    ensures StartsAt(seen, 0, lo, Few(c.degree, |c.tasks|))
  {
    forall t: nat | lo <= t < lo + AtOnce(c) ensures seen[0 + (t - lo)] == Started(t) {
      assert Starts(c.tasks, AtOnce(c))[t - lo] == Started(c.tasks[t - lo]);
    }
  }

  function Width(parallelism: int): nat {
    if parallelism > 1 then parallelism else 1
  }

  lemma FlushFacts(script: seq<Statement>, maxList: set<string>, c: Call,
                   log: seq<Event>, seen: seq<Event>, rest: seq<Task>, cont: bool, i: nat)
    requires c.degree > 0 && i <= |script|
    requires Sound(script, maxList, c.degree, log) && Pending(script, maxList, log, c.tasks, i, c.cont)
    requires CallLog(c, rest, seen, cont)
    ensures Sound(script, maxList, c.degree, log + seen)
    ensures Pending(script, maxList, log + seen, rest, i, cont) && (cont ==> rest == [])
  {
    var lo := if c.cont then i - |c.tasks| else 0;
    Segment(c, rest, seen, cont, lo, i);
    RestDistinct(c.tasks, StartedTasks(seen), rest);
    if c.cont {
      assert forall t <- EndedTasks(seen) :: Parallel(script, maxList, t);
      SoundConcat(script, maxList, c.degree, log, seen, lo, i);
      if cont {
        forall t | 0 <= t < i && Runs(script, t) ensures t in EndedTasks(log + seen) {
          assert t < lo || c.tasks[t - lo] == t;
        }
      }
    } else {
      SoundConcat(script, maxList, c.degree, log, seen, i, i);
    }
  }

  lemma RestDistinct(tasks: seq<Task>, started: seq<Task>, rest: seq<Task>)
    requires tasks == started + rest && Sequences.NoDup(tasks)
    ensures Sequences.NoDup(rest) && forall t <- rest :: t in tasks
  {
    assert forall i :: 0 <= i < |rest| ==> rest[i] == tasks[|started| + i];
  }

  /** A statement of the program before it, with something queued, belongs to the queued run. */
  lemma JoinsRun(script: seq<Statement>, maxList: set<string>, log: seq<Event>, queue: seq<Task>, i: nat, cont: bool)
    requires Pending(script, maxList, log, queue, i, cont) && i < |script|
    requires cont && queue != [] ==> script[i].program == script[i - 1].program
    ensures cont && queue != [] ==> Parallel(script, maxList, i)
  {
    assert cont && queue != [] ==> Parallel(script, maxList, i - 1);
  }

  lemma Skip(script: seq<Statement>, maxList: set<string>, log: seq<Event>, queue: seq<Task>, i: nat, cont: bool)
    requires Pending(script, maxList, log, queue, i, cont) && i < |script| && !Runs(script, i)
    requires cont && queue != [] ==> script[i].program == script[i - 1].program
    ensures Pending(script, maxList, log, queue, i + 1, cont) && (cont ==> queue == [])
  {
    JoinsRun(script, maxList, log, queue, i, cont);
  }

  lemma Enqueue(script: seq<Statement>, maxList: set<string>, log: seq<Event>, queue: seq<Task>, i: nat, cont: bool)
    requires Pending(script, maxList, log, queue, i, cont) && Parallel(script, maxList, i)
    requires cont && queue != [] ==> script[i].program == script[i - 1].program
    ensures Pending(script, maxList, log, queue + [i], i + 1, cont)
  {
    var queue' := queue + [i];
    assert forall j :: 0 <= j < |queue| ==> queue[j] in queue;
    if cont {
      assert queue' == Range(i - |queue|, i + 1);
      assert queue != [] ==> Parallel(script, maxList, i - 1);
    }
  }

  lemma Here(script: seq<Statement>, maxList: set<string>, width: nat, log: seq<Event>, seen: seq<Event>,
             queue: seq<Task>, i: nat, cont': bool)
    requires width > 0 && Sound(script, maxList, width, log) && Pending(script, maxList, log, queue, i, true)
    requires Runs(script, i) && !Parallel(script, maxList, i)
    requires queue != [] ==> script[i].program == script[i - 1].program
    requires Within(seen, i, i + 1) && CutShort(seen) && Narrow(seen, width) && InFlight(seen) == 0
    requires EndedTasks(seen) == [i] && (Broken in seen ==> !cont')
    ensures Sound(script, maxList, width, log + seen)
    ensures Pending(script, maxList, log + seen, queue, i + 1, cont') && queue == []
  {
    JoinsRun(script, maxList, log, queue, i, true);
    SoundConcat(script, maxList, width, log, seen, i, i + 1);
    HereRest(script, maxList, log, seen, queue, i, cont');
  }

  lemma HereRest(script: seq<Statement>, maxList: set<string>, log: seq<Event>, seen: seq<Event>,
                 queue: seq<Task>, i: nat, cont': bool)
    requires Pending(script, maxList, log, queue, i, true) && queue == []
    requires Within(log + seen, 0, i + 1) && (Broken in seen ==> !cont')
    requires EndedTasks(log + seen) == EndedTasks(log) + EndedTasks(seen) && (cont' ==> EndedTasks(seen) == [i])
    ensures Pending(script, maxList, log + seen, queue, i + 1, cont')
  {
    if cont' {
      assert queue == Range(i + 1, i + 1);
    }
  }

  lemma RanHere(script: seq<Statement>, maxList: set<string>, width: nat, log: seq<Event>, seen: seq<Event>,
                queue: seq<Task>, i: nat, cont': bool)
    requires width > 0 && Sound(script, maxList, width, log) && Pending(script, maxList, log, queue, i, true)
    requires Runs(script, i) && !Parallel(script, maxList, i)
    requires queue != [] ==> script[i].program == script[i - 1].program
    requires seen == if cont' then [Started(i), Ended(i)] else [Started(i), Broken, Ended(i)]
    ensures Sound(script, maxList, width, log + seen)
    ensures Pending(script, maxList, log + seen, queue, i + 1, cont') && queue == []
    ensures AllLate(log) ==> AllLate(log + seen)
  {
    HereFacts(i, seen);
    LateConcat(log, seen);
    Here(script, maxList, width, log, seen, queue, i, cont');
  }

  lemma HereReport(w: World, seen: seq<Event>, i: nat, code: ReturnCodes.Word, cont': bool)
    requires seen == if cont' then [Started(i), Ended(i)] else [Started(i), Broken, Ended(i)]
    requires (Cancels(w, i) || !w.signals) ==> (!cont' <==> Cancels(w, i))
    ensures Report(w, seen, Status(true, code), Status(cont', code))
    ensures EndedTasks(seen) == [i]
  {
    HereCounts(i);
    assert StartedTasks(seen) == [i] && EndedTasks(seen) == [i];
    assert Broken in seen <==> !cont' by {
      assert !cont' ==> seen[1] == Broken;
    }
    assert forall e <- seen :: !e.Recorded?;
  }

  // Where the scheduler stands.

  /** A failure is the refusal of the degree, or an exception of a statement that ran. */
  ghost predicate FailsRightly(r: Result<(), Failure>, w: World, parallelism: int, log: seq<Event>) {
    match r
    case Ok(_) => true
    case Err(BadConcurrency(n)) => n == parallelism <= 0
    case Err(TaskThrew(e)) => exists t <- EndedTasks(log) :: w.result(t) == Some(e)
  }

  lemma FailsLater(r: Result<(), Failure>, w: World, parallelism: int, a: seq<Event>, b: seq<Event>)
    requires FailsRightly(r, w, parallelism, b)
    ensures FailsRightly(r, w, parallelism, a + b)
  {
    Concat(a, b);
    assert forall t <- EndedTasks(b) :: t in EndedTasks(a + b);
  }

  /** At statement i, with `queue` waiting, which while nothing is cancelled begins where a run begins. */
  ghost predicate Queued(u: Setup, log: seq<Event>, queue: seq<Task>, i: nat, cont: bool) {
    && Sound(u.script, u.maxList, Width(u.parallelism), log)
    && Pending(u.script, u.maxList, log, queue, i, cont)
    && AllLate(log)
    && (cont ==> RunBegins(u.script, u.maxList, i - |queue|))
    && (cont && u.world.slow ==> RunsMultiplexed(u.script, u.maxList, Width(u.parallelism), log, i - |queue|))
  }

  /** Between two turns of the loop. */
  ghost predicate AtStatement(u: Setup, log: seq<Event>, queue: seq<Task>, i: nat, cont: bool) {
    && Queued(u, log, queue, i, cont)
    && (cont && queue != [] && i < |u.script| ==> u.script[i].program == u.script[i - 1].program)
  }

  /** After some turns that led from status s0 to s, or failed. */
  ghost predicate After(u: Setup, r: Result<(), Failure>, log: seq<Event>, queue: seq<Task>, i: nat, s0: Status, s: Status) {
    && Sound(u.script, u.maxList, Width(u.parallelism), log)
    && Report(u.world, log, s0, s)
    && FailsRightly(r, u.world, u.parallelism, log)
    && (r.Ok? ==> AtStatement(u, log, queue, i, s.cont))
  }

  lemma StepHeard(u: Setup, log: seq<Event>, queue: seq<Task>, i: nat, s0: Status, s: Status, seen: seq<Event>, s': Status)
    requires After(u, Ok(()), log, queue, i, s0, s) && s'.code == s.code
    requires (seen == [] && s' == s) || (seen == [Broken] && !s'.cont && u.world.signals)
    ensures After(u, Ok(()), log + seen, queue, i, s0, s')
  {
    if seen == [] {
      assert log + seen == log;
    } else {
      SignalFacts(seen);
      SoundConcat(u.script, u.maxList, Width(u.parallelism), log, seen, i, i);
      LateConcat(log, seen);
      assert Report(u.world, seen, s, s');
      ReportConcat(u.world, log, seen, s0, s, s');
    }
  }

  lemma StepSkip(u: Setup, log: seq<Event>, queue: seq<Task>, i: nat, s0: Status, s: Status)
    requires i < |u.script| && After(u, Ok(()), log, queue, i, s0, s) && !Runs(u.script, i)
    ensures After(u, Ok(()), log, queue, i + 1, s0, s)
  {
    Skip(u.script, u.maxList, log, queue, i, s.cont);
    PassOther(u, log, log, queue, i, s.cont, s.cont);
  }

  /** Behind a statement that is not parallel. */
  lemma PassOther(u: Setup, log: seq<Event>, log': seq<Event>, queue: seq<Task>, i: nat, cont: bool, cont': bool)
    requires i < |u.script| && AtStatement(u, log, queue, i, cont) && !Parallel(u.script, u.maxList, i)
    requires log <= log' && Sound(u.script, u.maxList, Width(u.parallelism), log') && AllLate(log')
    requires Pending(u.script, u.maxList, log', queue, i + 1, cont') && (cont' ==> cont && queue == [])
    ensures AtStatement(u, log', queue, i + 1, cont')
  {
    if cont' && u.world.slow {
      RunsMultiplexedGrows(u.script, u.maxList, Width(u.parallelism), log, log', i);
      NoRunEnds(u.script, u.maxList, Width(u.parallelism), log', i);
    }
  }

  /** A statement that is followed by one of its run, or by nothing, is queued. */
  lemma StepQueue(u: Setup, log: seq<Event>, queue: seq<Task>, i: nat, s0: Status, s: Status)
    requires i < |u.script| && After(u, Ok(()), log, queue, i, s0, s) && Parallel(u.script, u.maxList, i)
    requires i + 1 == |u.script| || u.script[i].program == u.script[i + 1].program
    ensures After(u, Ok(()), log, queue + [i], i + 1, s0, s)
  {
    Enqueue(u.script, u.maxList, log, queue, i, s.cont);
  }

  /** The queue of a barrier that finds the flag up is a maximal run. */
  lemma ToBarrier(u: Setup, log: seq<Event>, queue: seq<Task>, i: nat, s0: Status, s: Status)
    requires i < |u.script| && After(u, Ok(()), log, queue, i, s0, s) && Parallel(u.script, u.maxList, i)
    requires i + 1 < |u.script| && u.script[i].program != u.script[i + 1].program
    ensures Queued(u, log, queue + [i], i + 1, s.cont) && Report(u.world, log, s0, s)
    ensures s.cont ==> |queue| <= i && MaximalRun(u.script, u.maxList, i - |queue|, i + 1)
  {
    Enqueue(u.script, u.maxList, log, queue, i, s.cont);
    assert s.cont && queue != [] ==> Parallel(u.script, u.maxList, i - 1);
  }

  lemma StepHere(u: Setup, log: seq<Event>, queue: seq<Task>, i: nat, s0: Status, s: Status, seen: seq<Event>, s': Status)
    requires i < |u.script| && After(u, Ok(()), log, queue, i, s0, s)
    requires Runs(u.script, i) && !Parallel(u.script, u.maxList, i)
    requires s.cont && seen == if s'.cont then [Started(i), Ended(i)] else [Started(i), Broken, Ended(i)]
    requires s'.code == s.code && (Cancels(u.world, i) || !u.world.signals ==> (!s'.cont <==> Cancels(u.world, i)))
    ensures After(u, Ok(()), log + seen, queue, i + 1, s0, s')
    ensures EndedTasks(log + seen) == EndedTasks(log) + [i]
  {
    RanHere(u.script, u.maxList, Width(u.parallelism), log, seen, queue, i, s'.cont);
    HereReport(u.world, seen, i, s.code, s'.cont);
    ReportConcat(u.world, log, seen, s0, s, s');
    PassOther(u, log, log + seen, queue, i, true, s'.cont);
    Concat(log, seen);
  }

  /** A statement that is not multiplexed is passed over once the flag is down. */
  lemma StepQuit(u: Setup, log: seq<Event>, queue: seq<Task>, i: nat, s0: Status, s: Status)
    requires i < |u.script| && After(u, Ok(()), log, queue, i, s0, s) && !s.cont
    ensures After(u, Ok(()), log, queue, i + 1, s0, s)
  {
  }

  /** A call of vSynchronize on the queue. */
  lemma StepFlush(u: Setup, log: seq<Event>, queue: seq<Task>, i: nat, s0: Status, s: Status, c: Call,
                  thrown: Option<Exn>, seen: seq<Event>, rest: seq<Task>, s': Status)
    requires i <= |u.script| && u.parallelism > 0 && c == Call(u.parallelism, queue, s.cont)
    requires Queued(u, log, queue, i, s.cont) && Report(u.world, log, s0, s)
    requires s.cont && queue != [] ==> MaximalRun(u.script, u.maxList, i - |queue|, i)
    requires CallLog(c, rest, seen, s'.cont) && (thrown == None ==> AllLate(seen))
    requires Report(u.world, seen, s, s')
    requires s.cont && u.world.slow ==> Starts(queue, AtOnce(c)) <= seen
    ensures Sound(u.script, u.maxList, Width(u.parallelism), log + seen) && Report(u.world, log + seen, s0, s')
    ensures thrown == None ==> AtStatement(u, log + seen, rest, i, s'.cont)
    ensures s'.cont ==> rest == []
  {
    assert Sound(u.script, u.maxList, u.parallelism, log + seen)
        && Pending(u.script, u.maxList, log + seen, rest, i, s'.cont) && (s'.cont ==> rest == []) by {
      FlushFacts(u.script, u.maxList, c, log, seen, rest, s'.cont, i);
    }
    assert Report(u.world, log + seen, s0, s') by {
      ReportConcat(u.world, log, seen, s0, s, s');
    }
    if thrown == None {
      LateConcat(log, seen);
      FlushRuns(u, log, queue, i, s, c, seen, s');
      AfterFlush(u, log + seen, rest, i, s'.cont);
    }
  }

  lemma AfterFlush(u: Setup, log: seq<Event>, rest: seq<Task>, i: nat, cont: bool)
    requires Sound(u.script, u.maxList, Width(u.parallelism), log) && Pending(u.script, u.maxList, log, rest, i, cont)
    requires AllLate(log) && (cont ==> rest == [] && RunBegins(u.script, u.maxList, i))
    requires cont && u.world.slow ==> RunsMultiplexed(u.script, u.maxList, Width(u.parallelism), log, i)
    ensures AtStatement(u, log, rest, i, cont)
  {
  }

  lemma FlushRuns(u: Setup, log: seq<Event>, queue: seq<Task>, i: nat, s: Status, c: Call, seen: seq<Event>, s': Status)
    requires i <= |u.script| && u.parallelism > 0 && c == Call(u.parallelism, queue, s.cont)
    requires Queued(u, log, queue, i, s.cont) && (s'.cont ==> s.cont)
    requires s.cont && queue != [] ==> MaximalRun(u.script, u.maxList, i - |queue|, i)
    requires s.cont && u.world.slow ==> Starts(queue, AtOnce(c)) <= seen
    ensures s'.cont ==> RunBegins(u.script, u.maxList, i)
    ensures s'.cont && u.world.slow ==> RunsMultiplexed(u.script, u.maxList, Width(u.parallelism), log + seen, i)
  {
    if s'.cont && u.world.slow {
      RunsBehind(u, log, queue, i - |queue|, i, c, seen);
    }
  }

  lemma RunsBehind(u: Setup, log: seq<Event>, queue: seq<Task>, lo: nat, i: nat, c: Call, seen: seq<Event>)
    requires i <= |u.script| && u.parallelism > 0 && c == Call(u.parallelism, queue, true) && lo + |queue| == i
    requires queue == Range(lo, i) && (queue != [] ==> MaximalRun(u.script, u.maxList, lo, i))
    requires RunsMultiplexed(u.script, u.maxList, Width(u.parallelism), log, lo)
    requires Starts(queue, AtOnce(c)) <= seen
    ensures RunsMultiplexed(u.script, u.maxList, Width(u.parallelism), log + seen, i)
  {
    if queue == [] {
      RunsMultiplexedGrows(u.script, u.maxList, Width(u.parallelism), log, log + seen, i);
    } else {
      assert StartsAt(seen, 0, lo, Few(Width(u.parallelism), i - lo)) by {
        QueueFacts(c, seen, lo);
      }
      RunFlushed(u.script, u.maxList, Width(u.parallelism), log, seen, lo, i);
    }
  }

  // The beginning, the next turn and the end.

  lemma GoesOn(u: Setup, r: Result<(), Failure>, log: seq<Event>, queue: seq<Task>, i: nat, s0: Status, s: Status)
    requires After(u, r, log, queue, i, s0, s) && r.Ok?
    ensures After(u, Ok(()), log, queue, i, s0, s)
  {
  }

  lemma StepStart(u: Setup, s: Status)
    ensures After(u, Ok(()), [], [], 0, s, s)
  {
  }

  /** The queue of the last barrier is a maximal run. */
  lemma AtEnd(u: Setup, log: seq<Event>, queue: seq<Task>, cont: bool)
    requires AtStatement(u, log, queue, |u.script|, cont)
    ensures cont && queue != [] ==> |queue| <= |u.script| && MaximalRun(u.script, u.maxList, |u.script| - |queue|, |u.script|)
  {
  }

  /** What a run of the script may end with. */
  ghost predicate Completed(u: Setup, r: Result<(), Failure>, log: seq<Event>, s: Status, s': Status) {
    && Sound(u.script, u.maxList, Width(u.parallelism), log)
    && Report(u.world, log, s, s')
    && FailsRightly(r, u.world, u.parallelism, log)
    && (r.Ok? ==> u.parallelism > 0 && AllLate(log))
    && (r.Ok? && s'.cont ==> forall t :: Runs(u.script, t) ==> t in EndedTasks(log))
    && (r.Ok? && s'.cont && u.world.slow ==> RunsMultiplexed(u.script, u.maxList, Width(u.parallelism), log, |u.script|))
  }

  lemma Completes(u: Setup, r: Result<(), Failure>, log: seq<Event>, rest: seq<Task>, i: nat, s0: Status, s: Status)
    requires After(u, r, log, rest, i, s0, s) && (r.Ok? ==> i == |u.script| && u.parallelism > 0 && (s.cont ==> rest == []))
    ensures Completed(u, r, log, s0, s)
  {
  }

  /** If no statement that runs throws or cancels, and no signal arrives, nothing fails and nothing is cancelled. */
  lemma CleanScript(u: Setup, r: Result<(), Failure>, log: seq<Event>, s: Status, s': Status)
    requires Report(u.world, log, s, s') && FailsRightly(r, u.world, u.parallelism, log)
    requires forall t <- EndedTasks(log) :: Runs(u.script, t)
    ensures u.parallelism > 0 && s.cont && !u.world.signals &&
            (forall t :: 0 <= t < |u.script| && Runs(u.script, t) ==> u.world.result(t) == None && !u.world.cancels(t)) ==>
              r.Ok? && s'.cont && s'.code == s.code
  {
  }
}
