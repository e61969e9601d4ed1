/** Scripts of mpx (app/mpx/cAppLocal.cpp): which statements run, which may overlap, and what a log says of that. */
module MpxScripts {
  import opened Wrappers
  import Sequences
  import opened TaskProtocol
  import opened TaskGuarantees
  import opened TaskOutcomes
  import ReturnCodes

  datatype Statement = Statement(program: string, arguments: string)

  // What the scheduler distinguishes.

  predicate Comment(program: string) {
    "#" <= program || ";" <= program
  }

  /** A program is a remark if its name begins with one of two characters. */
  lemma CommentMeans(program: string)
    ensures Comment(program) <==> program != "" && program[0] in {'#', ';'}
  {
    assert "#" <= program <==> program != "" && program[0] == "#"[0];
    assert ";" <= program <==> program != "" && program[0] == ";"[0];
  }

  predicate Runs(script: seq<Statement>, i: int) {
    0 <= i < |script| && script[i].program != "" && !Comment(script[i].program)
  }

  predicate Parallel(script: seq<Statement>, maxList: set<string>, i: int) {
    Runs(script, i) && script[i].program in maxList
  }

  /** Statements i to j form part of one run of consecutive parallel statements of one program. */
  predicate SameRun(script: seq<Statement>, maxList: set<string>, i: int, j: int) {
    Parallel(script, maxList, i) &&
    forall k :: i <= k <= j ==> Parallel(script, maxList, k) && script[k].program == script[i].program
  }

  /** The beginning or the end of a task. */
  predicate Edge(e: Event) {
    e.Started? || e.Ended?
  }

  /** Two statements that do not lie in one run never overlap: all of the earlier one precedes all of
      the later one. */
  predicate Ordered(script: seq<Statement>, maxList: set<string>, log: seq<Event>) {
    forall p, q :: (0 <= p < |log| && 0 <= q < |log| && Edge(log[p]) && Edge(log[q]) &&
                    log[p].task < log[q].task && !SameRun(script, maxList, log[p].task, log[q].task)) ==> p < q
  }

  predicate Within(log: seq<Event>, lo: nat, hi: nat) {
    forall p :: 0 <= p < |log| && Edge(log[p]) ==> lo <= log[p].task < hi
  }

  function Range(lo: nat, hi: nat): seq<Task>
    requires lo <= hi
  {
    seq(hi - lo, i requires 0 <= i => lo + i)
  }

  predicate Narrow(log: seq<Event>, width: nat) {
    forall i :: 0 <= i <= |log| ==> InFlight(log[..i]) <= width
  }

  // Logs one behind the other.

  lemma Concat(a: seq<Event>, b: seq<Event>)
    ensures StartedTasks(a + b) == StartedTasks(a) + StartedTasks(b)
    ensures EndedTasks(a + b) == EndedTasks(a) + EndedTasks(b)
  {
    if b == [] {
      assert a + b == a;
    } else {
      var init, e := b[..|b| - 1], b[|b| - 1];
      assert b == init + [e] && a + b == a + init + [e];
      Concat(a, init);
      TasksSnoc(a + init, e);
      TasksSnoc(init, e);
    }
  }

  lemma OrderedConcat(script: seq<Statement>, maxList: set<string>, a: seq<Event>, b: seq<Event>, lo: nat, hi: nat)
    requires Ordered(script, maxList, a) && Within(a, 0, lo) && Within(b, lo, hi)
    requires lo <= hi && (hi <= lo + 1 || SameRun(script, maxList, lo, hi - 1))
    ensures Ordered(script, maxList, a + b) && Within(a + b, 0, hi)
  {
  }

  lemma NarrowConcat(a: seq<Event>, b: seq<Event>, width: nat)
    requires Narrow(a, width) && Narrow(b, width) && InFlight(a) == 0
    ensures Narrow(a + b, width)
  {
    forall i | 0 <= i <= |a + b| ensures InFlight((a + b)[..i]) <= width {
      if i <= |a| {
        assert (a + b)[..i] == a[..i];
      } else {
        assert (a + b)[..i] == a + b[..i - |a|];
        Concat(a, b[..i - |a|]);
      }
    }
  }

  predicate CutShort(log: seq<Event>) {
    forall p :: 0 <= p < |log| && log[p] == Broken ==> |StartedTasks(log[p..])| <= 1
  }

  lemma LateConcat(a: seq<Event>, b: seq<Event>)
    requires AllLate(b)
    ensures AllLate(a) ==> AllLate(a + b)
  {
    if AllLate(a) {
      forall p | 0 <= p < |a + b| && (a + b)[p].Recorded? ensures LateAt(a + b, p) {
        LateAtConcat(a, b, p);
      }
    }
  }

  lemma LateAtConcat(a: seq<Event>, b: seq<Event>, p: nat)
    requires p < |a + b| && if p < |a| then LateAt(a, p) else LateAt(b, p - |a|)
    ensures LateAt(a + b, p)
  {
    if p < |a| {
      var q :| 0 <= q < p && a[q] == Tested && forall m :: q < m <= p ==> !a[m].Started?;
      assert (a + b)[q] == Tested;
    } else {
      var q :| 0 <= q < p - |a| && b[q] == Tested && forall m :: q < m <= p - |a| ==> !b[m].Started?;
      assert (a + b)[|a| + q] == Tested;
      assert forall m :: |a| + q < m <= p ==> (a + b)[m] == b[m - |a|];
    }
  }

  lemma CutShortConcat(a: seq<Event>, b: seq<Event>)
    requires CutShort(a) && CutShort(b) && (Broken in a ==> StartedTasks(b) == [])
    ensures CutShort(a + b)
  {
    forall p | 0 <= p < |a + b| && (a + b)[p] == Broken ensures |StartedTasks((a + b)[p..])| <= 1 {
      CutAt(a, b, p);
    }
  }

  lemma CutAt(a: seq<Event>, b: seq<Event>, p: nat)
    requires CutShort(a) && CutShort(b) && (Broken in a ==> StartedTasks(b) == [])
    requires p < |a + b| && (a + b)[p] == Broken
    ensures |StartedTasks((a + b)[p..])| <= 1
  {
    if p < |a| {
      assert (a + b)[p..] == a[p..] + b && a[p] in a;
      Concat(a[p..], b);
    } else {
      assert (a + b)[p..] == b[p - |a|..] && b[p - |a|] == Broken;
    }
  }

  lemma EdgesListed(log: seq<Event>)
    ensures forall p :: 0 <= p < |log| && log[p].Started? ==> log[p].task in StartedTasks(log)
    ensures forall p :: 0 <= p < |log| && log[p].Ended? ==> log[p].task in EndedTasks(log)
  {
    if log != [] {
      var init, e := log[..|log| - 1], log[|log| - 1];
      EdgesListed(init);
      assert log == init + [e];
      TasksSnoc(init, e);
    }
  }

  /** What one call of vSynchronize adds to the log. */
  predicate CallLog(c: Call, rest: seq<Task>, log: seq<Event>, cont: bool) {
    && Narrow(log, c.degree) && InFlight(log) == 0 && CutShort(log)
    && Sequences.NoDup(c.tasks) && c.tasks == StartedTasks(log) + rest
    && Sequences.NoDup(EndedTasks(log)) && (forall t <- EndedTasks(log) :: t in c.tasks)
    && (!c.cont ==> !cont && StartedTasks(log) == [] && EndedTasks(log) == [])
    && (Broken in log ==> !cont)
    && (cont ==> rest == [] && forall t <- c.tasks :: t in EndedTasks(log))
  }

  lemma CallMeans(c: Call, s: State)
    requires Reachable(c, s) && s.main.Finished?
    ensures CallLog(c, s.queue, s.log, s.cont) && (s.main == Finished(None) ==> AllLate(s.log))
  {
    TokensConserved(c, s);
    StartOrder(c, s);
    Completion(c, s);
    StopsSoon(c, s);
    SameTasks(StartedTasks(s.log), EndedTasks(s.log));
    if s.main == Finished(None) {
      SilentMeansLate(c, s);
    }
  }

  /** The tasks of the call are the statements lo to hi - 1. */
  lemma Segment(c: Call, rest: seq<Task>, log: seq<Event>, cont: bool, lo: nat, hi: nat)
    requires CallLog(c, rest, log, cont) && forall t <- c.tasks :: lo <= t < hi
    ensures Within(log, lo, hi) && (!c.cont ==> Within(log, 0, 0))
  {
    assert forall t <- StartedTasks(log) :: t in c.tasks;
    EdgesWithin(log, lo, hi);
  }

  lemma EdgesWithin(log: seq<Event>, lo: nat, hi: nat)
    requires forall t <- StartedTasks(log) :: lo <= t < hi
    requires forall t <- EndedTasks(log) :: lo <= t < hi
    ensures Within(log, lo, hi)
    ensures StartedTasks(log) == [] && EndedTasks(log) == [] ==> Within(log, 0, 0)
  {
    EdgesListed(log);
  }

  // Maximal runs.

  /** No run of parallel statements of one program reaches from before lo to lo. */
  predicate RunBegins(script: seq<Statement>, maxList: set<string>, lo: int) {
    lo == 0 || lo == |script| || !SameRun(script, maxList, lo - 1, lo)
  }

  /** Statements lo to hi - 1 form a run that no statement can be added to. */
  predicate MaximalRun(script: seq<Statement>, maxList: set<string>, lo: nat, hi: nat) {
    && lo < hi <= |script| && SameRun(script, maxList, lo, hi - 1)
    && RunBegins(script, maxList, lo) && RunBegins(script, maxList, hi)
  }

  /** Two maximal runs that share a statement are one. */
  lemma RunsAreDisjoint(script: seq<Statement>, maxList: set<string>, lo: nat, hi: nat, lo': nat, hi': nat)
    requires MaximalRun(script, maxList, lo, hi) && MaximalRun(script, maxList, lo', hi') && lo < hi' && lo' < hi
    ensures lo == lo' && hi == hi'
  {
    if lo < lo' {
      assert SameRun(script, maxList, lo' - 1, lo');
    } else if lo' < lo {
      assert SameRun(script, maxList, lo - 1, lo);
    }
    if hi < hi' {
      assert SameRun(script, maxList, hi - 1, hi);
    } else if hi' < hi {
      assert SameRun(script, maxList, hi' - 1, hi');
    }
  }

  /** As many statements of the run as there may be tasks at once start one directly behind the other. */
  ghost predicate Multiplexed(width: nat, log: seq<Event>, lo: nat, hi: nat)
    requires lo < hi
  {
    var k := Few(width, hi - lo);
    exists p: nat :: StartsAt(log, p, lo, k)
  }

  function Few(width: nat, n: nat): nat {
    if width < n then width else n
  }

  /** Behind the first p events statements lo to lo + k - 1 start one directly behind the other. */
  predicate StartsAt(log: seq<Event>, p: nat, lo: nat, k: nat) {
    p + k <= |log| && forall t: nat :: lo <= t < lo + k ==> log[p + (t - lo)] == Started(t)
  }

  /** All maximal runs that end at statement k or before are multiplexed. */
  ghost predicate RunsMultiplexed(script: seq<Statement>, maxList: set<string>, width: nat, log: seq<Event>, k: int) {
    forall lo: nat, hi: nat :: hi <= k && MaximalRun(script, maxList, lo, hi) ==> Multiplexed(width, log, lo, hi)
  }

  lemma MultiplexedGrows(width: nat, a: seq<Event>, b: seq<Event>, lo: nat, hi: nat)
    requires lo < hi && Multiplexed(width, a, lo, hi) && a <= b
    ensures Multiplexed(width, b, lo, hi)
  {
    var k := Few(width, hi - lo);
    var p :| StartsAt(a, p, lo, k);
    assert StartsAt(b, p, lo, k);
  }

  lemma RunsMultiplexedGrows(script: seq<Statement>, maxList: set<string>, width: nat, a: seq<Event>, b: seq<Event>, k: int)
    requires RunsMultiplexed(script, maxList, width, a, k) && a <= b
    ensures RunsMultiplexed(script, maxList, width, b, k)
  {
    forall lo: nat, hi: nat | hi <= k && MaximalRun(script, maxList, lo, hi) ensures Multiplexed(width, b, lo, hi) {
      MultiplexedGrows(width, a, b, lo, hi);
    }
  }

  /** A maximal run was given to vSynchronize as a whole. */
  lemma RunFlushed(script: seq<Statement>, maxList: set<string>, width: nat, a: seq<Event>, b: seq<Event>, lo: nat, hi: nat)
    requires RunsMultiplexed(script, maxList, width, a, lo) && MaximalRun(script, maxList, lo, hi)
    requires StartsAt(b, 0, lo, Few(width, hi - lo))
    ensures RunsMultiplexed(script, maxList, width, a + b, hi)
  {
    forall lo': nat, hi': nat | hi' <= hi && MaximalRun(script, maxList, lo', hi') ensures Multiplexed(width, a + b, lo', hi') {
      if hi' <= lo {
        MultiplexedGrows(width, a, a + b, lo', hi');
      } else {
        RunsAreDisjoint(script, maxList, lo, hi, lo', hi');
        assert StartsAt(a + b, |a|, lo, Few(width, hi - lo));
      }
    }
  }

  /** No maximal run ends with a statement that is not parallel. */
  lemma NoRunEnds(script: seq<Statement>, maxList: set<string>, width: nat, log: seq<Event>, i: nat)
    requires RunsMultiplexed(script, maxList, width, log, i) && !Parallel(script, maxList, i)
    ensures RunsMultiplexed(script, maxList, width, log, i + 1)
  {
  }

  // What a script does to the return code and the cancel flag.

  lemma ReportConcat(w: World, a: seq<Event>, b: seq<Event>, s: Status, s': Status, s'': Status)
    requires Report(w, a, s, s') && Report(w, b, s', s'')
    ensures Report(w, a + b, s, s'')
  {
    Concat(a, b);
    assert forall e <- a :: e in a + b;
    assert forall e <- b :: e in a + b;
    assert forall e <- a + b :: e in a || e in b;
    assert forall t <- EndedTasks(a) :: t in EndedTasks(a + b);
    assert forall t <- EndedTasks(b) :: t in EndedTasks(a + b);
    assert forall t <- EndedTasks(a + b) :: t in EndedTasks(a) || t in EndedTasks(b);
  }
}
