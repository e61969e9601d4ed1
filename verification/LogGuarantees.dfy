/** What every interleaving of threads that write to log streams guarantees, if no chain is written
    inside another. */
module LogGuarantees {
  import opened Wrappers
  import Sequences
  import opened LogProtocol

  ghost predicate Reachable(c: Setup, s: State) {
    ValidSetup(c) && Shape(c, s) && exists steps :: Exec(c, steps) == Some(s)
  }

  ghost predicate Inv(c: Setup, s: State) {
    && ValidSetup(c) && OwnersOk(c, s)
    && (forall x :: 0 <= x < c.streams ==> TextOk(c, s, x))
    && (forall x, t :: 0 <= x < c.streams && 0 <= t < |s.threads| ==> OrderOk(c, s, x, t))
    && (forall k :: 0 <= k && k + 1 < |c.registered| ==> PairOk(c, s, k))
  }

  lemma InitInv(c: Setup)
    requires ValidSetup(c)
    ensures Inv(c, Init(c))
  {
    InitOk(c);
    forall x: Stream | 0 <= x < c.streams ensures OwnerOk(c, Init(c), x) {
    }
    forall k: nat | k + 1 < |c.registered| ensures PairOk(c, Init(c), k) {
      assert c.registered[k] in c.registered && c.registered[k + 1] in c.registered;
    }
  }

  lemma StepInv(c: Setup, s: State, t: nat)
    requires Sequences.NoDup(c.registered) && Inv(c, s) && Enabled(c, s, t)
    ensures Inv(c, Apply(c, s, t))
  {
    OwnersStep(c, s, t);
    forall x: Stream | 0 <= x < c.streams ensures TextOk(c, Apply(c, s, t), x) {
      TextStep(c, s, t, x);
    }
    forall x: Stream, u: nat | 0 <= x < c.streams && 0 <= u < |s.threads| ensures OrderOk(c, Apply(c, s, t), x, u) {
      OrderStep(c, s, t, x, u);
    }
    forall k: nat | k + 1 < |c.registered| ensures PairOk(c, Apply(c, s, t), k) {
      PairStep(c, s, t, k);
    }
  }

  lemma {:induction false} RunInv(c: Setup, steps: seq<nat>)
    requires ValidSetup(c) && Sequences.NoDup(c.registered) && Exec(c, steps).Some?
    ensures Inv(c, Exec(c, steps).value)
    decreases |steps|
  {
    if steps == [] {
      InitInv(c);
    } else {
      var init := steps[..|steps| - 1];
      RunInv(c, init);
      StepInv(c, Exec(c, init).value, steps[|steps| - 1]);
    }
  }

  lemma ReachableInv(c: Setup, s: State)
    requires Reachable(c, s) && Sequences.NoDup(c.registered)
    ensures Inv(c, s)
  {
    var steps :| Exec(c, steps) == Some(s);
    RunInv(c, steps);
  }

  /** The text of a stream is a sequence of whole chains, and behind them the beginning of the chain
      that holds the stream. */
  lemma NeverMixed(c: Setup, s: State, x: Stream)
    requires Reachable(c, s) && Sequences.NoDup(c.registered) && x < c.streams
    ensures forall g <- s.order[x] :: Known(c, g)
    ensures s.owner[x] == None ==> s.text[x] == Whole(c, s.order[x])
    ensures s.owner[x].Some? ==> s.order[x] != [] && s.owner[x].value < |s.threads|
    ensures s.owner[x].Some? ==>
              var done := |s.order[x]| - 1; var g := s.order[x][done];
              && Known(c, g)
              && g == Grant(s.owner[x].value, s.threads[s.owner[x].value].chain)
              && Whole(c, s.order[x][..done]) <= s.text[x] <= Whole(c, s.order[x][..done]) + c.work[g.thread][g.chain].items
  {
    ReachableInv(c, s);
    assert TextOk(c, s, x) && OwnerOk(c, s, x);
    if s.owner[x].Some? {
      assert HolderOk(c, s, x, s.owner[x].value);
    }
  }

  // Where the chains go.

  /** Chain j of thread t belongs on stream x: it is written to x itself, or to the distributor while x is registered. */
  predicate GoesTo(c: Setup, t: nat, j: nat, x: Stream)
    requires t < |c.work| && j < |c.work[t]|
  {
    match c.work[t][j]
    case One(y, _) => y == x
    case All(_) => x in c.registered
  }

  lemma MineHas(grants: seq<Grant>, t: nat, j: nat)
    ensures j in Mine(grants, t) <==> Grant(t, j) in grants
  {
    if grants != [] {
      var init, last := grants[..|grants| - 1], grants[|grants| - 1];
      assert grants == init + [last];
      MineHas(init, t, j);
    }
  }

  lemma TouchingHas(c: Setup, t: nat, x: Stream, n: nat, j: nat)
    requires t < |c.work| && n <= |c.work[t]|
    ensures j in Touching(c, t, x, n) <==> j < n && GoesTo(c, t, j, x)
  {
    if n > 0 {
      TouchingHas(c, t, x, n - 1, j);
    }
  }

  predicate Ascending(js: seq<nat>) {
    forall i, k :: 0 <= i < k < |js| ==> js[i] < js[k]
  }

  lemma AscendingSnoc(js: seq<nat>, j: nat, more: bool)
    requires Ascending(js) && forall k <- js :: k < j
    ensures Ascending(js + if more then [j] else [])
  {
    assert forall i :: 0 <= i < |js| ==> js[i] in js;
  }

  lemma TouchingAscends(c: Setup, t: nat, x: Stream, n: nat)
    requires t < |c.work| && n <= |c.work[t]|
    ensures Ascending(Touching(c, t, x, n)) && forall j <- Touching(c, t, x, n) :: j < n
  {
    if n > 0 {
      TouchingAscends(c, t, x, n - 1);
      AscendingSnoc(Touching(c, t, x, n - 1), n - 1, x in Targets(c, c.work[t][n - 1]));
    }
  }

  lemma MineAscends(c: Setup, s: State, x: Stream, t: nat)
    requires Shape(c, s) && x < c.streams && t < |s.threads| && OrderOk(c, s, x, t)
    ensures Ascending(Mine(s.order[x], t))
  {
    var th := s.threads[t];
    TouchingAscends(c, t, x, th.chain);
    AscendingSnoc(Touching(c, t, x, th.chain), th.chain, Acquired(c, t, th, x));
  }

  lemma GrantIff(c: Setup, s: State, x: Stream, t: nat, j: nat)
    requires ValidSetup(c) && Shape(c, s) && x < c.streams && t < |s.threads| && OrderOk(c, s, x, t)
    ensures var th := s.threads[t];
            && th.chain <= |c.work[t]|
            && (Grant(t, j) in s.order[x] ==> j < |c.work[t]| && j <= th.chain && GoesTo(c, t, j, x))
            && (j < th.chain && GoesTo(c, t, j, x) ==> Grant(t, j) in s.order[x])
  {
    var th := s.threads[t];
    MineHas(s.order[x], t, j);
    TouchingHas(c, t, x, th.chain, j);
    if Acquired(c, t, th, x) {
      assert x in Goals(c, t, th) && GoesTo(c, t, th.chain, x);
    }
  }

  /** The chains of thread t stand in their order, each at most once. */
  predicate InTurn(grants: seq<Grant>, t: nat) {
    forall i, k :: 0 <= i < k < |grants| && grants[i].thread == t && grants[k].thread == t ==> grants[i].chain < grants[k].chain
  }

  lemma MineInTurn(grants: seq<Grant>, t: nat)
    requires Ascending(Mine(grants, t))
    ensures InTurn(grants, t)
  {
    if grants != [] {
      var init, last := grants[..|grants| - 1], grants[|grants| - 1];
      var before := Mine(init, t);
      assert forall i :: 0 <= i < |before| ==> Mine(grants, t)[i] == before[i];
      MineInTurn(init, t);
      if last.thread == t {
        forall i | 0 <= i < |init| && init[i].thread == t ensures init[i].chain < last.chain {
          MineHas(init, t, init[i].chain);
          assert init[i] in init;
          var k :| 0 <= k < |before| && before[k] == init[i].chain;
          assert Mine(grants, t)[k] < Mine(grants, t)[|before|];
        }
      }
      assert forall i :: 0 <= i < |init| ==> init[i] == grants[i];
    }
  }

  ghost predicate Contains(text: seq<string>, items: seq<string>) {
    exists a: seq<string>, b: seq<string> :: text == a + items + b
  }

  lemma WholeContains(c: Setup, grants: seq<Grant>, g: Grant)
    requires (forall h <- grants :: Known(c, h)) && g in grants
    ensures Contains(Whole(c, grants), c.work[g.thread][g.chain].items)
  {
    var init, last := grants[..|grants| - 1], grants[|grants| - 1];
    var items, before := c.work[g.thread][g.chain].items, Whole(c, grants[..|grants| - 1]);
    if g == last {
      assert before + items == before + items + [];
    } else {
      assert grants == init + [last];
      WholeContains(c, init, g);
      var a, b :| before == a + items + b;
      assert last in grants && Known(c, last);
      var more := c.work[last.thread][last.chain].items;
      assert before + more == a + items + (b + more);
    }
  }

  lemma ContainsMore(before: seq<string>, text: seq<string>, items: seq<string>)
    requires Contains(before, items) && before <= text
    ensures Contains(text, items)
  {
    var a, b :| before == a + items + b;
    var rest := text[|before|..];
    assert text == a + items + (b + rest);
  }

  /** What was completely written to a stream stands there in one piece. */
  lemma WrittenWhole(c: Setup, s: State, x: Stream, t: nat, j: nat)
    requires Reachable(c, s) && Sequences.NoDup(c.registered) && x < c.streams && t < |c.work|
    requires j < s.threads[t].chain && j < |c.work[t]| && GoesTo(c, t, j, x)
    ensures Contains(s.text[x], c.work[t][j].items)
  {
    var o, items := s.order[x], c.work[t][j].items;
    assert Grant(t, j) in o by {
      EachChainOnce(c, s, x, t);
    }
    NeverMixed(c, s, x);
    if s.owner[x] == None {
      WholeContains(c, o, Grant(t, j));
    } else {
      var init, last := o[..|o| - 1], o[|o| - 1];
      assert o == init + [last] && last != Grant(t, j);
      WholeContains(c, init, Grant(t, j));
      ContainsMore(Whole(c, init), s.text[x], items);
    }
  }

  /** At any time a stream has been locked for exactly those completed chains of a thread that belong on it, once for
      each and in their order; of the later chains only the current one may be on it, if it belongs there. */
  lemma EachChainOnce(c: Setup, s: State, x: Stream, t: nat)
    requires Reachable(c, s) && Sequences.NoDup(c.registered) && x < c.streams && t < |c.work|
    ensures s.threads[t].chain <= |c.work[t]| && InTurn(s.order[x], t)
    ensures forall j: nat :: j < s.threads[t].chain ==> (Grant(t, j) in s.order[x] <==> GoesTo(c, t, j, x))
    ensures forall j: nat :: Grant(t, j) in s.order[x] ==> j < |c.work[t]| && j <= s.threads[t].chain && GoesTo(c, t, j, x)
  {
    ReachableInv(c, s);
    assert OrderOk(c, s, x, t);
    MineAscends(c, s, x, t);
    MineInTurn(s.order[x], t);
    forall j: nat
      ensures j < s.threads[t].chain ==> (Grant(t, j) in s.order[x] <==> GoesTo(c, t, j, x))
      ensures Grant(t, j) in s.order[x] ==> j < |c.work[t]| && j <= s.threads[t].chain && GoesTo(c, t, j, x)
    {
      GrantIff(c, s, x, t, j);
    }
  }

  /** A thread locks and unlocks the registered streams one after the other, from the first to the last, and holds a
      single stream from its lock to its unlock. */
  lemma HeldMeanwhile(c: Setup, s: State, t: nat)
    requires Reachable(c, s) && Sequences.NoDup(c.registered) && Busy(c, s, t)
    ensures var th := s.threads[t];
            match c.work[t][th.chain]
            case One(x, _) => x < c.streams && (s.owner[x] == Some(t) <==> !th.phase.Locking?)
            case All(_) => forall i :: 0 <= i < |c.registered| ==>
                             && c.registered[i] < c.streams
                             && (s.owner[c.registered[i]] == Some(t) <==>
                                   match th.phase case Locking(k) => i < k case Writing(_, _) => true case Unlocking(k) => k <= i)
  {
    ReachableInv(c, s);
    var th := s.threads[t];
    assert ValidChain(c, c.work[t][th.chain]);
    if th.chain < |c.work[t]| && c.work[t][th.chain].All? {
      forall i | 0 <= i < |c.registered|
        ensures c.registered[i] < c.streams
        ensures s.owner[c.registered[i]] == Some(t) <==> c.registered[i] in Holds(c, t, th)
        ensures c.registered[i] in Holds(c, t, th) <==>
                match th.phase case Locking(k) => i < k case Writing(_, _) => true case Unlocking(k) => k <= i
      {
        assert c.registered[i] in c.registered;
        assert OwnerOk(c, s, c.registered[i]);
        PartOf(c.registered, th.phase.to, i);
      }
    } else {
      assert OwnerOk(c, s, c.work[t][th.chain].stream);
    }
  }

  lemma PartOf(r: seq<Stream>, k: nat, i: nat)
    requires Sequences.NoDup(r) && k <= |r| && i < |r|
    ensures r[i] in r[..k] <==> i < k
    ensures r[i] in r[k..] <==> k <= i
  {
    if i < k {
      assert r[..k][i] == r[i];
    } else {
      assert r[k..][i - k] == r[i];
    }
  }

  /** All registered streams carry the chains of the distributor in the same order. */
  lemma {:induction false} SameOrder(c: Setup, s: State, k: nat, m: nat)
    requires Reachable(c, s) && Sequences.NoDup(c.registered) && k <= m < |c.registered|
    ensures c.registered[k] < |s.order| && c.registered[m] < |s.order|
    ensures forall i :: i == k || i == m ==> forall g <- s.order[c.registered[i]] :: Known(c, g)
    ensures AllGrants(c, s.order[c.registered[m]]) <= AllGrants(c, s.order[c.registered[k]])
    decreases m - k
  {
    ReachableInv(c, s);
    assert c.registered[k] in c.registered && TextOk(c, s, c.registered[k]);
    if k < m {
      SameOrder(c, s, k + 1, m);
      PairPrefix(c, s, k);
    }
  }

  lemma PairPrefix(c: Setup, s: State, k: nat)
    requires ValidSetup(c) && OwnersOk(c, s) && k + 1 < |c.registered| && PairOk(c, s, k)
    ensures c.registered[k] in c.registered && c.registered[k + 1] in c.registered
    ensures AllGrants(c, s.order[c.registered[k + 1]]) <= AllGrants(c, s.order[c.registered[k]])
  {
  }

  // Deadlock.

  predicate Deadlock(c: Setup, s: State)
    requires ValidSetup(c) && Shape(c, s)
  {
    (exists t :: 0 <= t < |s.threads| && Busy(c, s, t)) && forall t :: 0 <= t < |s.threads| ==> !Enabled(c, s, t)
  }

  /** Who waits for a thread that climbs higher does not wait in a circle. */
  lemma Unblocked(c: Setup, s: State, t: nat) returns (u: nat)
    requires ValidSetup(c) && Sequences.NoDup(c.registered) && OwnersOk(c, s) && Busy(c, s, t)
    ensures Enabled(c, s, u)
    decreases if Current(c, t, s.threads[t]).One? then |c.registered| + 1 else |c.registered| - s.threads[t].phase.to
  {
    if Enabled(c, s, t) {
      u := t;
    } else {
      var x := Goal(c, s, t);
      assert OwnerOk(c, s, x);
      var v := s.owner[x].value;
      assert x in Holds(c, v, s.threads[v]);
      if Enabled(c, s, v) {
        u := v;
      } else {
        HolderIsHigher(c, s, t, v);
        u := Unblocked(c, s, v);
      }
    }
  }

  lemma HolderIsHigher(c: Setup, s: State, t: nat, v: nat)
    requires ValidSetup(c) && Sequences.NoDup(c.registered) && OwnersOk(c, s) && Busy(c, s, t) && s.threads[t].phase.Locking?
    requires Busy(c, s, v) && s.threads[v].phase.Locking? && Goal(c, s, t) in Holds(c, v, s.threads[v])
    ensures Current(c, v, s.threads[v]).All?
    ensures Current(c, t, s.threads[t]).All? ==> s.threads[t].phase.to < s.threads[v].phase.to
  {
    var g := Goals(c, v, s.threads[v]);
    var j :| 0 <= j < s.threads[v].phase.to && g[j] == Goal(c, s, t);
  }

  lemma NeverStuck(c: Setup, s: State)
    requires Reachable(c, s) && Sequences.NoDup(c.registered)
    ensures !Deadlock(c, s)
  {
    ReachableInv(c, s);
    if t :| 0 <= t < |s.threads| && Busy(c, s, t) {
      var u := Unblocked(c, s, t);
    }
  }

  lemma Extend(c: Setup, steps: seq<nat>, s: State, t: nat) returns (steps': seq<nat>)
    requires ValidSetup(c) && Exec(c, steps) == Some(s) && Enabled(c, s, t)
    ensures steps' == steps + [t] && Exec(c, steps') == Some(Apply(c, s, t))
  {
    steps' := steps + [t];
    assert steps'[..|steps'| - 1] == steps;
  }

  // One thread and one chain of the distributor.

  function Alone(streams: nat, registered: seq<Stream>): Setup {
    Setup(streams, registered, [[All(["x"])]])
  }

  /** The thread has locked the first m registered streams, and nothing else is locked. */
  predicate Climbed(c: Setup, s: State, m: nat)
    requires Shape(c, s) && m <= |c.registered|
  {
    && s.threads == [Thread(0, Locking(m))]
    && forall x :: 0 <= x < c.streams ==> s.owner[x] == if x in c.registered[..m] then Some(0) else None
  }

  lemma ClimbStep(c: Setup, s: State, m: nat)
    requires ValidSetup(c) && c == Alone(c.streams, c.registered) && Shape(c, s) && m + 1 < |c.registered|
    requires Climbed(c, s, m) && c.registered[m] !in c.registered[..m]
    ensures Enabled(c, s, 0) && Climbed(c, Apply(c, s, 0), m + 1)
  {
    assert c.registered[..m + 1] == c.registered[..m] + [c.registered[m]];
    assert Goal(c, s, 0) == c.registered[m];
  }

  lemma {:induction false} Climb(c: Setup, m: nat) returns (s: State)
    requires ValidSetup(c) && c == Alone(c.streams, c.registered) && m < |c.registered| && Sequences.NoDup(c.registered[..m])
    ensures Reachable(c, s) && Climbed(c, s, m)
    decreases m
  {
    if m == 0 {
      s := Init(c);
      assert Exec(c, []) == Some(s);
      InitOk(c);
    } else {
      var r := c.registered;
      assert forall i :: 0 <= i < m - 1 ==> r[..m - 1][i] == r[..m][i];
      var before := Climb(c, m - 1);
      FreshAt(r, m);
      ClimbStep(c, before, m - 1);
      var steps :| Exec(c, steps) == Some(before);
      var steps' := Extend(c, steps, before, 0);
      s := Apply(c, before, 0);
    }
  }

  lemma FreshAt(r: seq<Stream>, m: nat)
    requires 0 < m <= |r| && Sequences.NoDup(r[..m])
    ensures r[m - 1] !in r[..m - 1]
  {
    assert forall i :: 0 <= i < m ==> r[..m][i] == r[i];
  }

  lemma FirstRepeat(r: seq<Stream>, n: nat) returns (m: nat)
    requires n <= |r| && !Sequences.NoDup(r[..n])
    ensures m < n && Sequences.NoDup(r[..m]) && r[m] in r[..m]
    decreases n
  {
    if Sequences.NoDup(r[..n - 1]) {
      m := n - 1;
      assert r[..n] == r[..m] + [r[m]];
    } else {
      m := FirstRepeat(r, n - 1);
    }
  }

  /** A stream that is registered twice stops the first thread that writes to the distributor. */
  lemma RegisteredTwice(streams: nat, registered: seq<Stream>)
    requires (forall x <- registered :: x < streams) && !Sequences.NoDup(registered)
    ensures ValidSetup(Alone(streams, registered))
    ensures exists s :: Reachable(Alone(streams, registered), s) && Deadlock(Alone(streams, registered), s)
  {
    var c := Alone(streams, registered);
    assert registered[..|registered|] == registered;
    var m := FirstRepeat(registered, |registered|);
    var s := Climb(c, m);
    assert Busy(c, s, 0) && Goal(c, s, 0) == registered[m];
    assert !Enabled(c, s, 0);
  }

  ghost predicate DeadlockFree(streams: nat, registered: seq<Stream>) {
    forall work, s :: Reachable(Setup(streams, registered, work), s) ==> !Deadlock(Setup(streams, registered, work), s)
  }

  /** Whatever the threads write, they never block each other, if and only if no stream is registered
      twice. */
  lemma DeadlockFreeIff(streams: nat, registered: seq<Stream>)
    requires forall x <- registered :: x < streams
    ensures DeadlockFree(streams, registered) <==> Sequences.NoDup(registered)
  {
    if Sequences.NoDup(registered) {
      forall work, s | Reachable(Setup(streams, registered, work), s)
        ensures !Deadlock(Setup(streams, registered, work), s)
      {
        NeverStuck(Setup(streams, registered, work), s);
      }
    } else {
      RegisteredTwice(streams, registered);
    }
  }

  // How long a run takes.

  function PhaseCost(targets: nat, items: nat, p: Phase): int {
    match p
    case Locking(k) => targets - k + items * targets + targets
    case Writing(i, k) => (items - i) * targets - k + targets
    case Unlocking(k) => targets - k
  }

  /** The steps of the chains of a thread from number n on. */
  function ChainsCost(c: Setup, t: nat, n: nat): int
    requires t < |c.work| && n <= |c.work[t]|
    decreases |c.work[t]| - n
  {
    if n == |c.work[t]| then 0 else
      PhaseCost(|Targets(c, c.work[t][n])|, |c.work[t][n].items|, Locking(0)) + ChainsCost(c, t, n + 1)
  }

  function ThreadCost(c: Setup, t: nat, th: Thread): int
    requires ThreadOk(c, t, th)
  {
    if Active(c, t, th) then
      PhaseCost(|Goals(c, t, th)|, |Current(c, t, th).items|, th.phase) + ChainsCost(c, t, th.chain + 1)
    else 0
  }

  function Remaining(c: Setup, threads: seq<Thread>): int
    requires |threads| <= |c.work| && forall t :: 0 <= t < |threads| ==> ThreadOk(c, t, threads[t])
  {
    if threads == [] then 0 else
      var t := |threads| - 1;
      Remaining(c, threads[..t]) + ThreadCost(c, t, threads[t])
  }

  lemma PhaseCostNext(targets: seq<Stream>, items: nat, th: Thread)
    requires PhaseOk(targets, items, th.phase)
    ensures var th' := Next(targets, items, th);
            PhaseCost(|targets|, items, th.phase) == 1 + if th'.chain == th.chain then PhaseCost(|targets|, items, th'.phase) else 0
  {
    if th.phase.Writing? {
      var left, g := items - th.phase.item, |targets|;
      assert left * g == (left - 1) * g + g;
    }
  }

  lemma ThreadCostNext(c: Setup, t: nat, th: Thread)
    requires ValidSetup(c) && ThreadOk(c, t, th) && Active(c, t, th)
    ensures var th' := Next(Goals(c, t, th), |Current(c, t, th).items|, th);
            ThreadOk(c, t, th') && ThreadCost(c, t, th) == ThreadCost(c, t, th') + 1
  {
    NextOk(c, t, th);
    PhaseCostNext(Goals(c, t, th), |Current(c, t, th).items|, th);
  }

  lemma RemainingUpdate(c: Setup, threads: seq<Thread>, t: nat, th: Thread)
    requires |threads| <= |c.work| && forall u :: 0 <= u < |threads| ==> ThreadOk(c, u, threads[u])
    requires t < |threads| && ThreadOk(c, t, th)
    ensures Remaining(c, threads[t := th]) == Remaining(c, threads) - ThreadCost(c, t, threads[t]) + ThreadCost(c, t, th)
  {
    var last := |threads| - 1;
    if t == last {
      assert threads[t := th][..last] == threads[..last];
    } else {
      RemainingUpdate(c, threads[..last], t, th);
      assert threads[t := th][..last] == threads[..last][t := th];
    }
  }

  lemma RemainingPositive(c: Setup, threads: seq<Thread>)
    requires ValidSetup(c) && |threads| <= |c.work| && forall t :: 0 <= t < |threads| ==> ThreadOk(c, t, threads[t])
    ensures Remaining(c, threads) >= 0
  {
    if threads != [] {
      var t := |threads| - 1;
      RemainingPositive(c, threads[..t]);
      ThreadCostPositive(c, t, threads[t]);
    }
  }

  lemma ThreadCostPositive(c: Setup, t: nat, th: Thread)
    requires ThreadOk(c, t, th)
    ensures ThreadCost(c, t, th) >= 0
  {
    if Active(c, t, th) {
      ChainsCostPositive(c, t, th.chain + 1);
      PhaseCostPositive(|Goals(c, t, th)|, |Current(c, t, th).items|, th.phase);
    }
  }

  lemma PhaseCostPositive(targets: nat, items: nat, p: Phase)
    requires p.to <= targets && (p.Writing? ==> p.item < items)
    ensures PhaseCost(targets, items, p) >= 0
  {
    if p.Writing? {
      assert (items - p.item) * targets >= 0;
    } else {
      assert items * targets >= 0;
    }
  }

  lemma ChainsCostPositive(c: Setup, t: nat, n: nat)
    requires t < |c.work| && n <= |c.work[t]|
    ensures ChainsCost(c, t, n) >= 0
    decreases |c.work[t]| - n
  {
    if n < |c.work[t]| {
      PhaseCostPositive(|Targets(c, c.work[t][n])|, |c.work[t][n].items|, Locking(0));
      ChainsCostPositive(c, t, n + 1);
    }
  }

  lemma StepCosts(c: Setup, s: State, t: nat)
    requires ValidSetup(c) && Shape(c, s) && Enabled(c, s, t)
    ensures Remaining(c, Apply(c, s, t).threads) == Remaining(c, s.threads) - 1
  {
    var th := s.threads[t];
    ThreadCostNext(c, t, th);
    RemainingUpdate(c, s.threads, t, Next(Goals(c, t, th), |Current(c, t, th).items|, th));
  }

  /** Every schedule takes the same number of steps: the made ones and the remaining ones are always
      those of the chains. */
  lemma {:induction false} StepsAreFixed(c: Setup, steps: seq<nat>)
    requires ValidSetup(c) && Exec(c, steps).Some?
    ensures Shape(c, Init(c)) && |steps| + Remaining(c, Exec(c, steps).value.threads) == Remaining(c, Init(c).threads)
    decreases |steps|
  {
    InitOk(c);
    if steps != [] {
      var init := steps[..|steps| - 1];
      StepsAreFixed(c, init);
      StepCosts(c, Exec(c, init).value, steps[|steps| - 1]);
    }
  }

  predicate Finished(c: Setup, s: State)
    requires Shape(c, s)
  {
    forall t :: 0 <= t < |s.threads| ==> !Busy(c, s, t)
  }

  /** From every reachable state the threads can write all their chains. */
  lemma {:induction false} CanFinish(c: Setup, s: State) returns (end: State)
    requires Reachable(c, s) && Sequences.NoDup(c.registered)
    ensures Reachable(c, end) && Finished(c, end)
    decreases Remaining(c, s.threads)
  {
    ReachableInv(c, s);
    if t :| 0 <= t < |s.threads| && Busy(c, s, t) {
      var u := Unblocked(c, s, t);
      var steps :| Exec(c, steps) == Some(s);
      var steps' := Extend(c, steps, s, u);
      StepCosts(c, s, u);
      RemainingPositive(c, s.threads);
      end := CanFinish(c, Apply(c, s, u));
    } else {
      end := s;
    }
  }

  /** When all threads are done each stream holds exactly the chains that belong on it, whole and once, those of one
      thread in the thread's order and those of the distributor in one common order. */
  lemma AllWritten(c: Setup, s: State)
    requires Reachable(c, s) && Sequences.NoDup(c.registered) && Finished(c, s)
    ensures forall x :: 0 <= x < c.streams ==> (forall g <- s.order[x] :: Known(c, g)) && s.text[x] == Whole(c, s.order[x])
    ensures forall x, t, j: nat :: 0 <= x < c.streams && 0 <= t < |c.work| && j < |c.work[t]| ==>
                                     (Grant(t, j) in s.order[x] <==> GoesTo(c, t, j, x))
    ensures forall x, t :: 0 <= x < c.streams && 0 <= t < |c.work| ==> InTurn(s.order[x], t)
    ensures forall x, y :: x in c.registered && y in c.registered ==> AllGrants(c, s.order[x]) == AllGrants(c, s.order[y])
  {
    hide Inv, Whole, AllGrants;
    ReachableInv(c, s);
    forall x: Stream | 0 <= x < c.streams ensures (forall g <- s.order[x] :: Known(c, g)) && s.text[x] == Whole(c, s.order[x]) {
      TextAtEnd(c, s, x);
    }
    forall x: Stream, t: nat | 0 <= x < c.streams && 0 <= t < |c.work|
      ensures InTurn(s.order[x], t)
      ensures forall j: nat :: j < |c.work[t]| ==> (Grant(t, j) in s.order[x] <==> GoesTo(c, t, j, x))
    {
      AllOf(c, s, x, t);
    }
    forall x, y | x in c.registered && y in c.registered ensures AllGrants(c, s.order[x]) == AllGrants(c, s.order[y]) {
      SameAtEnd(c, s, x, y);
    }
  }

  lemma TextAtEnd(c: Setup, s: State, x: Stream)
    requires Inv(c, s) && Finished(c, s) && x < c.streams
    ensures (forall g <- s.order[x] :: Known(c, g)) && s.text[x] == Whole(c, s.order[x])
  {
    assert OwnerOk(c, s, x) && TextOk(c, s, x);
  }

  lemma SameAtEnd(c: Setup, s: State, x: Stream, y: Stream)
    requires Inv(c, s) && Finished(c, s) && x in c.registered && y in c.registered
    requires forall x :: 0 <= x < c.streams ==> forall g <- s.order[x] :: Known(c, g)
    ensures x < c.streams && y < c.streams && AllGrants(c, s.order[x]) == AllGrants(c, s.order[y])
  {
    var k :| 0 <= k < |c.registered| && c.registered[k] == x;
    var m :| 0 <= m < |c.registered| && c.registered[m] == y;
    EqualAtEnd(c, s, k);
    EqualAtEnd(c, s, m);
  }

  lemma AllOf(c: Setup, s: State, x: Stream, t: nat)
    requires Reachable(c, s) && Sequences.NoDup(c.registered) && Finished(c, s) && x < c.streams && t < |c.work|
    ensures InTurn(s.order[x], t)
    ensures forall j: nat :: j < |c.work[t]| ==> (Grant(t, j) in s.order[x] <==> GoesTo(c, t, j, x))
  {
    EachChainOnce(c, s, x, t);
    assert !Busy(c, s, t);
  }

  lemma {:induction false} EqualAtEnd(c: Setup, s: State, k: nat)
    requires Inv(c, s) && Finished(c, s) && k < |c.registered|
    requires forall x :: 0 <= x < c.streams ==> forall g <- s.order[x] :: Known(c, g)
    ensures c.registered[0] in c.registered && c.registered[k] in c.registered
    ensures AllGrants(c, s.order[c.registered[k]]) == AllGrants(c, s.order[c.registered[0]])
  {
    assert c.registered[k] in c.registered;
    if k > 0 {
      EqualAtEnd(c, s, k - 1);
      assert PairOk(c, s, k - 1);
      NobodyBetween(c, s, k - 1);
      var b := AllGrants(c, s.order[c.registered[k]]);
      assert b + [] == b;
    }
  }

  lemma NobodyBetween(c: Setup, s: State, k: nat)
    requires ValidSetup(c) && OwnersOk(c, s) && Finished(c, s) && k < |c.registered|
    ensures Between(c, s, k) == []
  {
    var x := c.registered[k];
    assert x in c.registered && OwnerOk(c, s, x);
    forall t | 0 <= t < |s.threads| ensures Holds(c, t, s.threads[t]) == [] {
      assert !Busy(c, s, t);
    }
  }
}
