/** Threads that write to log streams (lib/cDistributor.cpp, inc/cSafeOstream.h), as a machine whose
    every step is one atomic action of one thread.  A chain of output operators locks its target
    first: a single stream, or every registered stream one after the other.  It then writes its
    items, each to every target, and unlocks in the order of locking. */
module LogProtocol {
  import opened Wrappers
  import Sequences

  type Stream = nat

  datatype Chain = One(stream: Stream, items: seq<string>) | All(items: seq<string>)

  /** The streams, those given to the distributor in the order of registration, and the chains each
      thread writes one after the other. */
  datatype Setup = Setup(streams: nat, registered: seq<Stream>, work: seq<seq<Chain>>)

  /** What a thread does next: lock a target; write an item to a target; unlock a target. */
  datatype Phase = Locking(to: nat) | Writing(item: nat, to: nat) | Unlocking(to: nat)

  datatype Thread = Thread(chain: nat, phase: Phase)

  /** A stream was locked for a chain of a thread. */
  datatype Grant = Grant(thread: nat, chain: nat)

  /** `order` records for whom each stream was locked. */
  datatype State = State(
    threads: seq<Thread>,
    owner: seq<Option<nat>>,
    text: seq<seq<string>>,
    order: seq<seq<Grant>>)

  function Targets(c: Setup, ch: Chain): seq<Stream> {
    if ch.One? then [ch.stream] else c.registered
  }

  /** A chain has a leftmost item, and the distributor demands a registered stream. */
  predicate ValidChain(c: Setup, ch: Chain) {
    && ch.items != []
    && (if ch.One? then ch.stream < c.streams else c.registered != [])
  }

  predicate ValidSetup(c: Setup) {
    && (forall x <- c.registered :: x < c.streams)
    && (forall t :: 0 <= t < |c.work| ==> forall ch <- c.work[t] :: ValidChain(c, ch))
  }

  function Init(c: Setup): State {
    State(seq(|c.work|, t => Thread(0, Locking(0))), seq(c.streams, x => None), seq(c.streams, x => []), seq(c.streams, x => []))
  }

  predicate PhaseOk(targets: seq<Stream>, items: nat, p: Phase) {
    p.to < |targets| && (p.Writing? ==> p.item < items)
  }

  predicate Active(c: Setup, t: nat, th: Thread) {
    t < |c.work| && th.chain < |c.work[t]|
  }

  function Current(c: Setup, t: nat, th: Thread): Chain
    requires Active(c, t, th)
  {
    c.work[t][th.chain]
  }

  function Goals(c: Setup, t: nat, th: Thread): seq<Stream>
    requires Active(c, t, th)
  {
    Targets(c, Current(c, t, th))
  }

  predicate ThreadOk(c: Setup, t: nat, th: Thread) {
    && t < |c.work|
    && th.chain <= |c.work[t]|
    && (Active(c, t, th) ==> PhaseOk(Goals(c, t, th), |Current(c, t, th).items|, th.phase))
  }

  predicate Shape(c: Setup, s: State) {
    && |s.threads| == |c.work|
    && |s.owner| == |s.text| == |s.order| == c.streams
    && (forall t :: 0 <= t < |s.threads| ==> ThreadOk(c, t, s.threads[t]))
  }

  predicate Busy(c: Setup, s: State, t: nat)
    requires Shape(c, s)
  {
    t < |s.threads| && Active(c, t, s.threads[t])
  }

  /** The stream the next step of the thread is about. */
  function Goal(c: Setup, s: State, t: nat): Stream
    requires ValidSetup(c) && Shape(c, s) && Busy(c, s, t)
    ensures Goal(c, s, t) < c.streams
  {
    var th := s.threads[t];
    var x := Goals(c, t, th)[th.phase.to];
    GoalsExist(c, t, th);
    assert x in Goals(c, t, th);
    x
  }

  lemma GoalsExist(c: Setup, t: nat, th: Thread)
    requires ValidSetup(c) && Active(c, t, th)
    ensures forall x <- Goals(c, t, th) :: x < c.streams
    ensures Goals(c, t, th) != [] && Current(c, t, th).items != []
  {
    assert ValidChain(c, c.work[t][th.chain]);
  }

  /** A thread can make a step unless it waits for a stream that is locked. */
  predicate Enabled(c: Setup, s: State, t: nat)
    requires ValidSetup(c) && Shape(c, s)
  {
    Busy(c, s, t) && (s.threads[t].phase.Locking? ==> s.owner[Goal(c, s, t)] == None)
  }

  function Next(targets: seq<Stream>, items: nat, th: Thread): Thread
    requires PhaseOk(targets, items, th.phase)
  {
    match th.phase
    case Locking(k) => th.(phase := if k + 1 < |targets| then Locking(k + 1) else Writing(0, 0))
    case Writing(i, k) =>
      th.(phase := if k + 1 < |targets| then Writing(i, k + 1) else if i + 1 < items then Writing(i + 1, 0) else Unlocking(0))
    case Unlocking(k) => if k + 1 < |targets| then th.(phase := Unlocking(k + 1)) else Thread(th.chain + 1, Locking(0))
  }

  function Apply(c: Setup, s: State, t: nat): (s': State)
    requires ValidSetup(c) && Shape(c, s) && Enabled(c, s, t)
    ensures Shape(c, s')
  {
    var th, x := s.threads[t], Goal(c, s, t);
    var items := Current(c, t, th).items;
    var th' := Next(Goals(c, t, th), |items|, th);
    NextOk(c, t, th);
    var moved := s.(threads := s.threads[t := th']);
    match th.phase
    case Locking(_) => moved.(owner := s.owner[x := Some(t)], order := s.order[x := s.order[x] + [Grant(t, th.chain)]])
    case Writing(i, _) => moved.(text := s.text[x := s.text[x] + [items[i]]])
    case Unlocking(_) => moved.(owner := s.owner[x := None])
  }

  lemma NextOk(c: Setup, t: nat, th: Thread)
    requires ValidSetup(c) && ThreadOk(c, t, th) && Active(c, t, th)
    ensures ThreadOk(c, t, Next(Goals(c, t, th), |Current(c, t, th).items|, th))
  {
    var th' := Next(Goals(c, t, th), |Current(c, t, th).items|, th);
    GoalsExist(c, t, th);
    if Active(c, t, th') {
      GoalsExist(c, t, th');
    }
  }

  /** The state after the threads made steps in this order, or None where one could not. */
  function Exec(c: Setup, steps: seq<nat>): (r: Option<State>)
    requires ValidSetup(c)
    ensures r.Some? ==> Shape(c, r.value)
    decreases |steps|
  {
    if steps == [] then InitOk(c); Some(Init(c)) else
      var before := Exec(c, steps[..|steps| - 1]);
      var t := steps[|steps| - 1];
      if before.Some? && Enabled(c, before.value, t) then Some(Apply(c, before.value, t)) else None
  }

  lemma InitOk(c: Setup)
    requires ValidSetup(c)
    ensures Shape(c, Init(c))
  {
    forall t | 0 <= t < |c.work| ensures ThreadOk(c, t, Thread(0, Locking(0))) {
      if c.work[t] != [] {
        GoalsExist(c, t, Thread(0, Locking(0)));
      }
    }
  }

  // Who holds what.

  function Holding(targets: seq<Stream>, p: Phase): seq<Stream>
    requires p.to <= |targets|
  {
    match p case Locking(k) => targets[..k] case Writing(_, _) => targets case Unlocking(k) => targets[k..]
  }

  function Holds(c: Setup, t: nat, th: Thread): seq<Stream>
    requires ThreadOk(c, t, th)
  {
    if Active(c, t, th) then Holding(Goals(c, t, th), th.phase) else []
  }

  predicate OwnerOk(c: Setup, s: State, x: Stream)
    requires Shape(c, s) && x < c.streams
  {
    && (s.owner[x].Some? ==> s.owner[x].value < |s.threads|)
    && forall t :: 0 <= t < |s.threads| ==> (s.owner[x] == Some(t) <==> x in Holds(c, t, s.threads[t]))
  }

  predicate OwnersOk(c: Setup, s: State) {
    Shape(c, s) && forall x :: 0 <= x < c.streams ==> OwnerOk(c, s, x)
  }

  /** How a step changes what the thread holds. */
  lemma HoldsNext(c: Setup, t: nat, th: Thread, y: Stream)
    requires ValidSetup(c) && Sequences.NoDup(c.registered) && ThreadOk(c, t, th) && Active(c, t, th)
    ensures var g := Goals(c, t, th); var x := g[th.phase.to]; var th' := Next(g, |Current(c, t, th).items|, th);
            && ThreadOk(c, t, th')
            && (y in Holds(c, t, th') <==> if th.phase.Locking? && y == x then true
                                           else if th.phase.Unlocking? && y == x then false
                                           else y in Holds(c, t, th))
  {
    NextOk(c, t, th);
    var g, k := Goals(c, t, th), th.phase.to;
    assert Sequences.NoDup(g);
    if th.phase.Locking? {
      assert g[..k + 1] == g[..k] + [g[k]];
    } else if th.phase.Unlocking? {
      assert g[k..] == [g[k]] + g[k + 1..];
    }
  }

  lemma OwnersStep(c: Setup, s: State, t: nat)
    requires ValidSetup(c) && Sequences.NoDup(c.registered) && OwnersOk(c, s) && Enabled(c, s, t)
    ensures OwnersOk(c, Apply(c, s, t))
  {
    forall y: Stream | 0 <= y < c.streams ensures OwnerOk(c, Apply(c, s, t), y) {
      OwnerStep(c, s, t, y);
    }
  }

  lemma OwnerStep(c: Setup, s: State, t: nat, y: Stream)
    requires ValidSetup(c) && Sequences.NoDup(c.registered) && OwnersOk(c, s) && Enabled(c, s, t) && y < c.streams
    ensures OwnerOk(c, Apply(c, s, t), y)
  {
    var s' := Apply(c, s, t);
    HoldsNext(c, t, s.threads[t], y);
    if !s.threads[t].phase.Locking? {
      GoalIsHeld(c, s, t);
    }
    assert OwnerOk(c, s, y);
    forall u | 0 <= u < |s'.threads| ensures s'.owner[y] == Some(u) <==> y in Holds(c, u, s'.threads[u]) {
      assert s.owner[y] == Some(u) <==> y in Holds(c, u, s.threads[u]);
    }
  }

  /** Unless it is locking, a thread holds the stream its step is about. */
  lemma GoalIsHeld(c: Setup, s: State, t: nat)
    requires ValidSetup(c) && OwnersOk(c, s) && Busy(c, s, t) && !s.threads[t].phase.Locking?
    ensures s.owner[Goal(c, s, t)] == Some(t)
  {
    var x := Goal(c, s, t);
    assert OwnerOk(c, s, x);
    assert x in Holds(c, t, s.threads[t]);
  }

  // What was written.

  /** The items of the granted chains, one chain behind the other. */
  function Whole(c: Setup, grants: seq<Grant>): seq<string>
    requires forall g <- grants :: Known(c, g)
  {
    if grants == [] then [] else
      var g := grants[|grants| - 1];
      assert g in grants && Known(c, g);
      Whole(c, grants[..|grants| - 1]) + c.work[g.thread][g.chain].items
  }

  predicate Known(c: Setup, g: Grant) {
    g.thread < |c.work| && g.chain < |c.work[g.thread]|
  }

  /** How many items of its chain a thread has written to a target. */
  function Put(targets: seq<Stream>, items: nat, p: Phase, x: Stream): (n: nat)
    requires PhaseOk(targets, items, p)
    ensures n <= items
  {
    match p
    case Locking(_) => 0
    case Writing(i, k) => if x in targets[..k] then i + 1 else i
    case Unlocking(_) => items
  }

  predicate TextOk(c: Setup, s: State, x: Stream)
    requires Shape(c, s) && x < c.streams
  {
    && (forall g <- s.order[x] :: Known(c, g))
    && (if s.owner[x] == None then s.text[x] == Whole(c, s.order[x]) else HolderOk(c, s, x, s.owner[x].value))
  }

  /** All chains but the last granted one are complete, and the last is as far as its thread got. */
  predicate HolderOk(c: Setup, s: State, x: Stream, t: nat)
    requires Shape(c, s) && x < c.streams && forall g <- s.order[x] :: Known(c, g)
  {
    && Busy(c, s, t)
    && var th, ch, done := s.threads[t], Current(c, t, s.threads[t]), |s.order[x]| - 1;
    && done >= 0
    && s.order[x][done] == Grant(t, th.chain)
    && s.text[x] == Whole(c, s.order[x][..done]) + ch.items[..Put(Goals(c, t, th), |ch.items|, th.phase, x)]
  }

  /** How a step changes the number of written items of a held stream. */
  lemma PutNext(c: Setup, t: nat, th: Thread, y: Stream)
    requires ValidSetup(c) && Sequences.NoDup(c.registered) && ThreadOk(c, t, th) && Active(c, t, th) && y in Holds(c, t, th)
    requires var n := Next(Goals(c, t, th), |Current(c, t, th).items|, th); n.chain == th.chain
    ensures var g, n := Goals(c, t, th), |Current(c, t, th).items|;
            && PhaseOk(g, n, Next(g, n, th).phase)
            && Put(g, n, Next(g, n, th).phase, y)
            == Put(g, n, th.phase, y) + if th.phase.Writing? && y == g[th.phase.to] then 1 else 0
    ensures th.phase.Writing? && y == Goals(c, t, th)[th.phase.to] ==>
              Put(Goals(c, t, th), |Current(c, t, th).items|, th.phase, y) == th.phase.item
  {
    NextOk(c, t, th);
    var g, k := Goals(c, t, th), th.phase.to;
    assert Sequences.NoDup(g);
    if th.phase.Writing? {
      assert g[..k + 1] == g[..k] + [g[k]];
    }
  }

  lemma WholeSnoc(c: Setup, grants: seq<Grant>, g: Grant)
    requires (forall h <- grants :: Known(c, h)) && Known(c, g)
    ensures forall h <- grants + [g] :: Known(c, h)
    ensures Whole(c, grants + [g]) == Whole(c, grants) + c.work[g.thread][g.chain].items
  {
    assert (grants + [g])[..|grants|] == grants;
  }

  lemma TextLock(c: Setup, s: State, t: nat)
    requires ValidSetup(c) && Sequences.NoDup(c.registered) && OwnersOk(c, s) && Enabled(c, s, t) && s.threads[t].phase.Locking?
    requires TextOk(c, s, Goal(c, s, t))
    ensures TextOk(c, Apply(c, s, t), Goal(c, s, t))
  {
    var s', x, th := Apply(c, s, t), Goal(c, s, t), s.threads[t];
    WholeSnoc(c, s.order[x], Grant(t, th.chain));
    var o := s'.order[x];
    assert o[..|o| - 1] == s.order[x];
    GoalsExist(c, t, th);
    assert Put(Goals(c, t, th), |Current(c, t, th).items|, s'.threads[t].phase, x) == 0;
    assert s.text[x] + [] == s.text[x];
  }

  lemma TextWrite(c: Setup, s: State, t: nat)
    requires ValidSetup(c) && Sequences.NoDup(c.registered) && OwnersOk(c, s) && Enabled(c, s, t) && s.threads[t].phase.Writing?
    requires TextOk(c, s, Goal(c, s, t))
    ensures TextOk(c, Apply(c, s, t), Goal(c, s, t))
  {
    var s', x, th := Apply(c, s, t), Goal(c, s, t), s.threads[t];
    var ch, o := Current(c, t, th), s.order[x];
    GoalIsHeld(c, s, t);
    PutNext(c, t, th, x);
    assert ch.items[..th.phase.item] + [ch.items[th.phase.item]] == ch.items[..th.phase.item + 1];
    Sequences.Assoc(Whole(c, o[..|o| - 1]), ch.items[..th.phase.item], [ch.items[th.phase.item]]);
  }

  lemma TextUnlock(c: Setup, s: State, t: nat)
    requires ValidSetup(c) && Sequences.NoDup(c.registered) && OwnersOk(c, s) && Enabled(c, s, t) && s.threads[t].phase.Unlocking?
    requires TextOk(c, s, Goal(c, s, t))
    ensures TextOk(c, Apply(c, s, t), Goal(c, s, t))
  {
    var x := Goal(c, s, t);
    var ch, o := Current(c, t, s.threads[t]), s.order[x];
    GoalIsHeld(c, s, t);
    assert ch.items[..|ch.items|] == ch.items;
    assert o == o[..|o| - 1] + [o[|o| - 1]];
    WholeSnoc(c, o[..|o| - 1], o[|o| - 1]);
  }

  lemma TextOther(c: Setup, s: State, t: nat, y: Stream)
    requires ValidSetup(c) && Sequences.NoDup(c.registered) && OwnersOk(c, s) && Enabled(c, s, t)
    requires y < c.streams && y != Goal(c, s, t) && TextOk(c, s, y)
    ensures TextOk(c, Apply(c, s, t), y)
  {
    assert OwnerOk(c, s, y);
    HoldsNext(c, t, s.threads[t], y);
    if s.owner[y] == Some(t) {
      PutNext(c, t, s.threads[t], y);
    }
  }

  lemma TextStep(c: Setup, s: State, t: nat, y: Stream)
    requires ValidSetup(c) && Sequences.NoDup(c.registered) && OwnersOk(c, s) && Enabled(c, s, t)
    requires y < c.streams && TextOk(c, s, y)
    ensures TextOk(c, Apply(c, s, t), y)
  {
    if y != Goal(c, s, t) {
      TextOther(c, s, t, y);
    } else if s.threads[t].phase.Locking? {
      TextLock(c, s, t);
    } else if s.threads[t].phase.Writing? {
      TextWrite(c, s, t);
    } else {
      TextUnlock(c, s, t);
    }
  }

  // For whom each stream was locked.

  /** The numbers of the chains of one thread among the grants. */
  function Mine(grants: seq<Grant>, t: nat): seq<nat> {
    if grants == [] then [] else
      var g, before := grants[|grants| - 1], Mine(grants[..|grants| - 1], t);
      if g.thread == t then before + [g.chain] else before
  }

  /** The first n chains of the thread that have the stream as a target. */
  function Touching(c: Setup, t: nat, x: Stream, n: nat): seq<nat>
    requires t < |c.work| && n <= |c.work[t]|
  {
    if n == 0 then [] else
      Touching(c, t, x, n - 1) + if x in Targets(c, c.work[t][n - 1]) then [n - 1] else []
  }

  /** The thread has locked the stream for its current chain, and may have unlocked it. */
  predicate Acquired(c: Setup, t: nat, th: Thread, x: Stream)
    requires ThreadOk(c, t, th)
  {
    Active(c, t, th) && x in if th.phase.Locking? then Goals(c, t, th)[..th.phase.to] else Goals(c, t, th)
  }

  predicate OrderOk(c: Setup, s: State, x: Stream, t: nat)
    requires Shape(c, s) && x < c.streams && t < |s.threads|
  {
    var th := s.threads[t];
    Mine(s.order[x], t) == Touching(c, t, x, th.chain) + if Acquired(c, t, th, x) then [th.chain] else []
  }

  lemma MineSnoc(grants: seq<Grant>, g: Grant, t: nat)
    ensures Mine(grants + [g], t) == if g.thread == t then Mine(grants, t) + [g.chain] else Mine(grants, t)
  {
    assert (grants + [g])[..|grants|] == grants;
  }

  lemma AcquiredNext(c: Setup, t: nat, th: Thread, x: Stream)
    requires ValidSetup(c) && Sequences.NoDup(c.registered) && ThreadOk(c, t, th) && Active(c, t, th)
    ensures var g := Goals(c, t, th); var th' := Next(g, |Current(c, t, th).items|, th);
            && ThreadOk(c, t, th')
            && (th'.chain == th.chain ==>
                  (Acquired(c, t, th', x) <==> Acquired(c, t, th, x) || (th.phase.Locking? && x == g[th.phase.to])))
            && (th'.chain != th.chain ==> th'.chain == th.chain + 1 && !Acquired(c, t, th', x) && !th.phase.Locking?)
    ensures th.phase.Locking? ==> !Acquired(c, t, th, Goals(c, t, th)[th.phase.to])
  {
    NextOk(c, t, th);
    var g, k := Goals(c, t, th), th.phase.to;
    assert Sequences.NoDup(g);
    if th.phase.Locking? {
      assert g[..k + 1] == g[..k] + [g[k]];
    }
  }

  lemma OrderStep(c: Setup, s: State, t: nat, x: Stream, u: nat)
    requires ValidSetup(c) && Sequences.NoDup(c.registered) && OwnersOk(c, s) && Enabled(c, s, t)
    requires x < c.streams && u < |s.threads| && OrderOk(c, s, x, u)
    ensures OrderOk(c, Apply(c, s, t), x, u)
  {
    var th, goal := s.threads[t], Goal(c, s, t);
    MineSnoc(s.order[x], Grant(t, th.chain), u);
    if u == t {
      AcquiredNext(c, t, th, x);
    }
  }

  // The chains of the distributor.

  function AllGrants(c: Setup, grants: seq<Grant>): seq<Grant>
    requires forall g <- grants :: Known(c, g)
  {
    if grants == [] then [] else
      var g, before := grants[|grants| - 1], AllGrants(c, grants[..|grants| - 1]);
      assert g in grants && Known(c, g);
      if c.work[g.thread][g.chain].All? then before + [g] else before
  }

  /** The thread's grant of registered stream k if it locks k + 1 next. */
  function Gap(c: Setup, t: nat, th: Thread, k: nat): seq<Grant> {
    if Active(c, t, th) && Current(c, t, th).All? && th.phase == Locking(k + 1) then [Grant(t, th.chain)] else []
  }

  /** The grant of registered stream k whose thread has not yet locked k + 1. */
  function Between(c: Setup, s: State, k: nat): seq<Grant>
    requires OwnersOk(c, s) && ValidSetup(c) && k < |c.registered|
  {
    var x := c.registered[k];
    assert x in c.registered && OwnerOk(c, s, x);
    if s.owner[x] == None then [] else Gap(c, s.owner[x].value, s.threads[s.owner[x].value], k)
  }

  predicate PairOk(c: Setup, s: State, k: nat)
    requires ValidSetup(c) && OwnersOk(c, s) && k + 1 < |c.registered|
  {
    var x, y := c.registered[k], c.registered[k + 1];
    assert x in c.registered && y in c.registered;
    && (forall g <- s.order[x] :: Known(c, g))
    && (forall g <- s.order[y] :: Known(c, g))
    && AllGrants(c, s.order[x]) == AllGrants(c, s.order[y]) + Between(c, s, k)
  }

  lemma AllSnoc(c: Setup, grants: seq<Grant>, g: Grant)
    requires (forall h <- grants :: Known(c, h)) && Known(c, g)
    ensures forall h <- grants + [g] :: Known(c, h)
    ensures AllGrants(c, grants + [g]) ==
            if c.work[g.thread][g.chain].All? then AllGrants(c, grants) + [g] else AllGrants(c, grants)
  {
    assert (grants + [g])[..|grants|] == grants;
  }

  /** The thread locks registered stream m for a chain of the distributor. */
  predicate Climbs(c: Setup, s: State, t: nat, m: nat)
    requires Shape(c, s) && Busy(c, s, t)
  {
    Current(c, t, s.threads[t]).All? && s.threads[t].phase == Locking(m)
  }

  /** A climbing thread holds the registered streams below the one it locks next. */
  lemma ClimberHolds(c: Setup, s: State, t: nat, m: nat)
    requires ValidSetup(c) && OwnersOk(c, s) && Busy(c, s, t) && Climbs(c, s, t, m) && 0 < m
    ensures m < |c.registered| && Between(c, s, m - 1) == [Grant(t, s.threads[t].chain)]
  {
    var x := c.registered[m - 1];
    assert c.registered[..m][m - 1] == x;
    assert x in c.registered && OwnerOk(c, s, x);
    assert x in Holds(c, t, s.threads[t]);
  }

  lemma GapNext(c: Setup, t: nat, th: Thread, k: nat)
    requires ValidSetup(c) && ThreadOk(c, t, th) && Active(c, t, th) && k + 1 < |c.registered|
    ensures Gap(c, t, Next(Goals(c, t, th), |Current(c, t, th).items|, th), k) ==
            if Current(c, t, th).All? && th.phase == Locking(k) then [Grant(t, th.chain)] else []
  {
  }

  lemma BetweenStep(c: Setup, s: State, t: nat, k: nat)
    requires ValidSetup(c) && Sequences.NoDup(c.registered) && OwnersOk(c, s) && Enabled(c, s, t) && k + 1 < |c.registered|
    ensures OwnersOk(c, Apply(c, s, t))
    ensures Between(c, Apply(c, s, t), k) ==
            if Climbs(c, s, t, k) then [Grant(t, s.threads[t].chain)] else if Climbs(c, s, t, k + 1) then [] else Between(c, s, k)
    ensures Climbs(c, s, t, k) ==> Between(c, s, k) == []
  {
    OwnersStep(c, s, t);
    GapNext(c, t, s.threads[t], k);
    if Climbs(c, s, t, k + 1) {
      ClimberHolds(c, s, t, k + 1);
    }
    var x := c.registered[k];
    assert x in c.registered && OwnerOk(c, s, x) && OwnerOk(c, Apply(c, s, t), x);
    if s.owner[x] == Some(t) {
      BetweenOwn(c, s, t, k);
    }
  }

  /** The step of a thread that has registered stream k. */
  lemma BetweenOwn(c: Setup, s: State, t: nat, k: nat)
    requires ValidSetup(c) && Sequences.NoDup(c.registered) && OwnersOk(c, s) && Enabled(c, s, t) && k + 1 < |c.registered|
    requires c.registered[k] < c.streams && s.owner[c.registered[k]] == Some(t) && OwnerOk(c, s, c.registered[k])
    ensures !Climbs(c, s, t, k) && (!Climbs(c, s, t, k + 1) ==> Between(c, s, k) == [])
  {
    assert c.registered[k] in Holds(c, t, s.threads[t]);
  }

  /** How a step changes the distributor's grants of registered stream k. */
  lemma AllStep(c: Setup, s: State, t: nat, k: nat)
    requires ValidSetup(c) && Sequences.NoDup(c.registered) && OwnersOk(c, s) && Enabled(c, s, t) && k < |c.registered|
    requires c.registered[k] < c.streams && forall g <- s.order[c.registered[k]] :: Known(c, g)
    ensures var x, s' := c.registered[k], Apply(c, s, t);
            && (forall g <- s'.order[x] :: Known(c, g))
            && AllGrants(c, s'.order[x])
            == if Climbs(c, s, t, k) then AllGrants(c, s.order[x]) + [Grant(t, s.threads[t].chain)] else AllGrants(c, s.order[x])
  {
    AllSnoc(c, s.order[c.registered[k]], Grant(t, s.threads[t].chain));
  }

  lemma PairSum<T>(a: seq<T>, b: seq<T>, gap: seq<T>, a': seq<T>, b': seq<T>, gap': seq<T>, g: T, low: bool, high: bool)
    requires a == b + gap && !(low && high) && (low ==> gap == []) && (high ==> gap == [g])
    requires a' == (if low then a + [g] else a) && b' == (if high then b + [g] else b)
    requires gap' == if low then [g] else if high then [] else gap
    ensures a' == b' + gap'
  {
  }

  lemma PairStep(c: Setup, s: State, t: nat, k: nat)
    requires ValidSetup(c) && Sequences.NoDup(c.registered) && OwnersOk(c, s) && Enabled(c, s, t)
    requires k + 1 < |c.registered| && PairOk(c, s, k)
    ensures OwnersOk(c, Apply(c, s, t)) && PairOk(c, Apply(c, s, t), k)
  {
    BetweenStep(c, s, t, k);
    var x, y, s' := c.registered[k], c.registered[k + 1], Apply(c, s, t);
    assert x in c.registered && y in c.registered;
    AllStep(c, s, t, k);
    AllStep(c, s, t, k + 1);
    if Climbs(c, s, t, k + 1) {
      ClimberHolds(c, s, t, k + 1);
    }
    PairSum(AllGrants(c, s.order[x]), AllGrants(c, s.order[y]), Between(c, s, k),
            AllGrants(c, s'.order[x]), AllGrants(c, s'.order[y]), Between(c, s', k),
            Grant(t, s.threads[t].chain), Climbs(c, s, t, k), Climbs(c, s, t, k + 1));
  }
}
