/** The log distributor (lib/cDistributor.cpp) and the chains written through it (inc/cSafeOstream.h) as
    code: registration, and one thread's lock, write and unlock loops with the steps of the other
    threads interleaved wherever they can be. */
module Distributors {
  import opened Wrappers
  import Sequences
  import opened LogProtocol
  import opened LogGuarantees

  /** The registered streams, and their mutexes in the same order. */
  class Distributor {
    var vct: seq<Stream>
    var locks: seq<Stream>

    predicate Valid()
      reads this
    {
      locks == vct
    }

    constructor ()
      ensures Valid() && vct == []
    {
      vct, locks := [], [];
    }

    method Register(os: Stream)
      requires Valid()
      modifies this
      ensures Valid() && vct == old(vct) + [os]
    {
      vct := vct + [os];
      locks := locks + [os];
    }
  }

  class Logs {
    const setup: Setup
    var threads: seq<Thread>
    var owner: seq<Option<nat>>
    var text: seq<seq<string>>
    var order: seq<seq<Grant>>
    ghost var steps: seq<nat>

    function View(): State
      reads this
    {
      State(threads, owner, text, order)
    }

    ghost predicate Valid()
      reads this
    {
      && ValidSetup(setup) && Sequences.NoDup(setup.registered)
      && Exec(setup, steps) == Some(View())
    }

    constructor (streams: nat, d: Distributor, work: seq<seq<Chain>>)
      requires d.Valid() && Sequences.NoDup(d.vct) && ValidSetup(Setup(streams, d.vct, work))
      ensures Valid() && setup == Setup(streams, d.vct, work) && View() == Init(setup)
    {
      setup := Setup(streams, d.locks, work);
      threads := seq(|work|, t => Thread(0, Locking(0)));
      owner, text, order := seq(streams, x => None), seq(streams, x => []), seq(streams, x => []);
      steps := [];
    }

    /** The thread t made one step: the state before it is `before`. */
    ghost method Note(before: State, t: nat)
      requires ValidSetup(setup) && Sequences.NoDup(setup.registered) && Exec(setup, steps) == Some(before)
      requires Enabled(setup, before, t) && View() == Apply(setup, before, t)
      modifies `steps
      ensures Valid() && Remaining(setup, threads) < Remaining(setup, before.threads)
    {
      StepCosts(setup, before, t);
      steps := Extend(setup, steps, before, t);
    }

    method LockOne(t: nat)
      requires Valid() && Enabled(setup, View(), t) && threads[t].phase.Locking?
      modifies this
      ensures Valid() && View() == Apply(setup, old(View()), t) && Remaining(setup, threads) < Remaining(setup, old(threads))
    {
      ghost var before := View();
      var th, x := threads[t], Goal(setup, View(), t);
      owner := owner[x := Some(t)];
      order := order[x := order[x] + [Grant(t, th.chain)]];
      threads := threads[t := Next(Goals(setup, t, th), |Current(setup, t, th).items|, th)];
      Note(before, t);
    }

    method PutOne(t: nat)
      requires Valid() && Enabled(setup, View(), t) && threads[t].phase.Writing?
      modifies this
      ensures Valid() && View() == Apply(setup, old(View()), t) && Remaining(setup, threads) < Remaining(setup, old(threads))
    {
      ghost var before := View();
      var th, x := threads[t], Goal(setup, View(), t);
      text := text[x := text[x] + [Current(setup, t, th).items[th.phase.item]]];
      threads := threads[t := Next(Goals(setup, t, th), |Current(setup, t, th).items|, th)];
      Note(before, t);
    }

    method UnlockOne(t: nat)
      requires Valid() && Enabled(setup, View(), t) && threads[t].phase.Unlocking?
      modifies this
      ensures Valid() && View() == Apply(setup, old(View()), t) && Remaining(setup, threads) < Remaining(setup, old(threads))
    {
      ghost var before := View();
      var th, x := threads[t], Goal(setup, View(), t);
      owner := owner[x := None];
      threads := threads[t := Next(Goals(setup, t, th), |Current(setup, t, th).items|, th)];
      Note(before, t);
    }

    /** One step of a thread other than t. */
    method Move(t: nat, u: nat)
      requires Valid() && Enabled(setup, View(), u) && t != u && t < |threads|
      modifies this
      ensures Valid() && |threads| == old(|threads|) && threads[t] == old(threads[t])
      ensures Remaining(setup, threads) < Remaining(setup, old(threads))
    {
      if threads[u].phase.Locking? {
        LockOne(u);
      } else if threads[u].phase.Writing? {
        PutOne(u);
      } else {
        UnlockOne(u);
      }
    }

    /** Between two steps of thread t: any number of steps of the others. */
    method Others(t: nat)
      requires Valid() && t < |threads|
      modifies this
      ensures Valid() && |threads| == old(|threads|) && threads[t] == old(threads[t])
    {
      var n: nat := *;
      while n > 0
        invariant Valid() && |threads| == old(|threads|) && threads[t] == old(threads[t])
      {
        var u: nat := *;
        if u != t && Enabled(setup, View(), u) {
          Move(t, u);
        }
        n := n - 1;
      }
    }

    /** The wait for a mutex: the others run until it is free. */
    method Await(t: nat)
      requires Valid() && Busy(setup, View(), t)
      modifies this
      ensures Valid() && |threads| == old(|threads|) && threads[t] == old(threads[t])
      ensures Enabled(setup, View(), t)
    {
      while !Enabled(setup, View(), t)
        invariant Valid() && |threads| == old(|threads|) && threads[t] == old(threads[t])
        decreases Remaining(setup, threads)
      {
        RunInv(setup, steps);
        RemainingPositive(setup, threads);
        ghost var v := Unblocked(setup, View(), t);
        var u :| 0 <= u < |threads| && Enabled(setup, View(), u);
        Move(t, u);
      }
    }

    /** cMtxArray::lock, or the lock of a single stream. */
    method Lock(t: nat)
      requires Valid() && Busy(setup, View(), t) && threads[t].phase == Locking(0)
      modifies this
      ensures Valid() && |threads| == old(|threads|) && threads[t] == Thread(old(threads[t].chain), Writing(0, 0))
    {
      var targets, k := Goals(setup, t, threads[t]), 0;
      while k < |targets|
        invariant Valid() && |threads| == old(|threads|) && 0 <= k <= |targets|
        invariant threads[t] == Thread(old(threads[t].chain), if k < |targets| then Locking(k) else Writing(0, 0))
      {
        Others(t);
        Await(t);
        LockOne(t);
        k := k + 1;
      }
    }

    /** vPutValue of the item i. */
    method PutValue(t: nat, i: nat)
      requires Valid() && Busy(setup, View(), t) && threads[t].phase == Writing(i, 0)
      modifies this
      ensures Valid() && |threads| == old(|threads|)
      ensures threads[t] == Thread(old(threads[t].chain),
                                   if i + 1 < |Current(setup, t, old(threads[t])).items| then Writing(i + 1, 0) else Unlocking(0))
    {
      var targets, k := Goals(setup, t, threads[t]), 0;
      while k < |targets|
        invariant Valid() && |threads| == old(|threads|) && 0 <= k <= |targets|
        invariant threads[t] == Thread(old(threads[t].chain),
                                       if k < |targets| then Writing(i, k)
                                       else if i + 1 < |Current(setup, t, old(threads[t])).items| then Writing(i + 1, 0)
                                       else Unlocking(0))
      {
        Others(t);
        PutOne(t);
        k := k + 1;
      }
    }

    /** cMtxArray::unlock, or the unlock of a single stream. */
    method Unlock(t: nat)
      requires Valid() && Busy(setup, View(), t) && threads[t].phase == Unlocking(0)
      modifies this
      ensures Valid() && |threads| == old(|threads|) && threads[t] == Thread(old(threads[t].chain) + 1, Locking(0))
    {
      var targets, k := Goals(setup, t, threads[t]), 0;
      while k < |targets|
        invariant Valid() && |threads| == old(|threads|) && 0 <= k <= |targets|
        invariant threads[t] ==
                  if k < |targets| then Thread(old(threads[t].chain), Unlocking(k)) else Thread(old(threads[t].chain) + 1, Locking(0))
      {
        Others(t);
        UnlockOne(t);
        k := k + 1;
      }
    }

    /** One chain of output operators, from the leftmost one to the end of the expression: afterwards exactly the streams
        it belongs on were locked for it, in its turn, and it stands there in one piece. */
    method Put(t: nat)
      requires Valid() && Busy(setup, View(), t) && threads[t].phase == Locking(0)
      modifies this
      ensures Valid() && |threads| == old(|threads|) && threads[t] == Thread(old(threads[t].chain) + 1, Locking(0))
      ensures forall x: Stream :: x < setup.streams ==>
                InTurn(order[x], t) && (Grant(t, old(threads[t].chain)) in order[x] <==> GoesTo(setup, t, old(threads[t].chain), x))
      ensures forall x: Stream :: x < setup.streams && GoesTo(setup, t, old(threads[t].chain), x) ==>
                Contains(text[x], setup.work[t][old(threads[t].chain)].items)
    {
      var n, i := |Current(setup, t, threads[t]).items|, 0;
      GoalsExist(setup, t, threads[t]);
      Lock(t);
      while i < n
        invariant Valid() && |threads| == old(|threads|) && 0 <= i <= n
        invariant threads[t] == Thread(old(threads[t].chain), if i < n then Writing(i, 0) else Unlocking(0))
      {
        PutValue(t, i);
        i := i + 1;
      }
      Unlock(t);
      ghost var j := old(threads[t].chain);
      forall x: Stream | x < setup.streams
        ensures InTurn(order[x], t) && (Grant(t, j) in order[x] <==> GoesTo(setup, t, j, x))
        ensures GoesTo(setup, t, j, x) ==> Contains(text[x], setup.work[t][j].items)
      {
        EachChainOnce(setup, View(), x, t);
        if GoesTo(setup, t, j, x) {
          WrittenWhole(setup, View(), x, t, j);
        }
      }
    }
  }
}
