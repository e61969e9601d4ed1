/** The token pool (inc/cPool.h): a stack of idle threads.  A caller of Pop waits until the stack
    is not empty, a caller of Synchronize until it is full. */
module Pools {
  class Pool {
    const parallelism: nat
    var idle: seq<nat>

    constructor (n: nat)
      ensures parallelism == n && idle == seq(n, i => i)
    {
      parallelism := n;
      idle := [];
      new;
      var i := 0;
      while i < n
        invariant 0 <= i <= n
        invariant idle == seq(i, j => j)
      {
        Push(i);
        i := i + 1;
      }
    }

    method Pop() returns (k: nat)
      requires idle != []
      modifies `idle
      ensures k == old(idle)[|old(idle)| - 1] && idle == old(idle)[..|old(idle)| - 1]
    {
      k := idle[|idle| - 1];
      idle := idle[..|idle| - 1];
    }

    method Push(k: nat)
      modifies `idle
      ensures idle == old(idle) + [k]
    {
      idle := idle + [k];
    }

    /** The wait of a pop: the threads that are out come back, one or more of them. */
    method Await(out: seq<nat>) returns (still: seq<nat>)
      requires idle != [] || out != []
      modifies `idle
      ensures idle != [] && |idle| + |still| == |old(idle)| + |out|
      ensures multiset(idle) + multiset(still) == multiset(old(idle)) + multiset(out)
      ensures out == [] ==> idle == old(idle) && still == []
    {
      still := out;
      var more: bool := *;
      while still != [] && (idle == [] || more)
        invariant idle != [] || still != []
        invariant |idle| + |still| == |old(idle)| + |out|
        invariant multiset(idle) + multiset(still) == multiset(old(idle)) + multiset(out)
        invariant out == [] ==> idle == old(idle) && still == []
        decreases |still|
      {
        var i: nat :| i < |still|;
        TakenOut(still, i);
        Push(still[i]);
        still := still[..i] + still[i + 1..];
        more := *;
      }
    }

    /** The destructor: it takes every token out, those that are still with a worker once they are back, and
        deletes each thread once. */
    method Drain(out: seq<nat>) returns (deleted: seq<nat>)
      requires |idle| + |out| == parallelism
      modifies `idle
      ensures idle == [] && |deleted| == parallelism
      ensures multiset(deleted) == multiset(old(idle)) + multiset(out)
      ensures out == [] ==> forall i :: 0 <= i < parallelism ==> deleted[i] == old(idle)[parallelism - 1 - i]
    {
      deleted := [];
      var still := out;
      for i := 0 to parallelism
        invariant |deleted| == i && |idle| + |still| == parallelism - i
        invariant multiset(deleted) + multiset(idle) + multiset(still) == multiset(old(idle)) + multiset(out)
        invariant out == [] ==> still == [] && idle == old(idle)[..parallelism - i]
        invariant out == [] ==> forall j :: 0 <= j < i ==> deleted[j] == old(idle)[parallelism - 1 - j]
      {
        ghost var before, out' := multiset(idle), multiset(still);
        still := Await(still);
        Regroup(multiset(deleted), before, out', multiset(idle), multiset(still));
        TopMoves(deleted, idle);
        var k := Pop();
        deleted := deleted + [k];
      }
    }
  }

  lemma TakenOut(xs: seq<nat>, i: nat)
    requires i < |xs|
    ensures multiset(xs[..i] + xs[i + 1..]) + multiset{xs[i]} == multiset(xs)
  {
    assert xs == xs[..i] + [xs[i]] + xs[i + 1..];
  }

  lemma TopMoves(deleted: seq<nat>, idle: seq<nat>)
    requires idle != []
    ensures multiset(deleted + [idle[|idle| - 1]]) + multiset(idle[..|idle| - 1]) == multiset(deleted) + multiset(idle)
  {
    assert idle == idle[..|idle| - 1] + [idle[|idle| - 1]];
  }

  lemma Regroup(a: multiset<nat>, b: multiset<nat>, c: multiset<nat>, b': multiset<nat>, c': multiset<nat>)
    requires b + c == b' + c'
    ensures a + b + c == a + b' + c'
  {
    assert a + b + c == a + (b + c) && a + b' + c' == a + (b' + c');
  }
}
