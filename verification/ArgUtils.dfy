/** The extraction of switches from the arguments of mkcrd (app/mkcrd/nsCompo/cArgUtils.cpp), in the
    Microsoft style, whose normalisation leaves the arguments alone.  Positions are indices. */
module ArgUtils {
  import opened Wrappers

  /** The switches a program knows: the synonyms of each tag, in the order of their set. */
  type Usable = map<string, seq<string>>

  datatype Call = Call(tag: string, group: int, min: nat, max: nat)

  datatype Window = Window(begin: nat, size: nat)

  datatype Failure = UsedTogether(switches: seq<string>) | TooFew(items: seq<string>)

  datatype State = State(
    operands: seq<string>,
    switches: seq<string>,
    exclusive: map<int, seq<string>>,
    available: map<string, Window>)

  function Init(args: seq<string>): State {
    State(args, [], map[], map[])
  }

  predicate IsSwitch(u: Usable, s: string) {
    exists tag <- u :: s in u[tag]
  }

  function InGroup(s: State, group: int): seq<string> {
    if group in s.exclusive then s.exclusive[group] else []
  }

  /** std::find: the first position of x from i on, or the end. */
  function Find(xs: seq<string>, x: string, i: nat): (k: nat)
    requires i <= |xs|
    ensures i <= k <= |xs| && (k < |xs| ==> xs[k] == x) && forall j :: i <= j < k ==> xs[j] != x
    decreases |xs| - i
  {
    if i == |xs| || xs[i] == x then i else Find(xs, x, i + 1)
  }

  /** The place of the first synonym that stands among the operands. */
  function Place(operands: seq<string>, synonyms: seq<string>): (k: Option<nat>)
    ensures k.Some? ==> k.value < |operands| && operands[k.value] in synonyms
    ensures k.None? ==> forall x <- synonyms :: x !in operands
  {
    if synonyms == [] then None else
      var k := Find(operands, synonyms[0], 0);
      if k < |operands| then Some(k) else Place(operands, synonyms[1..])
  }

  /** Where the arguments of a switch at i end: at the end of the line, at another switch, or after the
      greatest number of arguments. */
  function WindowEnd(u: Usable, operands: seq<string>, i: nat, max: nat, j: nat): (k: nat)
    requires i < j <= |operands| && j - i <= max + 1
    ensures j <= k <= |operands| && k - i <= max + 1
    ensures forall l :: j <= l < k ==> !IsSwitch(u, operands[l])
    ensures k == |operands| || IsSwitch(u, operands[k]) || k - i == max + 1
    decreases |operands| - j
  {
    if j == |operands| || IsSwitch(u, operands[j]) || j - i >= max + 1 then j
    else WindowEnd(u, operands, i, max, j + 1)
  }

  /** The switch at place i is taken with its arguments, unless a check fails. */
  function Take(u: Usable, s: State, c: Call, i: nat): (State, Result<Option<Window>, Failure>)
    requires i < |s.operands|
  {
    var used := InGroup(s, c.group) + [s.operands[i]];
    var t := s.(exclusive := s.exclusive[c.group := used]);
    if |used| >= 2 then (t, Err(UsedTogether(used))) else
      var j := WindowEnd(u, s.operands, i, c.max, i + 1);
      if j - i < c.min + 1 then (t, Err(TooFew(s.operands[i..j]))) else
        var w := Window(|s.switches|, j - i);
        (t.(operands := s.operands[..i] + s.operands[j..],
            switches := s.switches + s.operands[i..j],
            available := if c.tag in s.available then s.available else s.available[c.tag := w]),
         Ok(Some(w)))
  }

  /** The effect of a search on the state, and its result. */
  function Search(u: Usable, s: State, c: Call): (State, Result<Option<Window>, Failure>)
    requires c.tag in u
  {
    match Place(s.operands, u[c.tag])
    case None => (s, Ok(None))
    case Some(i) => Take(u, s, c, i)
  }

  /** What a search moved to the switches, if anything. */
  function Moved(u: Usable, s: State, c: Call): Option<seq<string>>
    requires c.tag in u
  {
    var (t, r) := Search(u, s, c);
    if r.Ok? && r.value.Some? then Some(t.switches[r.value.value.begin..]) else None
  }

  // Any sequence of searches.

  predicate Known(u: Usable, calls: seq<Call>) {
    forall c <- calls :: c.tag in u
  }

  function Run(u: Usable, args: seq<string>, calls: seq<Call>): State
    requires Known(u, calls)
  {
    if calls == [] then Init(args) else Search(u, Run(u, args, calls[..|calls| - 1]), Last(u, calls)).0
  }

  function Last(u: Usable, calls: seq<Call>): (c: Call)
    requires Known(u, calls) && calls != []
    ensures c == calls[|calls| - 1] && c.tag in u
  {
    assert calls[|calls| - 1] in calls;
    calls[|calls| - 1]
  }

  /** The searches that moved something, with what they moved. */
  function Accepted(u: Usable, args: seq<string>, calls: seq<Call>): seq<(Call, seq<string>)>
    requires Known(u, calls)
  {
    if calls == [] then [] else
      var init, c := calls[..|calls| - 1], Last(u, calls);
      var m := Moved(u, Run(u, args, init), c);
      if m.Some? then Accepted(u, args, init) + [(c, m.value)] else Accepted(u, args, init)
  }

  function Items(moves: seq<(Call, seq<string>)>): seq<string> {
    if moves == [] then [] else Items(moves[..|moves| - 1]) + moves[|moves| - 1].1
  }

  function OfGroup(moves: seq<(Call, seq<string>)>, group: int): nat {
    if moves == [] then 0 else
      OfGroup(moves[..|moves| - 1], group) + if moves[|moves| - 1].0.group == group then 1 else 0
  }

  /** A switch of the tag, then as many arguments as are allowed, and no other switch. */
  predicate WindowOk(u: Usable, c: Call, items: seq<string>) {
    && c.tag in u
    && c.min + 1 <= |items| <= c.max + 1
    && items[0] in u[c.tag]
    && forall k :: 1 <= k < |items| ==> !IsSwitch(u, items[k])
  }

  /** xs is what is left of ys when some elements are taken out. */
  predicate Leftover(xs: seq<string>, ys: seq<string>) {
    if xs == [] then true
    else if ys == [] then false
    else if xs[|xs| - 1] == ys[|ys| - 1] && Leftover(xs[..|xs| - 1], ys[..|ys| - 1]) then true
    else Leftover(xs, ys[..|ys| - 1])
  }

  lemma LeftoverTake(xs: seq<string>, ys: seq<string>, i: nat, j: nat)
    requires i <= j <= |xs| && Leftover(xs, ys)
    ensures Leftover(xs[..i] + xs[j..], ys)
    decreases |ys|
  {
    var cut := xs[..i] + xs[j..];
    if cut != [] {
      var ys', xs' := ys[..|ys| - 1], xs[..|xs| - 1];
      if xs[|xs| - 1] == ys[|ys| - 1] && Leftover(xs', ys') {
        if j < |xs| {
          LeftoverTake(xs', ys', i, j);
          assert cut[..|cut| - 1] == xs'[..i] + xs'[j..];
        } else {
          LeftoverFront(xs, ys, i);
          assert cut == xs[..i];
        }
      } else {
        LeftoverTake(xs, ys', i, j);
      }
    }
  }

  lemma LeftoverFront(xs: seq<string>, ys: seq<string>, i: nat)
    requires i <= |xs| && Leftover(xs, ys)
    ensures Leftover(xs[..i], ys)
    decreases |ys|
  {
    if i == |xs| {
      assert xs[..i] == xs;
    } else if i > 0 {
      var ys', xs' := ys[..|ys| - 1], xs[..|xs| - 1];
      if xs[|xs| - 1] == ys[|ys| - 1] && Leftover(xs', ys') {
        LeftoverFront(xs', ys', i);
        assert xs'[..i] == xs[..i];
      } else {
        LeftoverFront(xs, ys', i);
      }
    }
  }

  lemma LeftoverSelf(xs: seq<string>)
    ensures Leftover(xs, xs)
  {
  }

  ghost predicate Inv(u: Usable, args: seq<string>, moves: seq<(Call, seq<string>)>, s: State) {
    && multiset(s.operands) + multiset(s.switches) == multiset(args)
    && Leftover(s.operands, args)
    && s.switches == Items(moves)
    && (forall m <- moves :: WindowOk(u, m.0, m.1))
    && GroupsOk(moves, s)
  }

  /** No group was accepted twice, and only groups with an entry were. */
  ghost predicate GroupsOk(moves: seq<(Call, seq<string>)>, s: State) {
    forall g :: OfGroup(moves, g) <= 1 && OfGroup(moves, g) <= |InGroup(s, g)|
  }

  lemma SearchMoves(u: Usable, s: State, c: Call, items: seq<string>)
    requires c.tag in u && Moved(u, s, c) == Some(items)
    ensures WindowOk(u, c, items) && InGroup(s, c.group) == []
    ensures var t := Search(u, s, c).0;
            && t.switches == s.switches + items
            && |InGroup(t, c.group)| == 1 && (forall g :: g != c.group ==> InGroup(t, g) == InGroup(s, g))
            && exists i, j :: 0 <= i < j <= |s.operands| && items == s.operands[i..j] &&
                              t.operands == s.operands[..i] + s.operands[j..]
  {
    var i := Place(s.operands, u[c.tag]).value;
    var j := WindowEnd(u, s.operands, i, c.max, i + 1);
    assert (s.switches + s.operands[i..j])[|s.switches|..] == s.operands[i..j];
  }

  lemma SearchKeeps(u: Usable, s: State, c: Call)
    requires c.tag in u && Moved(u, s, c) == None
    ensures var t := Search(u, s, c).0;
            t.operands == s.operands && t.switches == s.switches && t.available == s.available &&
            forall g :: |InGroup(s, g)| <= |InGroup(t, g)|
  {
  }

  lemma TakenOut(xs: seq<string>, i: nat, j: nat)
    requires i <= j <= |xs|
    ensures multiset(xs[..i] + xs[j..]) + multiset(xs[i..j]) == multiset(xs)
  {
    assert xs == xs[..i] + xs[i..j] + xs[j..];
  }

  lemma MovesSnoc(moves: seq<(Call, seq<string>)>, c: Call, items: seq<string>, s: State, t: State)
    requires GroupsOk(moves, s) && InGroup(s, c.group) == [] && |InGroup(t, c.group)| == 1
    requires forall g :: g != c.group ==> InGroup(t, g) == InGroup(s, g)
    ensures Items(moves + [(c, items)]) == Items(moves) + items && GroupsOk(moves + [(c, items)], t)
  {
    var all := moves + [(c, items)];
    assert all[..|all| - 1] == moves;
    assert OfGroup(moves, c.group) == 0;
    forall g ensures OfGroup(all, g) <= 1 && OfGroup(all, g) <= |InGroup(t, g)| {
      assert OfGroup(moves, g) <= |InGroup(s, g)|;
    }
  }

  lemma StepInv(u: Usable, args: seq<string>, moves: seq<(Call, seq<string>)>, s: State, c: Call, items: seq<string>)
    requires Inv(u, args, moves, s) && c.tag in u && Moved(u, s, c) == Some(items)
    ensures Inv(u, args, moves + [(c, items)], Search(u, s, c).0)
  {
    SearchMoves(u, s, c, items);
    var t := Search(u, s, c).0;
    MovesSnoc(moves, c, items, s, t);
    var i, j :| 0 <= i < j <= |s.operands| && items == s.operands[i..j] && t.operands == s.operands[..i] + s.operands[j..];
    OperandsStep(s, t, args, i, j);
  }

  lemma OperandsStep(s: State, t: State, args: seq<string>, i: nat, j: nat)
    requires i < j <= |s.operands| && t.operands == s.operands[..i] + s.operands[j..]
    requires t.switches == s.switches + s.operands[i..j]
    requires multiset(s.operands) + multiset(s.switches) == multiset(args) && Leftover(s.operands, args)
    ensures multiset(t.operands) + multiset(t.switches) == multiset(args) && Leftover(t.operands, args)
  {
    TakenOut(s.operands, i, j);
    LeftoverTake(s.operands, args, i, j);
  }

  /** After any sequence of searches the operands and the extracted switches are together the arguments;
      the operands stand in their old order; the switches are the windows of the accepted searches, each
      legal; and no exclusive group was accepted twice. */
  lemma {:induction false} RunInv(u: Usable, args: seq<string>, calls: seq<Call>)
    requires Known(u, calls)
    ensures Inv(u, args, Accepted(u, args, calls), Run(u, args, calls))
    decreases |calls|
  {
    if calls == [] {
      LeftoverSelf(args);
    } else {
      var init, c := calls[..|calls| - 1], Last(u, calls);
      RunInv(u, args, init);
      var s := Run(u, args, init);
      if Moved(u, s, c).Some? {
        StepInv(u, args, Accepted(u, args, init), s, c, Moved(u, s, c).value);
      } else {
        SearchKeeps(u, s, c);
      }
    }
  }

  /** The first operands behind place i that are no switches. */
  predicate Follow(u: Usable, operands: seq<string>, i: nat, n: nat) {
    i + n < |operands| && forall k :: i < k <= i + n ==> !IsSwitch(u, operands[k])
  }

  /** A search succeeds exactly when a synonym is there, its group is unused, and enough arguments that
      are no switches follow it. */
  lemma MovedIff(u: Usable, s: State, c: Call)
    requires c.tag in u
    ensures Moved(u, s, c).Some? <==>
            && InGroup(s, c.group) == [] && c.min <= c.max
            && var i := Place(s.operands, u[c.tag]); i.Some? && Follow(u, s.operands, i.value, c.min)
    ensures Search(u, s, c).1 == Ok(None) <==> forall x <- u[c.tag] :: x !in s.operands
  {
    var place := Place(s.operands, u[c.tag]);
    if place.Some? {
      var i := place.value;
      var j := WindowEnd(u, s.operands, i, c.max, i + 1);
      assert |InGroup(s, c.group) + [s.operands[i]]| == |InGroup(s, c.group)| + 1;
    }
  }

  // A search without the functions that compute it.

  /** Place i is the first one of the first synonym that stands among the operands. */
  predicate FirstSynonym(operands: seq<string>, synonyms: seq<string>, i: nat) {
    && i < |operands|
    && (forall k :: 0 <= k < i ==> operands[k] != operands[i])
    && exists n :: 0 <= n < |synonyms| && synonyms[n] == operands[i] && forall m :: 0 <= m < n ==> synonyms[m] !in operands
  }

  /** The arguments of the switch at place i reach to j: no switch is among them, and they end with the line, in front of a
      switch or with the greatest number. */
  predicate ReachesTo(u: Usable, operands: seq<string>, i: nat, max: nat, j: nat) {
    && i < j <= |operands| && j - i <= max + 1
    && (forall k :: i < k < j ==> !IsSwitch(u, operands[k]))
    && (j == |operands| || IsSwitch(u, operands[j]) || j - i == max + 1)
  }

  lemma {:induction false} PlaceMeans(operands: seq<string>, synonyms: seq<string>, i: nat)
    ensures Place(operands, synonyms) == Some(i) <==> FirstSynonym(operands, synonyms, i)
    decreases |synonyms|
  {
    if synonyms != [] {
      var x, rest := synonyms[0], synonyms[1..];
      PlaceMeans(operands, rest, i);
      if x in operands {
        if FirstSynonym(operands, synonyms, i) {
          assert operands[i] == x;
        }
      } else {
        if FirstSynonym(operands, synonyms, i) {
          var n :| 0 <= n < |synonyms| && synonyms[n] == operands[i] && forall m :: 0 <= m < n ==> synonyms[m] !in operands;
          assert n > 0 && rest[n - 1] == operands[i];
          assert forall m :: 0 <= m < n - 1 ==> rest[m] == synonyms[m + 1];
        }
        if FirstSynonym(operands, rest, i) {
          var n :| 0 <= n < |rest| && rest[n] == operands[i] && forall m :: 0 <= m < n ==> rest[m] !in operands;
          assert synonyms[n + 1] == operands[i];
          assert forall m :: 0 <= m < n + 1 ==> synonyms[m] == if m == 0 then x else rest[m - 1];
        }
      }
    }
  }

  lemma ReachesOnce(u: Usable, operands: seq<string>, i: nat, max: nat, j: nat)
    requires ReachesTo(u, operands, i, max, j)
    ensures WindowEnd(u, operands, i, max, i + 1) == j
  {
  }

  /** What becomes of the switch at place i, whose arguments reach to j.  It is booked for its group.  It is refused if the
      group was used, with all switches booked, or if too few arguments follow it, with those that do; else it is moved
      with its arguments, and the first window of its tag is remembered. */
  predicate Taken(s: State, c: Call, i: nat, j: nat, t: State, r: Result<Option<Window>, Failure>)
    requires i < j <= |s.operands|
  {
    var used, found := if c.group in s.exclusive then s.exclusive[c.group] else [], s.operands[i..j];
    && t.exclusive == s.exclusive[c.group := used + [s.operands[i]]]
    && if used != [] then r == Err(UsedTogether(used + [s.operands[i]])) && SameBut(s, t)
       else if j - i < c.min + 1 then r == Err(TooFew(found)) && SameBut(s, t)
       else
         var window := Window(|s.switches|, j - i);
         && r == Ok(Some(window))
         && t.operands == s.operands[..i] + s.operands[j..] && t.switches == s.switches + found
         && t.available == if c.tag in s.available then s.available else s.available[c.tag := window]
  }

  predicate SameBut(s: State, t: State) {
    t.operands == s.operands && t.switches == s.switches && t.available == s.available
  }

  lemma TakeMeans(u: Usable, s: State, c: Call, i: nat, j: nat)
    requires i < |s.operands| && ReachesTo(u, s.operands, i, c.max, j)
    ensures Taken(s, c, i, j, Take(u, s, c, i).0, Take(u, s, c, i).1)
  {
    ReachesOnce(u, s.operands, i, c.max, j);
  }

  /** A search that finds no synonym changes nothing; otherwise it takes the first place of the first synonym. */
  lemma SearchMeans(u: Usable, s: State, c: Call, i: nat, j: nat)
    requires c.tag in u
    ensures (forall x <- u[c.tag] :: x !in s.operands) ==> Search(u, s, c) == (s, Ok(None))
    ensures FirstSynonym(s.operands, u[c.tag], i) && ReachesTo(u, s.operands, i, c.max, j) ==>
              Taken(s, c, i, j, Search(u, s, c).0, Search(u, s, c).1)
  {
    if FirstSynonym(s.operands, u[c.tag], i) && ReachesTo(u, s.operands, i, c.max, j) {
      PlaceMeans(s.operands, u[c.tag], i);
      TakeMeans(u, s, c, i, j);
    }
  }

  // What is remembered.

  function FirstMove(moves: seq<(Call, seq<string>)>, tag: string): Option<seq<string>> {
    if moves == [] then None else
      var first, last := FirstMove(moves[..|moves| - 1], tag), moves[|moves| - 1];
      if first.None? && last.0.tag == tag then Some(last.1) else first
  }

  /** For a tag is remembered where its first accepted search put what it found. */
  predicate Remembered(moves: seq<(Call, seq<string>)>, s: State, tag: string) {
    && (tag in s.available <==> FirstMove(moves, tag).Some?)
    && (tag in s.available ==>
          var w := s.available[tag];
          w.begin + w.size <= |s.switches| && s.switches[w.begin..w.begin + w.size] == FirstMove(moves, tag).value)
  }

  lemma {:induction false} WindowsStay(u: Usable, args: seq<string>, calls: seq<Call>, tag: string)
    requires Known(u, calls)
    ensures Remembered(Accepted(u, args, calls), Run(u, args, calls), tag)
    decreases |calls|
  {
    if calls != [] {
      var init, c := calls[..|calls| - 1], Last(u, calls);
      WindowsStay(u, args, init, tag);
      RememberedStep(u, Accepted(u, args, init), Run(u, args, init), c, tag);
    }
  }

  lemma SearchRemembers(u: Usable, s: State, c: Call, items: seq<string>)
    requires c.tag in u && Moved(u, s, c) == Some(items)
    ensures Search(u, s, c).0.switches == s.switches + items
    ensures Search(u, s, c).0.available ==
            if c.tag in s.available then s.available else s.available[c.tag := Window(|s.switches|, |items|)]
  {
    var i := Place(s.operands, u[c.tag]).value;
    var j := WindowEnd(u, s.operands, i, c.max, i + 1);
    assert (s.switches + s.operands[i..j])[|s.switches|..] == s.operands[i..j];
  }

  lemma RememberMore(moves: seq<(Call, seq<string>)>, s: State, c: Call, items: seq<string>, t: State, tag: string)
    requires Remembered(moves, s, tag) && t.switches == s.switches + items
    requires t.available == if c.tag in s.available then s.available else s.available[c.tag := Window(|s.switches|, |items|)]
    ensures Remembered(moves + [(c, items)], t, tag)
  {
    assert (moves + [(c, items)])[..|moves|] == moves;
    if tag in s.available {
      var w := s.available[tag];
      assert t.switches[w.begin..w.begin + w.size] == s.switches[w.begin..w.begin + w.size];
    } else {
      assert t.switches[|s.switches|..|s.switches| + |items|] == items;
    }
  }

  lemma RememberedStep(u: Usable, moves: seq<(Call, seq<string>)>, s: State, c: Call, tag: string)
    requires c.tag in u && Remembered(moves, s, tag)
    ensures var m := Moved(u, s, c);
            Remembered(if m.Some? then moves + [(c, m.value)] else moves, Search(u, s, c).0, tag)
  {
    var m, t := Moved(u, s, c), Search(u, s, c).0;
    if m.Some? {
      SearchRemembers(u, s, c, m.value);
      RememberMore(moves, s, c, m.value, t, tag);
    } else {
      SearchKeeps(u, s, c);
    }
  }

  class Extractor {
    const usable: Usable
    var operands: seq<string>
    var switches: seq<string>
    var exclusive: map<int, seq<string>>
    var available: map<string, Window>

    function View(): State
      reads this
    {
      State(operands, switches, exclusive, available)
    }

    constructor (usable: Usable, args: seq<string>)
      ensures this.usable == usable && View() == Init(args)
    {
      this.usable := usable;
      operands, switches, exclusive, available := args, [], map[], map[];
    }

    /** iSearchOpt */
    method SearchOpt(c: Call) returns (r: Result<Option<Window>, Failure>)
      requires c.tag in usable
      modifies this
      ensures (View(), r) == Search(usable, old(View()), c)
    {
      var synonyms, n := usable[c.tag], 0;
      while n < |synonyms|
        invariant 0 <= n <= |synonyms| && View() == old(View())
        invariant Place(operands, synonyms[n..]) == Place(operands, synonyms)
      {
        assert synonyms[n..][1..] == synonyms[n + 1..];
        var i := Find(operands, synonyms[n], 0);
        if i < |operands| {
          r := TakeSwitch(c, i);
          return;
        }
        n := n + 1;
      }
      r := Ok(None);
    }

    /** The switch at place i, with its arguments. */
    method TakeSwitch(c: Call, i: nat) returns (r: Result<Option<Window>, Failure>)
      requires i < |operands|
      modifies this
      ensures (View(), r) == Take(usable, old(View()), c, i)
    {
      var used := (if c.group in exclusive then exclusive[c.group] else []) + [operands[i]];
      exclusive := exclusive[c.group := used];
      if |used| >= 2 {
        return Err(UsedTogether(used));
      }
      var j := EndOfArguments(i, c.max);
      if j - i < c.min + 1 {
        return Err(TooFew(operands[i..j]));
      }
      var w := Window(|switches|, j - i);
      switches := switches + operands[i..j];
      operands := operands[..i] + operands[j..];
      if c.tag !in available {
        available := available[c.tag := w];
      }
      r := Ok(Some(w));
    }

    /** The inner loop: how far the arguments of the switch at place i reach. */
    method EndOfArguments(i: nat, max: nat) returns (j: nat)
      requires i < |operands|
      ensures j == WindowEnd(usable, operands, i, max, i + 1)
    {
      j := i;
      while true
        invariant i <= j < |operands| && j - i <= max
        invariant WindowEnd(usable, operands, i, max, j + 1) == WindowEnd(usable, operands, i, max, i + 1)
        decreases |operands| - j
      {
        j := j + 1;
        if j == |operands| || IsSwitch(usable, operands[j]) || j - i >= max + 1 {
          break;
        }
      }
    }
  }
}
