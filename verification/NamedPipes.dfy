/** Named pipes that are shared inside a process (lib/nsStreamLocator/cNamedPipe.cpp): the first handle of
    a name creates the FIFO unless it exists, and the last one removes what the first one created. */
module NamedPipes {
  import opened Wrappers

  datatype Kind = Fifo | File

  type Files = map<string, Kind>

  /** The counter of a name, and whether the FIFO was created here. */
  datatype Entry = Entry(count: int, created: bool)

  datatype State = State(entries: map<string, Entry>, files: Files)

  /** A handle is opened, where `allowed` says whether a FIFO may be created at its place; a handle is
      closed; another process changes the file system. */
  datatype Step = Open(name: string, allowed: bool) | Close(name: string) | Outside(files: Files)

  function Item(entries: map<string, Entry>, name: string): Entry {
    if name in entries then entries[name] else Entry(0, false)
  }

  /** mkfifo */
  function MkFifo(files: Files, name: string, allowed: bool): (Files, bool) {
    if allowed && name !in files then (files[name := Fifo], true) else (files, false)
  }

  /** The constructor; false stands for an exception. */
  function OpenPipe(s: State, name: string, allowed: bool): (State, bool) {
    var e := Item(s.entries, name);
    var (files, created) := if e.count == 0 then MkFifo(s.files, name, allowed) else (s.files, e.created);
    if name in files && files[name] == Fifo
    then (State(s.entries[name := Entry(e.count + 1, created)], files), true)
    else (State(s.entries[name := Entry(e.count, created)], files), false)
  }

  /** The destructor. */
  function ClosePipe(s: State, name: string): State {
    var e := Item(s.entries, name);
    if e.count - 1 == 0
    then State(s.entries - {name}, if e.created then s.files - {name} else s.files)
    else State(s.entries[name := e.(count := e.count - 1)], s.files)
  }

  /** A run with what it means: the open handles, and the names whose first open handle created the
      FIFO. */
  datatype Book = Book(s: State, live: multiset<string>, mine: set<string>)

  function Start(files: Files): Book {
    Book(State(map[], files), multiset{}, {})
  }

  predicate Enabled(b: Book, a: Step) {
    a.Close? ==> a.name in b.live
  }

  function Apply(b: Book, a: Step): Book
    requires Enabled(b, a)
  {
    match a
    case Open(name, allowed) =>
      var (s, ok) := OpenPipe(b.s, name, allowed);
      var live := if ok then b.live + multiset{name} else b.live;
      if name in b.live then Book(s, live, b.mine)
      else Book(s, live, if name !in b.s.files && name in s.files then b.mine + {name} else b.mine - {name})
    case Close(name) => Book(ClosePipe(b.s, name), b.live - multiset{name}, b.mine)
    case Outside(files) => b.(s := b.s.(files := files))
  }

  function Exec(files: Files, steps: seq<Step>): Option<Book> {
    if steps == [] then Some(Start(files)) else
      var before := Exec(files, steps[..|steps| - 1]);
      var a := steps[|steps| - 1];
      if before.Some? && Enabled(before.value, a) then Some(Apply(before.value, a)) else None
  }

  predicate NameOk(b: Book, name: string) {
    var e := Item(b.s.entries, name);
    e.count == b.live[name] && (name in b.live ==> (e.created <==> name in b.mine))
  }

  ghost predicate Inv(b: Book) {
    forall name :: NameOk(b, name)
  }

  lemma StepInv(b: Book, a: Step)
    requires Inv(b) && Enabled(b, a)
    ensures Inv(Apply(b, a))
  {
    forall name ensures NameOk(Apply(b, a), name) {
      assert NameOk(b, name);
      if !a.Outside? {
        assert NameOk(b, a.name);
      }
    }
  }

  /** Whatever other processes do: the stored count of a name is the number of its open handles. */
  lemma {:induction false} CountsHandles(files: Files, steps: seq<Step>)
    requires Exec(files, steps).Some?
    ensures Inv(Exec(files, steps).value)
    decreases |steps|
  {
    if steps != [] {
      CountsHandles(files, steps[..|steps| - 1]);
      StepInv(Exec(files, steps[..|steps| - 1]).value, steps[|steps| - 1]);
    }
  }

  /** A close removes the FIFO if and only if it closes the last handle and the open that found no handle
      created it; it touches no other file. */
  lemma UnlinkIff(b: Book, name: string)
    requires Inv(b) && name in b.live
    ensures ClosePipe(b.s, name).files == if b.live[name] == 1 && name in b.mine then b.s.files - {name} else b.s.files
  {
    assert NameOk(b, name);
  }

  /** An open succeeds if and only if the name is a FIFO, or nothing and no handle is open and a FIFO may
      be created. */
  lemma OpenIff(b: Book, name: string, allowed: bool)
    requires Inv(b)
    ensures OpenPipe(b.s, name, allowed).1 <==>
            if name in b.s.files then b.s.files[name] == Fifo else allowed && name !in b.live
  {
    assert NameOk(b, name);
  }

  // Without other processes.

  predicate Undisturbed(steps: seq<Step>) {
    forall a <- steps :: !a.Outside?
  }

  /** The files are those of the beginning and the FIFOs created for open handles. */
  predicate FilesOk(files: Files, b: Book, name: string) {
    && (name in files ==> name in b.s.files && b.s.files[name] == files[name] && (name in b.live ==> name !in b.mine))
    && (name !in files ==> (name in b.s.files <==> name in b.live) && (name in b.live ==> name in b.mine && b.s.files[name] == Fifo))
  }

  lemma FilesStep(files: Files, b: Book, a: Step, name: string)
    requires Inv(b) && Enabled(b, a) && !a.Outside? && FilesOk(files, b, name) && FilesOk(files, b, a.name)
    ensures FilesOk(files, Apply(b, a), name)
  {
    assert NameOk(b, a.name) && NameOk(b, name);
    if a.Open? {
      OpenIff(b, a.name, a.allowed);
    } else {
      UnlinkIff(b, a.name);
    }
  }

  lemma {:induction false} FilesInv(files: Files, steps: seq<Step>)
    requires Exec(files, steps).Some? && Undisturbed(steps)
    ensures forall name :: FilesOk(files, Exec(files, steps).value, name)
    decreases |steps|
  {
    if steps != [] {
      var init, a := steps[..|steps| - 1], steps[|steps| - 1];
      FilesInv(files, init);
      CountsHandles(files, init);
      forall name ensures FilesOk(files, Exec(files, steps).value, name) {
        FilesStep(files, Exec(files, init).value, a, name);
      }
    }
  }

  /** Once all handles are closed the file system is as it was found. */
  lemma LeftAsFound(files: Files, steps: seq<Step>)
    requires Exec(files, steps).Some? && Undisturbed(steps)
    ensures Exec(files, steps).value.live == multiset{} ==> Exec(files, steps).value.s.files == files
  {
    FilesInv(files, steps);
    var b := Exec(files, steps).value;
    if b.live == multiset{} {
      forall name ensures name in b.s.files <==> name in files {
        assert FilesOk(files, b, name);
      }
      forall name | name in files ensures b.s.files[name] == files[name] {
        assert FilesOk(files, b, name);
      }
    }
  }

  /** The shared map and the file system in place. */
  class Registry {
    var entries: map<string, Entry>
    var files: Files

    function View(): State
      reads this
    {
      State(entries, files)
    }

    constructor (files: Files)
      ensures View() == Start(files).s
    {
      entries, this.files := map[], files;
    }

    method Construct(name: string, allowed: bool) returns (ok: bool)
      modifies this
      ensures (View(), ok) == OpenPipe(old(View()), name, allowed)
    {
      if name !in entries {
        entries := entries[name := Entry(0, false)];
      }
      if entries[name].count == 0 {
        var (made, created) := MkFifo(files, name, allowed);
        files := made;
        entries := entries[name := Entry(0, created)];
      }
      assert entries == old(entries)[name := entries[name]];
      if name !in files {
        return false;
      }
      if files[name] != Fifo {
        return false;
      }
      entries := entries[name := Entry(entries[name].count + 1, entries[name].created)];
      assert entries == old(entries)[name := entries[name]];
      ok := true;
    }

    method Destroy(name: string)
      requires name in entries
      modifies this
      ensures View() == ClosePipe(old(View()), name)
    {
      var item := entries[name];
      item := item.(count := item.count - 1);
      entries := entries[name := item];
      if item.count == 0 {
        if item.created {
          files := files - {name};
        }
        entries := entries - {name};
      }
    }
  }
}
