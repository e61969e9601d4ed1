/** The pipes between a process and the child it forks (lib/nsStreamLocator/cLocalProcess.cpp), over
    descriptor tables that allocate the lowest free number (section 2.14 of POSIX.1-2017, XSH). */
module Pipes {
  import opened Wrappers

  const NOT_ASSIGNED := -1

  /** What a descriptor refers to: an end of a pipe, or anything else. */
  datatype End = Reader(pipe: nat) | Writer(pipe: nat) | Other(file: nat)

  type Table = map<int, End>

  datatype Direction = Read | Write

  /** The two descriptors of a Pipe object. */
  datatype Fds = Fds(read: int, write: int)
  {
    function Get(dir: Direction): int {
      if dir == Read then read else write
    }

    function Set(dir: Direction, fd: int): Fds {
      if dir == Read then this.(read := fd) else this.(write := fd)
    }
  }

  const GONE := Fds(NOT_ASSIGNED, NOT_ASSIGNED)

  function Anti(dir: Direction): Direction {
    if dir == Read then Write else Read
  }

  /** The lowest number from i on that is not in use. */
  function Lowest(used: set<int>, i: int): (n: int)
    ensures i <= n && n !in used && forall k :: i <= k < n ==> k in used
    decreases used
  {
    if i !in used then i else Lowest(used - {i}, i + 1)
  }

  // System calls.

  /** pipe, of a pipe with number id. */
  function NewPipe(t: Table, id: nat): (Table, Fds) {
    var r := Lowest(t.Keys, 0);
    var w := Lowest(t.Keys + {r}, 0);
    (t[r := Reader(id)][w := Writer(id)], Fds(r, w))
  }

  function Dup(t: Table, fd: int): (Table, int) {
    if fd !in t then (t, NOT_ASSIGNED) else
      var n := Lowest(t.Keys, 0);
      (t[n := t[fd]], n)
  }

  // The Pipe object.

  function Close(t: Table, f: Fds, dir: Direction): (Table, Fds) {
    if f.Get(dir) == NOT_ASSIGNED then (t, f) else (t - {f.Get(dir)}, f.Set(dir, NOT_ASSIGNED))
  }

  function Attach(t: Table, f: Fds, dir: Direction, newFd: int): (Table, Fds, int) {
    var (t1, f1) := Close(t, f, Anti(dir));
    var (t2, fd) := Dup(t1 - {newFd}, f1.Get(dir));
    if fd == NOT_ASSIGNED then (t2, f1, fd) else
      var (t3, f3) := Close(t2, f1, Anti(dir));
      var (t4, f4) := Close(t3, f3, dir);
      (t4, f4, fd)
  }

  function Detach(t: Table, f: Fds, dir: Direction): (Table, Fds, int) {
    var (t1, f1) := Close(t, f, Anti(dir));
    (t1, f1.Set(dir, NOT_ASSIGNED), f1.Get(dir))
  }

  function Release(t: Table, f: Fds): (Table, Fds) {
    var (t1, f1) := Close(t, f, Read);
    Close(t1, f1, Write)
  }

  // The constructor of a local process.

  /** The three pipes, opened one after the other. */
  function Open(t: Table): (Table, Fds, Fds, Fds) {
    var (t0, fin) := NewPipe(t, 0);
    var (t1, fout) := NewPipe(t0, 1);
    var (t2, ferr) := NewPipe(t1, 2);
    (t2, fin, fout, ferr)
  }

  /** What the attaches and releases in the child make of its table, or None if an attach fails. */
  function Attached(t: Table, fin: Fds, fout: Fds, ferr: Fds): Option<Table> {
    var (t1, fin', fd0) := Attach(t, fin, Read, 0);
    if fd0 == NOT_ASSIGNED then None else
      var (t2, fout', fd1) := Attach(t1, fout, Write, 1);
      if fd1 == NOT_ASSIGNED then None else
        var (t3, ferr', fd2) := Attach(t2, ferr, Write, 2);
        if fd2 == NOT_ASSIGNED then None else
          Some(Release(Release(Release(t3, fin').0, fout').0, ferr').0)
  }

  /** The table of the child when it becomes the shell. */
  function Child(t: Table): Option<Table> {
    var (t0, fin, fout, ferr) := Open(t);
    Attached(t0, fin, fout, ferr)
  }

  /** What the detaches and releases make of the parent's table, and the descriptors it keeps. */
  function Kept(t: Table, fin: Fds, fout: Fds, ferr: Fds): (Table, int, int, int) {
    var (t1, fin', fd0) := Detach(t, fin, Write);
    var (t2, fout', fd1) := Detach(t1, fout, Read);
    var (t3, ferr', fd2) := Detach(t2, ferr, Read);
    (Release(Release(Release(t3, fin').0, fout').0, ferr').0, fd0, fd1, fd2)
  }

  function Parent(t: Table): (Table, int, int, int) {
    var (t0, fin, fout, ferr) := Open(t);
    Kept(t0, fin, fout, ferr)
  }

  lemma LowestMore(t: Table, n: int, e: End)
    requires n == Lowest(t.Keys, 0)
    ensures Lowest(t.Keys + {n}, 0) > n && t[n := e].Keys == t.Keys + {n}
  {
  }

  /** Six numbers, ascending, that were free, and nothing else changed. */
  lemma OpenShape(t: Table)
    ensures var (u, fin, fout, ferr) := Open(t);
            && 0 <= fin.read < fin.write < fout.read < fout.write < ferr.read < ferr.write
            && (forall fd :: fd in {fin.read, fin.write, fout.read, fout.write, ferr.read, ferr.write} ==> fd !in t)
            && u == t[fin.read := Reader(0)][fin.write := Writer(0)][fout.read := Reader(1)][fout.write := Writer(1)]
                     [ferr.read := Reader(2)][ferr.write := Writer(2)]
            && (fin.read == 0 <==> 0 !in t)
  {
    var (t0, fin) := NewPipe(t, 0);
    LowestMore(t, fin.read, Reader(0));
    LowestMore(t[fin.read := Reader(0)], fin.write, Writer(0));
    var (t1, fout) := NewPipe(t0, 1);
    LowestMore(t0, fout.read, Reader(1));
    LowestMore(t0[fout.read := Reader(1)], fout.write, Writer(1));
    var (t2, ferr) := NewPipe(t1, 2);
    LowestMore(t1, ferr.read, Reader(2));
  }

  /** Attaching moves the end to the number, if the lower numbers are open and the end does not stand
      there itself; the other end is closed. */
  lemma AttachShape(t: Table, f: Fds, dir: Direction, newFd: nat)
    requires f.read >= 0 && f.write >= 0 && f.read != f.write && f.Get(dir) in t
    requires f.Get(Anti(dir)) > newFd && forall k :: 0 <= k < newFd ==> k in t
    ensures if f.Get(dir) <= newFd then f.Get(dir) < newFd || Attach(t, f, dir, newFd).2 == NOT_ASSIGNED
            else Attach(t, f, dir, newFd) == ((t - {f.read, f.write})[newFd := t[f.Get(dir)]], Fds(NOT_ASSIGNED, NOT_ASSIGNED), newFd)
  {
    var anti := f.Get(Anti(dir));
    var free := t - {anti} - {newFd};
    if f.Get(dir) > newFd {
      assert Lowest(free.Keys, 0) == newFd;
      assert (t - {f.read, f.write})[newFd := t[f.Get(dir)]] == free[newFd := t[f.Get(dir)]] - {f.Get(dir)};
    }
  }

  lemma Unassigned(t: Table)
    ensures Release(t, GONE).0 == t
  {
  }

  lemma AttachedSteps(t0: Table, fin: Fds, fout: Fds, ferr: Fds, t1: Table, t2: Table, t3: Table)
    requires Attach(t0, fin, Read, 0) == (t1, GONE, 0) && Attach(t1, fout, Write, 1) == (t2, GONE, 1)
    requires Attach(t2, ferr, Write, 2) == (t3, GONE, 2)
    ensures Attached(t0, fin, fout, ferr) == Some(t3)
  {
    Unassigned(t3);
  }

  lemma AttachedAll(t0: Table, fin: Fds, fout: Fds, ferr: Fds)
    requires 0 < fin.read < fin.write < fout.read < fout.write < ferr.read < ferr.write
    requires 0 in t0 && fin.read in t0 && fout.write in t0 && ferr.write in t0
    ensures var t := t0 - {fin.read, fin.write, fout.read, fout.write, ferr.read, ferr.write};
            Attached(t0, fin, fout, ferr) == Some(t[0 := t0[fin.read]][1 := t0[fout.write]][2 := t0[ferr.write]])
  {
    AttachShape(t0, fin, Read, 0);
    var t1 := (t0 - {fin.read, fin.write})[0 := t0[fin.read]];
    AttachShape(t1, fout, Write, 1);
    var t2 := (t1 - {fout.read, fout.write})[1 := t0[fout.write]];
    AttachShape(t2, ferr, Write, 2);
    var t3 := (t2 - {ferr.read, ferr.write})[2 := t0[ferr.write]];
    AttachedSteps(t0, fin, fout, ferr, t1, t2, t3);
    var t := t0 - {fin.read, fin.write, fout.read, fout.write, ferr.read, ferr.write};
    assert t3 == t[0 := t0[fin.read]][1 := t0[fout.write]][2 := t0[ferr.write]];
  }

  /** The child becomes the shell if and only if descriptor 0 was open, and then its table is that of the
      parent before the pipes with the three ends at 0, 1 and 2, and no other end of the pipes. */
  lemma ChildIff(t: Table)
    ensures Child(t).Some? <==> 0 in t
    ensures 0 in t ==> Child(t) == Some(t[0 := Reader(0)][1 := Writer(1)][2 := Writer(2)])
  {
    hide Open, Attached;
    OpenShape(t);
    var (t0, fin, fout, ferr) := Open(t);
    if 0 in t {
      AttachedAll(t0, fin, fout, ferr);
      assert t0 - {fin.read, fin.write, fout.read, fout.write, ferr.read, ferr.write} == t;
    } else {
      AttachedNone(t0, fin, fout, ferr);
    }
  }

  lemma AttachedNone(t0: Table, fin: Fds, fout: Fds, ferr: Fds)
    requires fin.read == 0 < fin.write && 0 in t0
    ensures Attached(t0, fin, fout, ferr) == None
  {
    AttachShape(t0, fin, Read, 0);
  }

  /** The parent keeps the opposite ends, at numbers that were free, and no other end. */
  lemma ParentEnds(t: Table)
    ensures var (u, fd0, fd1, fd2) := Parent(t);
            && u == t[fd0 := Writer(0)][fd1 := Reader(1)][fd2 := Reader(2)]
            && fd0 !in t && fd1 !in t && fd2 !in t && 0 <= fd0 < fd1 < fd2
  {
    OpenShape(t);
    var (t0, fin, fout, ferr) := Open(t);
    var t3 := t0 - {fin.read} - {fout.write} - {ferr.write};
    Unassigned(t3);
    assert t3 == t[fin.write := Writer(0)][fout.read := Reader(1)][ferr.read := Reader(2)];
  }

  // The same in place.

  class Process {
    var table: Table

    constructor (table: Table)
      ensures this.table == table
    {
      this.table := table;
    }

    method PipeCall(id: nat) returns (f: Fds)
      modifies this
      ensures (table, f) == NewPipe(old(table), id)
    {
      var r := Lowest(table.Keys, 0);
      table := table[r := Reader(id)];
      assert table.Keys == old(table.Keys) + {r};
      var w := Lowest(table.Keys, 0);
      table := table[w := Writer(id)];
      f := Fds(r, w);
    }

    method CloseCall(fd: int)
      modifies this
      ensures table == old(table) - {fd}
    {
      table := table - {fd};
    }

    method DupCall(fd: int) returns (n: int)
      modifies this
      ensures (table, n) == Dup(old(table), fd)
    {
      if fd !in table {
        return NOT_ASSIGNED;
      }
      n := Lowest(table.Keys, 0);
      table := table[n := table[fd]];
    }
  }

  class Pipe {
    const process: Process
    var fds: Fds

    constructor (process: Process, id: nat)
      modifies process
      ensures this.process == process && (process.table, fds) == NewPipe(old(process.table), id)
    {
      this.process := process;
      new;
      fds := process.PipeCall(id);
    }

    /** The copy of the object in a forked process. */
    constructor Forked(process: Process, original: Pipe)
      ensures this.process == process && fds == original.fds
    {
      this.process, fds := process, original.fds;
    }

    method CloseEnd(dir: Direction)
      modifies this, process
      ensures (process.table, fds) == Close(old(process.table), old(fds), dir)
    {
      if fds.Get(dir) != NOT_ASSIGNED {
        process.CloseCall(fds.Get(dir));
        fds := fds.Set(dir, NOT_ASSIGNED);
      }
    }

    method AttachTo(dir: Direction, newFd: int) returns (fd: int)
      modifies this, process
      ensures (process.table, fds, fd) == Attach(old(process.table), old(fds), dir, newFd)
    {
      CloseEnd(Anti(dir));
      process.CloseCall(newFd);
      fd := process.DupCall(fds.Get(dir));
      if fd != NOT_ASSIGNED {
        CloseEnd(Anti(dir));
        CloseEnd(dir);
      }
    }

    method DetachEnd(dir: Direction) returns (fd: int)
      modifies this, process
      ensures (process.table, fds, fd) == Detach(old(process.table), old(fds), dir)
    {
      CloseEnd(Anti(dir));
      fd := fds.Get(dir);
      fds := fds.Set(dir, NOT_ASSIGNED);
    }

    method ReleaseAll()
      modifies this, process
      ensures (process.table, fds) == Release(old(process.table), old(fds))
    {
      CloseEnd(Read);
      CloseEnd(Write);
    }
  }

  /** The child's branch behind the fork; `shell` says whether it becomes the shell. */
  method RunChild(child: Process, fin: Pipe, fout: Pipe, ferr: Pipe) returns (shell: bool)
    requires fin.process == fout.process == ferr.process == child && fin != fout && fin != ferr && fout != ferr
    modifies child, fin, fout, ferr
    ensures Attached(old(child.table), old(fin.fds), old(fout.fds), old(ferr.fds)) == if shell then Some(child.table) else None
  {
    var fd := fin.AttachTo(Read, 0);
    if fd == NOT_ASSIGNED {
      return false;
    }
    fd := fout.AttachTo(Write, 1);
    if fd == NOT_ASSIGNED {
      return false;
    }
    fd := ferr.AttachTo(Write, 2);
    if fd == NOT_ASSIGNED {
      return false;
    }
    fin.ReleaseAll();
    fout.ReleaseAll();
    ferr.ReleaseAll();
    shell := true;
  }

  /** The fork, and the child's branch: the parent's table and objects stay as they are. */
  method Fork(parent: Process, fin: Pipe, fout: Pipe, ferr: Pipe) returns (child: Option<Table>)
    ensures child == Attached(parent.table, fin.fds, fout.fds, ferr.fds)
  {
    var forked := new Process(parent.table);
    var cin := new Pipe.Forked(forked, fin);
    var cout := new Pipe.Forked(forked, fout);
    var cerr := new Pipe.Forked(forked, ferr);
    var shell := RunChild(forked, cin, cout, cerr);
    child := if shell then Some(forked.table) else None;
  }

  /** The parent's branch, to the end of the scope of the pipes. */
  method KeepEnds(parent: Process, fin: Pipe, fout: Pipe, ferr: Pipe) returns (fd0: int, fd1: int, fd2: int)
    requires fin.process == fout.process == ferr.process == parent && fin != fout && fin != ferr && fout != ferr
    modifies parent, fin, fout, ferr
    ensures (parent.table, fd0, fd1, fd2) == Kept(old(parent.table), old(fin.fds), old(fout.fds), old(ferr.fds))
  {
    fd0 := fin.DetachEnd(Write);
    fd1 := fout.DetachEnd(Read);
    fd2 := ferr.DetachEnd(Read);
    fin.ReleaseAll();
    fout.ReleaseAll();
    ferr.ReleaseAll();
  }

  /** The constructor: the parent's table changes in place; the child's is None if it did not become the
      shell. */
  method Launch(parent: Process) returns (fd0: int, fd1: int, fd2: int, child: Option<Table>)
    modifies parent
    ensures child.Some? <==> 0 in old(parent.table)
    ensures child.Some? ==> child.value == old(parent.table)[0 := Reader(0)][1 := Writer(1)][2 := Writer(2)]
    ensures parent.table == old(parent.table)[fd0 := Writer(0)][fd1 := Reader(1)][fd2 := Reader(2)]
    ensures fd0 !in old(parent.table) && fd1 !in old(parent.table) && fd2 !in old(parent.table) && 0 <= fd0 < fd1 < fd2
  {
    ChildIff(parent.table);
    ParentEnds(parent.table);
    var fin := new Pipe(parent, 0);
    var fout := new Pipe(parent, 1);
    var ferr := new Pipe(parent, 2);
    assert (parent.table, fin.fds, fout.fds, ferr.fds) == Open(old(parent.table));
    child := Fork(parent, fin, fout, ferr);
    fd0, fd1, fd2 := KeepEnds(parent, fin, fout, ferr);
  }
}
