/** The unload schedule of xtru (cUnload.cpp, cPartitionedByRowid.cpp and cPartitionedByScheme.cpp under
    app/xtru/getdata): which queries are run for which tables, and the script lines that load the files.
    A statement stands for its SQL text. */
module Unload {
  import opened Wrappers
  import Sequences

  datatype Name = Name(owner: string, table: string)

  datatype Table = Table(name: Name, iotType: string, longs: nat, lobs: nat)

  /** A partition or a rowid range of a table; `suffix` is the partition name or the range number. */
  datatype Piece = Piece(name: Name, suffix: string, clause: string)

  datatype Statement = Whole(name: Name) | Part(piece: Piece)

  /** An unload task: it writes what its statements yield to files named after the table and the suffix. */
  datatype Task = Task(name: Name, suffix: string, statements: seq<Statement>)

  /** A line of the load script: the stem of its control file, whether it takes the parameter file for the
      conventional path, and whether it limits the rows per save. */
  datatype Line = Line(control: string, usual: bool, rows: bool)

  datatype Options = Options(byScheme: bool, byRowid: bool, usualPath: bool)

  datatype Schedule = Schedule(scheme: seq<Piece>, rowid: seq<Piece>, tasks: seq<Task>, lines: seq<Line>)

  function Sharp(s: string): string {
    if s == "" then "" else [if s[0] == '$' then '#' else s[0]] + Sharp(s[1..])
  }

  function FileName(n: Name): string {
    Sharp(n.owner + "." + n.table)
  }

  /** The stem of the files of a task. */
  function Stem(t: Task): string {
    if t.suffix != "" then FileName(t.name) + "_" + t.suffix else FileName(t.name)
  }

  function LoaderLine(o: Options, tbl: Table, control: string): Line {
    Line(control, o.usualPath || tbl.longs != 0, !(tbl.iotType == "IOT" || tbl.lobs != 0))
  }

  // Lists of pieces.

  /** The pieces of one table. */
  function Of(list: seq<Piece>, n: Name): seq<Piece> {
    if list == [] then [] else if list[0].name == n then [list[0]] + Of(list[1..], n) else Of(list[1..], n)
  }

  /** The pieces of the tables that are not in the set. */
  function Without(list: seq<Piece>, gone: set<Name>): seq<Piece> {
    if list == [] then [] else if list[0].name in gone then Without(list[1..], gone) else [list[0]] + Without(list[1..], gone)
  }

  function Parts(pieces: seq<Piece>): seq<Statement> {
    if pieces == [] then [] else [Part(pieces[0])] + Parts(pieces[1..])
  }

  /** One task and one line for each piece. */
  function PieceTasks(pieces: seq<Piece>): seq<Task> {
    if pieces == [] then [] else [Task(pieces[0].name, pieces[0].suffix, [Part(pieces[0])])] + PieceTasks(pieces[1..])
  }

  function PieceLines(o: Options, tbl: Table, pieces: seq<Piece>): seq<Line> {
    if pieces == [] then [] else
      [LoaderLine(o, tbl, FileName(tbl.name) + "_" + pieces[0].suffix)] + PieceLines(o, tbl, pieces[1..])
  }

  /** The tasks for a table with these pieces: one each, or one for all. */
  function Entry(o: Options, s: Schedule, tbl: Table, split: bool, pieces: seq<Piece>): Schedule {
    if split then s.(tasks := s.tasks + PieceTasks(pieces), lines := s.lines + PieceLines(o, tbl, pieces))
    else s.(tasks := s.tasks + [Task(tbl.name, "", Parts(pieces))], lines := s.lines + [LoaderLine(o, tbl, FileName(tbl.name))])
  }

  /** What is scheduled for one table. */
  function Submit(o: Options, s: Schedule, tbl: Table): Schedule {
    if Of(s.scheme, tbl.name) != [] then
      Entry(o, s, tbl, o.byScheme, Of(s.scheme, tbl.name)).(scheme := Without(s.scheme, {tbl.name}))
    else if Of(s.rowid, tbl.name) != [] then
      Entry(o, s, tbl, o.byRowid, Of(s.rowid, tbl.name)).(rowid := Without(s.rowid, {tbl.name}))
    else
      s.(tasks := s.tasks + [Task(tbl.name, "", [Whole(tbl.name)])], lines := s.lines + [LoaderLine(o, tbl, FileName(tbl.name))])
  }

  function SubmitAll(o: Options, s: Schedule, tables: seq<Table>): Schedule {
    if tables == [] then s else Submit(o, SubmitAll(o, s, tables[..|tables| - 1]), tables[|tables| - 1])
  }

  function Begin(scheme: seq<Piece>, rowid: seq<Piece>): Schedule {
    Schedule(scheme, rowid, [], [])
  }

  // What is queried.

  function Statements(tasks: seq<Task>): seq<Statement> {
    if tasks == [] then [] else Statements(tasks[..|tasks| - 1]) + tasks[|tasks| - 1].statements
  }

  /** The queries of a table, by the lists as they were read. */
  function Queries(scheme: seq<Piece>, rowid: seq<Piece>, tbl: Table): seq<Statement> {
    if Of(scheme, tbl.name) != [] then Parts(Of(scheme, tbl.name))
    else if Of(rowid, tbl.name) != [] then Parts(Of(rowid, tbl.name))
    else [Whole(tbl.name)]
  }

  function AllQueries(scheme: seq<Piece>, rowid: seq<Piece>, tables: seq<Table>): seq<Statement> {
    if tables == [] then [] else
      AllQueries(scheme, rowid, tables[..|tables| - 1]) + Queries(scheme, rowid, tables[|tables| - 1])
  }

  ghost function Names(tables: seq<Table>): set<Name> {
    set tbl <- tables :: tbl.name
  }

  predicate NoTableTwice(tables: seq<Table>) {
    forall i, j :: 0 <= i < j < |tables| ==> tables[i].name != tables[j].name
  }

  /** The tables among n that have pieces in the list. */
  ghost function Split(names: set<Name>, list: seq<Piece>): set<Name> {
    set n <- names | Of(list, n) != []
  }

  lemma OfWithout(list: seq<Piece>, gone: set<Name>, n: Name)
    ensures Of(Without(list, gone), n) == if n in gone then [] else Of(list, n)
  {
    if list != [] {
      OfWithout(list[1..], gone, n);
      var rest := Without(list[1..], gone);
      if list[0].name !in gone {
        assert ([list[0]] + rest)[1..] == rest;
      }
    }
  }

  lemma WithoutMore(list: seq<Piece>, a: set<Name>, b: set<Name>)
    ensures Without(Without(list, a), b) == Without(list, a + b)
  {
    if list != [] {
      WithoutMore(list[1..], a, b);
      var rest := Without(list[1..], a);
      if list[0].name !in a {
        assert ([list[0]] + rest)[1..] == rest;
      }
    }
  }

  lemma WithoutNone(list: seq<Piece>, gone: set<Name>)
    requires forall n <- gone :: Of(list, n) == []
    ensures Without(list, gone) == list
  {
    if list != [] {
      WithoutNone(list[1..], gone);
    }
  }

  lemma PiecesAddUp(list: seq<Piece>, n: Name)
    ensures multiset(Of(list, n)) + multiset(Without(list, {n})) == multiset(list)
  {
    if list != [] {
      PiecesAddUp(list[1..], n);
      assert list == [list[0]] + list[1..];
    }
  }

  lemma StatementsConcat(a: seq<Task>, b: seq<Task>)
    ensures Statements(a + b) == Statements(a) + Statements(b)
  {
    if b == [] {
      assert a + b == a;
      assert Statements(a) + [] == Statements(a);
    } else {
      var init, t := b[..|b| - 1], b[|b| - 1];
      StatementsConcat(a, init);
      assert (a + b)[..|a + b| - 1] == a + init;
      Sequences.Assoc(Statements(a), Statements(init), t.statements);
    }
  }

  lemma PieceStatements(pieces: seq<Piece>)
    ensures Statements(PieceTasks(pieces)) == Parts(pieces)
  {
    if pieces != [] {
      var first := [Task(pieces[0].name, pieces[0].suffix, [Part(pieces[0])])];
      PieceStatements(pieces[1..]);
      StatementsConcat(first, PieceTasks(pieces[1..]));
      OneTask(first[0]);
    }
  }

  lemma OneTask(t: Task)
    ensures Statements([t]) == t.statements
  {
    assert [t][..0] == [];
    assert [] + t.statements == t.statements;
  }

  /** Whether a table is split or not, it is asked for the same. */
  lemma SubmitStatements(o: Options, s: Schedule, tbl: Table)
    ensures Statements(Submit(o, s, tbl).tasks) == Statements(s.tasks) + Queries(s.scheme, s.rowid, tbl)
  {
    var pieces := if Of(s.scheme, tbl.name) != [] then Of(s.scheme, tbl.name) else Of(s.rowid, tbl.name);
    StatementsConcat(s.tasks, PieceTasks(pieces));
    PieceStatements(pieces);
    StatementsConcat(s.tasks, [Task(tbl.name, "", Parts(pieces))]);
    OneTask(Task(tbl.name, "", Parts(pieces)));
    StatementsConcat(s.tasks, [Task(tbl.name, "", [Whole(tbl.name)])]);
    OneTask(Task(tbl.name, "", [Whole(tbl.name)]));
  }

  /** The lists lose exactly the pieces of the tables that were handled. */
  lemma {:induction false} ListsAfter(o: Options, scheme: seq<Piece>, rowid: seq<Piece>, tables: seq<Table>)
    requires NoTableTwice(tables)
    ensures var s := SubmitAll(o, Begin(scheme, rowid), tables); var named := Names(tables);
            && s.scheme == Without(scheme, named)
            && s.rowid == Without(rowid, named - Split(named, scheme))
            && Statements(s.tasks) == AllQueries(scheme, rowid, tables)
    decreases |tables|
  {
    if tables == [] {
      WithoutNone(scheme, {});
      WithoutNone(rowid, {});
      assert Names(tables) == {} && Names(tables) - Split(Names(tables), scheme) == {};
    } else {
      var init, tbl := tables[..|tables| - 1], tables[|tables| - 1];
      ListsAfter(o, scheme, rowid, init);
      NamesSnoc(tables);
      var s, named := SubmitAll(o, Begin(scheme, rowid), init), Names(init);
      OfWithout(scheme, named, tbl.name);
      OfWithout(rowid, named - Split(named, scheme), tbl.name);
      SubmitStatements(o, s, tbl);
      SchemeStep(scheme, named, tbl.name);
      RowidStep(scheme, rowid, named, tbl.name);
    }
  }

  lemma NamesSnoc(tables: seq<Table>)
    requires tables != [] && NoTableTwice(tables)
    ensures var init, tbl := tables[..|tables| - 1], tables[|tables| - 1];
            Names(tables) == Names(init) + {tbl.name} && tbl.name !in Names(init) && NoTableTwice(init)
  {
    var init, tbl := tables[..|tables| - 1], tables[|tables| - 1];
    assert tables == init + [tbl];
    assert forall t <- init :: t in tables;
  }

  lemma SchemeStep(scheme: seq<Piece>, named: set<Name>, n: Name)
    ensures Without(Without(scheme, named), {n}) == Without(scheme, named + {n})
    ensures Of(scheme, n) == [] ==> Without(scheme, named) == Without(scheme, named + {n})
  {
    WithoutMore(scheme, named, {n});
    if Of(scheme, n) == [] {
      OfWithout(scheme, named, n);
      WithoutNone(Without(scheme, named), {n});
    }
  }

  lemma RowidStep(scheme: seq<Piece>, rowid: seq<Piece>, named: set<Name>, n: Name)
    ensures var gone, gone' := named - Split(named, scheme), named + {n} - Split(named + {n}, scheme);
            && (Of(scheme, n) != [] && n !in named ==> gone' == gone)
            && (Of(scheme, n) == [] ==> Without(Without(rowid, gone), {n}) == Without(rowid, gone'))
            && (Of(scheme, n) == [] && Of(rowid, n) == [] ==> Without(rowid, gone) == Without(rowid, gone'))
  {
    var gone, gone' := named - Split(named, scheme), named + {n} - Split(named + {n}, scheme);
    if Of(scheme, n) == [] {
      assert gone' == gone + {n};
      SchemeStep(rowid, gone, n);
    }
  }

  /** The queries do not depend on the partitioning options: they are those of the tables, in the order of
      the tables. */
  lemma SameQueries(o: Options, p: Options, scheme: seq<Piece>, rowid: seq<Piece>, tables: seq<Table>)
    requires NoTableTwice(tables)
    ensures Statements(SubmitAll(o, Begin(scheme, rowid), tables).tasks) == AllQueries(scheme, rowid, tables)
    ensures Statements(SubmitAll(o, Begin(scheme, rowid), tables).tasks)
         == Statements(SubmitAll(p, Begin(scheme, rowid), tables).tasks)
  {
    ListsAfter(o, scheme, rowid, tables);
    ListsAfter(p, scheme, rowid, tables);
  }

  /** Nothing is left of the listed tables, if and only if no listed table has pieces in both lists. */
  lemma NothingLeftIff(o: Options, scheme: seq<Piece>, rowid: seq<Piece>, tables: seq<Table>)
    requires NoTableTwice(tables)
    ensures var s := SubmitAll(o, Begin(scheme, rowid), tables);
            (forall n <- Names(tables) :: Of(s.scheme, n) == [] && Of(s.rowid, n) == []) <==>
            (forall n <- Names(tables) :: Of(scheme, n) == [] || Of(rowid, n) == [])
  {
    ListsAfter(o, scheme, rowid, tables);
    var s, named := SubmitAll(o, Begin(scheme, rowid), tables), Names(tables);
    forall n | n in named
      ensures Of(s.scheme, n) == []
      ensures Of(s.rowid, n) == if Of(scheme, n) == [] then [] else Of(rowid, n)
    {
      OfWithout(scheme, named, n);
      OfWithout(rowid, named - Split(named, scheme), n);
    }
  }

  // Conservation.

  function PartPieces(statements: seq<Statement>): seq<Piece> {
    if statements == [] then [] else
      PartPieces(statements[..|statements| - 1]) +
      if statements[|statements| - 1].Part? then [statements[|statements| - 1].piece] else []
  }

  lemma PartPiecesConcat(a: seq<Statement>, b: seq<Statement>)
    ensures PartPieces(a + b) == PartPieces(a) + PartPieces(b)
  {
    if b == [] {
      assert a + b == a;
    } else {
      var init := b[..|b| - 1];
      PartPiecesConcat(a, init);
      assert (a + b)[..|a + b| - 1] == a + init;
    }
  }

  lemma PartPiecesOf(pieces: seq<Piece>)
    ensures PartPieces(Parts(pieces)) == pieces
  {
    if pieces != [] {
      PartPiecesOf(pieces[1..]);
      PartPiecesConcat([Part(pieces[0])], Parts(pieces[1..]));
      OnePart(pieces[0]);
    }
  }

  lemma OnePart(p: Piece)
    ensures PartPieces([Part(p)]) == [p]
  {
    assert [Part(p)][..0] == [];
  }

  lemma NoPart(n: Name)
    ensures PartPieces([Whole(n)]) == []
  {
    assert [Whole(n)][..0] == [];
  }

  lemma SubmitConserves(o: Options, s: Schedule, tbl: Table)
    ensures var t := Submit(o, s, tbl);
            multiset(PartPieces(Statements(t.tasks))) + multiset(t.scheme) + multiset(t.rowid) ==
            multiset(PartPieces(Statements(s.tasks))) + multiset(s.scheme) + multiset(s.rowid)
  {
    SubmitStatements(o, s, tbl);
    PartPiecesConcat(Statements(s.tasks), Queries(s.scheme, s.rowid, tbl));
    PartPiecesOf(Of(s.scheme, tbl.name));
    PartPiecesOf(Of(s.rowid, tbl.name));
    NoPart(tbl.name);
    PiecesAddUp(s.scheme, tbl.name);
    PiecesAddUp(s.rowid, tbl.name);
  }

  /** No piece is lost and none is used twice: each is in one task or still in its list. */
  lemma {:induction false} PiecesConserved(o: Options, scheme: seq<Piece>, rowid: seq<Piece>, tables: seq<Table>)
    ensures var s := SubmitAll(o, Begin(scheme, rowid), tables);
            multiset(PartPieces(Statements(s.tasks))) + multiset(s.scheme) + multiset(s.rowid) == multiset(scheme) + multiset(rowid)
    decreases |tables|
  {
    if tables != [] {
      var init := tables[..|tables| - 1];
      PiecesConserved(o, scheme, rowid, init);
      SubmitConserves(o, SubmitAll(o, Begin(scheme, rowid), init), tables[|tables| - 1]);
    }
  }

  // What the lists are read from.

  /** A row of ALL_TABLES: PARTITIONED and NUM_MBYTES. */
  datatype TableRow = TableRow(partitioned: string, megabytes: int)

  /** The repository: TARGET_TABLES, ALL_TABLES, ALL_PART_TABLES, the partitions and the ROWID ranges. */
  datatype Repository = Repository(targets: set<Name>, tables: map<Name, TableRow>, partTables: set<Name>,
                                   partitions: seq<Piece>, ranges: seq<Piece>)

  /** ALL_PART_TABLES holds the tables that ALL_TABLES calls partitioned. */
  predicate Consistent(r: Repository) {
    forall n <- r.partTables :: n in r.tables ==> r.tables[n].partitioned == "YES"
  }

  /** The names whose partitions are read. */
  predicate ByScheme(r: Repository, n: Name) {
    n in r.targets && n in r.partTables
  }

  /** The names whose ROWID ranges are read: tables that are not partitioned, from a size on. */
  predicate ByRowid(r: Repository, least: int, n: Name) {
    n in r.targets && n in r.tables && r.tables[n].partitioned == "NO" && r.tables[n].megabytes >= least
  }

  function ReadScheme(r: Repository, list: seq<Piece>): seq<Piece> {
    if list == [] then []
    else if ByScheme(r, list[0].name) then [list[0]] + ReadScheme(r, list[1..])
    else ReadScheme(r, list[1..])
  }

  function ReadRowid(r: Repository, least: int, list: seq<Piece>): seq<Piece> {
    if list == [] then []
    else if ByRowid(r, least, list[0].name) then [list[0]] + ReadRowid(r, least, list[1..])
    else ReadRowid(r, least, list[1..])
  }

  /** The two lists, each sorted in some way. */
  ghost predicate Fetched(r: Repository, least: int, scheme: seq<Piece>, rowid: seq<Piece>) {
    && multiset(scheme) == multiset(ReadScheme(r, r.partitions))
    && multiset(rowid) == multiset(ReadRowid(r, least, r.ranges))
  }

  /** The lists hold the partitions of the targets that are partitioned, and the ROWID ranges of the targets that are not
      and reach the least size; each as often as the repository does. */
  lemma ReadExactly(r: Repository, least: int, list: seq<Piece>, p: Piece)
    ensures multiset(ReadScheme(r, list))[p] ==
            if p.name in r.targets && p.name in r.partTables then multiset(list)[p] else 0
    ensures multiset(ReadRowid(r, least, list))[p] ==
            if p.name in r.targets && p.name in r.tables && r.tables[p.name].partitioned == "NO" &&
               r.tables[p.name].megabytes >= least then multiset(list)[p] else 0
  {
    if list != [] {
      ReadExactly(r, least, list[1..], p);
      assert list == [list[0]] + list[1..];
    }
  }

  lemma SchemeNames(r: Repository, list: seq<Piece>)
    ensures forall p <- ReadScheme(r, list) :: ByScheme(r, p.name)
  {
  }

  lemma RowidNames(r: Repository, least: int, list: seq<Piece>)
    ensures forall p <- ReadRowid(r, least, list) :: ByRowid(r, least, p.name)
  {
  }

  lemma FetchedNames(r: Repository, least: int, scheme: seq<Piece>, rowid: seq<Piece>)
    requires Fetched(r, least, scheme, rowid)
    ensures (forall p <- scheme :: ByScheme(r, p.name)) && (forall p <- rowid :: ByRowid(r, least, p.name))
  {
    SchemeNames(r, r.partitions);
    RowidNames(r, least, r.ranges);
    assert forall p <- scheme :: p in multiset(scheme);
    assert forall p <- rowid :: p in multiset(rowid);
  }

  lemma OfNone(list: seq<Piece>, n: Name)
    requires forall p <- list :: p.name != n
    ensures Of(list, n) == []
  {
  }

  lemma OfAll(list: seq<Piece>)
    requires forall p <- list :: Of(list, p.name) == []
    ensures list == []
  {
    assert |list| > 0 ==> list[0] in list;
  }

  /** With the lists as the repository gives them no piece of a listed table is left; and if all targets are listed,
      every piece that was read is in exactly one task, exactly once. */
  lemma EveryPieceUsed(o: Options, r: Repository, least: int, scheme: seq<Piece>, rowid: seq<Piece>, tables: seq<Table>)
    requires Consistent(r) && Fetched(r, least, scheme, rowid) && NoTableTwice(tables)
    ensures var s := SubmitAll(o, Begin(scheme, rowid), tables);
            && (forall n <- Names(tables) :: Of(s.scheme, n) == [] && Of(s.rowid, n) == [])
            && (r.targets <= Names(tables) ==>
                  s.scheme == [] && s.rowid == [] &&
                  multiset(PartPieces(Statements(s.tasks))) == multiset(scheme) + multiset(rowid))
  {
    FetchedNames(r, least, scheme, rowid);
    forall n ensures Of(scheme, n) == [] || Of(rowid, n) == [] {
      if n in r.partTables {
        OfNone(rowid, n);
      } else {
        OfNone(scheme, n);
      }
    }
    NothingLeftIff(o, scheme, rowid, tables);
    if r.targets <= Names(tables) {
      ListsAfter(o, scheme, rowid, tables);
      AllUsed(SubmitAll(o, Begin(scheme, rowid), tables), scheme, rowid, Names(tables), Names(tables) - Split(Names(tables), scheme));
      PiecesConserved(o, scheme, rowid, tables);
    }
  }

  lemma AllUsed(s: Schedule, scheme: seq<Piece>, rowid: seq<Piece>, named: set<Name>, gone: set<Name>)
    requires s.scheme == Without(scheme, named) && s.rowid == Without(rowid, gone)
    requires (forall p <- scheme :: p.name in named) && (forall p <- rowid :: p.name in named)
    requires forall n <- named :: Of(s.scheme, n) == [] && Of(s.rowid, n) == []
    ensures s.scheme == [] && s.rowid == []
  {
    WithoutIn(scheme, named);
    WithoutIn(rowid, gone);
    OfAll(s.scheme);
    OfAll(s.rowid);
  }

  // Tasks and lines.

  ghost predicate Labelled(list: seq<Piece>) {
    forall p <- list :: p.suffix != ""
  }

  /** Task and line are about one of the tables: the line names the files of the task, takes the other parameter file if
      that is asked for or the table has a LONG column, and limits the rows unless the table is index-organized or has a
      LOB column. */
  predicate PairedAt(o: Options, tables: seq<Table>, task: Task, line: Line) {
    exists tbl <- tables ::
      && task.name == tbl.name
      && line.control == Sharp(tbl.name.owner + "." + tbl.name.table) + (if task.suffix == "" then "" else "_" + task.suffix)
      && (line.usual <==> o.usualPath || tbl.longs > 0)
      && (line.rows <==> tbl.iotType != "IOT" && tbl.lobs == 0)
  }

  /** A dollar sign in a name becomes a sharp sign in the names of its files. */
  lemma SharpMeans(s: string)
    ensures |Sharp(s)| == |s| && forall i :: 0 <= i < |s| ==> Sharp(s)[i] == if s[i] == '$' then '#' else s[i]
  {
  }

  lemma PairedBy(o: Options, tables: seq<Table>, task: Task, tbl: Table)
    requires tbl in tables && task.name == tbl.name
    ensures PairedAt(o, tables, task, LoaderLine(o, tbl, Stem(task)))
  {
    var line := LoaderLine(o, tbl, Stem(task));
    assert FileName(tbl.name) + "" == FileName(tbl.name);
    assert FileName(tbl.name) + ("_" + task.suffix) == FileName(tbl.name) + "_" + task.suffix;
    assert line.control == Sharp(tbl.name.owner + "." + tbl.name.table) + (if task.suffix == "" then "" else "_" + task.suffix);
  }

  predicate Paired(o: Options, tables: seq<Table>, s: Schedule) {
    |s.lines| == |s.tasks| && forall i :: 0 <= i < |s.tasks| ==> PairedAt(o, tables, s.tasks[i], s.lines[i])
  }

  lemma OfIn(list: seq<Piece>, n: Name)
    ensures forall p <- Of(list, n) :: p in list && p.name == n
  {
  }

  lemma WithoutIn(list: seq<Piece>, gone: set<Name>)
    ensures forall p <- Without(list, gone) :: p in list
  {
  }

  lemma PairedConcat(o: Options, tables: seq<Table>, s: Schedule, tasks: seq<Task>, lines: seq<Line>)
    requires Paired(o, tables, s) && Paired(o, tables, Schedule([], [], tasks, lines))
    ensures Paired(o, tables, s.(tasks := s.tasks + tasks, lines := s.lines + lines))
  {
  }

  lemma PiecesPaired(o: Options, tables: seq<Table>, tbl: Table, pieces: seq<Piece>)
    requires tbl in tables && forall p <- pieces :: p.name == tbl.name && p.suffix != ""
    ensures Paired(o, tables, Schedule([], [], PieceTasks(pieces), PieceLines(o, tbl, pieces)))
    ensures |PieceTasks(pieces)| == |pieces| && forall t <- PieceTasks(pieces) :: t.name == tbl.name
  {
    if pieces != [] {
      var tasks, lines := PieceTasks(pieces[1..]), PieceLines(o, tbl, pieces[1..]);
      var task, line := PieceTasks(pieces)[0], PieceLines(o, tbl, pieces)[0];
      PiecesPaired(o, tables, tbl, pieces[1..]);
      assert line == LoaderLine(o, tbl, Stem(task));
      PairedBy(o, tables, task, tbl);
      PairedConcat(o, tables, Schedule([], [], [task], [line]), tasks, lines);
    }
  }

  lemma PairedOne(o: Options, tables: seq<Table>, s: Schedule, tbl: Table, statements: seq<Statement>)
    requires Paired(o, tables, s) && tbl in tables
    ensures Paired(o, tables, s.(tasks := s.tasks + [Task(tbl.name, "", statements)],
                                 lines := s.lines + [LoaderLine(o, tbl, FileName(tbl.name))]))
  {
    PairedBy(o, tables, Task(tbl.name, "", statements), tbl);
    PairedConcat(o, tables, s, [Task(tbl.name, "", statements)], [LoaderLine(o, tbl, FileName(tbl.name))]);
  }

  lemma EntryPaired(o: Options, tables: seq<Table>, s: Schedule, tbl: Table, split: bool, pieces: seq<Piece>)
    requires Paired(o, tables, s) && tbl in tables
    requires pieces != [] && forall p <- pieces :: p.name == tbl.name && p.suffix != ""
    ensures var t := Entry(o, s, tbl, split, pieces);
            Paired(o, tables, t) && s.tasks < t.tasks && t.tasks[|s.tasks|].name == tbl.name
  {
    if split {
      PiecesPaired(o, tables, tbl, pieces);
      PairedConcat(o, tables, s, PieceTasks(pieces), PieceLines(o, tbl, pieces));
      assert PieceTasks(pieces)[0] in PieceTasks(pieces);
    } else {
      PairedOne(o, tables, s, tbl, Parts(pieces));
    }
  }

  lemma SubmitPaired(o: Options, tables: seq<Table>, s: Schedule, tbl: Table)
    requires Paired(o, tables, s) && tbl in tables && Labelled(s.scheme) && Labelled(s.rowid)
    ensures var t := Submit(o, s, tbl);
            && Paired(o, tables, t) && Labelled(t.scheme) && Labelled(t.rowid)
            && s.tasks < t.tasks && t.tasks[|s.tasks|].name == tbl.name
  {
    OfIn(s.scheme, tbl.name);
    OfIn(s.rowid, tbl.name);
    WithoutIn(s.scheme, {tbl.name});
    WithoutIn(s.rowid, {tbl.name});
    if Of(s.scheme, tbl.name) != [] {
      EntryPaired(o, tables, s, tbl, o.byScheme, Of(s.scheme, tbl.name));
    } else if Of(s.rowid, tbl.name) != [] {
      EntryPaired(o, tables, s, tbl, o.byRowid, Of(s.rowid, tbl.name));
    } else {
      PairedOne(o, tables, s, tbl, [Whole(tbl.name)]);
    }
  }

  lemma PairedMore(o: Options, a: seq<Table>, b: seq<Table>, s: Schedule)
    requires Paired(o, a, s) && a <= b
    ensures Paired(o, b, s)
  {
    forall i | 0 <= i < |s.tasks| ensures PairedAt(o, b, s.tasks[i], s.lines[i]) {
      assert PairedAt(o, a, s.tasks[i], s.lines[i]);
      assert forall tbl <- a :: tbl in b;
    }
  }

  predicate Served(tables: seq<Table>, tasks: seq<Task>) {
    forall tbl <- tables :: exists t <- tasks :: t.name == tbl.name
  }

  lemma ServedMore(tables: seq<Table>, tbl: Table, tasks: seq<Task>, more: seq<Task>)
    requires Served(tables, tasks) && tasks < more && more[|tasks|].name == tbl.name
    ensures Served(tables + [tbl], more)
  {
    forall u | u in tables + [tbl] ensures exists t <- more :: t.name == u.name {
      if u in tables {
        var t :| t in tasks && t.name == u.name;
        assert t in more;
      } else {
        assert more[|tasks|] in more;
      }
    }
  }

  ghost predicate LinesOk(o: Options, tables: seq<Table>, s: Schedule) {
    Paired(o, tables, s) && Served(tables, s.tasks) && Labelled(s.scheme) && Labelled(s.rowid)
  }

  lemma LinesStep(o: Options, tables: seq<Table>, tbl: Table, s: Schedule, t: Schedule)
    requires LinesOk(o, tables, s) && t == Submit(o, s, tbl)
    ensures LinesOk(o, tables + [tbl], t)
  {
    PairedMore(o, tables, tables + [tbl], s);
    SubmitPaired(o, tables + [tbl], s, tbl);
    ServedMore(tables, tbl, s.tasks, t.tasks);
  }

  lemma {:induction false} LinesAfter(o: Options, s: Schedule, tables: seq<Table>, t: Schedule)
    requires LinesOk(o, [], s) && t == SubmitAll(o, s, tables)
    ensures LinesOk(o, tables, t)
    decreases |tables|
  {
    if tables != [] {
      var init, last := tables[..|tables| - 1], tables[|tables| - 1];
      assert tables == init + [last];
      assert LinesOk(o, init + [last], t) by {
        var before := SubmitAll(o, s, init);
        LinesAfter(o, s, init, before);
        LinesStep(o, init, last, before, t);
      }
    }
  }

  /** Each task has its line, in the same place, with the stem of the files of the task and the settings of
      its table; and each table has a task. */
  lemma LinesMatchTasks(o: Options, scheme: seq<Piece>, rowid: seq<Piece>, tables: seq<Table>)
    requires Labelled(scheme) && Labelled(rowid)
    ensures var s := SubmitAll(o, Begin(scheme, rowid), tables); Paired(o, tables, s) && Served(tables, s.tasks)
  {
    LinesAfter(o, Begin(scheme, rowid), tables, SubmitAll(o, Begin(scheme, rowid), tables));
  }

  lemma PieceCount(pieces: seq<Piece>)
    ensures |PieceTasks(pieces)| == |Parts(pieces)| == |pieces|
  {
  }

  /** With both options every statement is a task of its own; with neither every table is one task. */
  lemma {:induction false} Granularity(o: Options, s: Schedule, tables: seq<Table>)
    requires o.byScheme == o.byRowid
    ensures var t := SubmitAll(o, s, tables);
            if o.byScheme then |t.tasks| - |s.tasks| == |Statements(t.tasks)| - |Statements(s.tasks)|
            else |t.tasks| - |s.tasks| == |tables|
    decreases |tables|
  {
    if tables != [] {
      var init, tbl := tables[..|tables| - 1], tables[|tables| - 1];
      Granularity(o, s, init);
      var before := SubmitAll(o, s, init);
      SubmitStatements(o, before, tbl);
      PieceCount(Of(before.scheme, tbl.name));
      PieceCount(Of(before.rowid, tbl.name));
    }
  }

  // Which option splits which list.

  /** The tasks that write files of one table, in their order. */
  function TasksOf(tasks: seq<Task>, n: Name): seq<Task> {
    if tasks == [] then [] else
      var init, last := tasks[..|tasks| - 1], tasks[|tasks| - 1];
      if last.name == n then TasksOf(init, n) + [last] else TasksOf(init, n)
  }

  /** One task for each piece. */
  predicate OneEach(tasks: seq<Task>, n: Name, pieces: seq<Piece>) {
    |tasks| == |pieces| && forall i :: 0 <= i < |pieces| ==> tasks[i] == Task(n, pieces[i].suffix, [Part(pieces[i])])
  }

  /** One task for all pieces. */
  predicate OneForAll(tasks: seq<Task>, n: Name, pieces: seq<Piece>) {
    && |tasks| == 1 && tasks[0].name == n && tasks[0].suffix == "" && |tasks[0].statements| == |pieces|
    && forall i :: 0 <= i < |pieces| ==> tasks[0].statements[i] == Part(pieces[i])
  }

  lemma TasksOfConcat(a: seq<Task>, b: seq<Task>, n: Name)
    ensures TasksOf(a + b, n) == TasksOf(a, n) + TasksOf(b, n)
  {
    if b == [] {
      assert a + b == a;
    } else {
      var init := b[..|b| - 1];
      TasksOfConcat(a, init, n);
      assert (a + b)[..|a + b| - 1] == a + init;
    }
  }

  lemma OneTaskOf(t: Task, n: Name)
    ensures TasksOf([t], n) == if t.name == n then [t] else []
  {
    assert [t][..0] == [];
  }

  lemma EachPiece(pieces: seq<Piece>, n: Name)
    requires forall p <- pieces :: p.name == n
    ensures OneEach(PieceTasks(pieces), n, pieces) && |Parts(pieces)| == |pieces|
    ensures forall i :: 0 <= i < |pieces| ==> Parts(pieces)[i] == Part(pieces[i])
  {
    if pieces != [] {
      assert pieces[0] in pieces;
      EachPiece(pieces[1..], n);
    }
  }

  lemma AllOfName(tasks: seq<Task>, m: Name, n: Name)
    requires forall t <- tasks :: t.name == m
    ensures TasksOf(tasks, n) == if m == n then tasks else []
  {
    if tasks != [] {
      var init, last := tasks[..|tasks| - 1], tasks[|tasks| - 1];
      assert tasks == init + [last];
      AllOfName(init, m, n);
    }
  }

  lemma EntryTasks(o: Options, s: Schedule, tbl: Table, split: bool, pieces: seq<Piece>, n: Name)
    requires forall p <- pieces :: p.name == tbl.name
    ensures var own := if split then PieceTasks(pieces) else [Task(tbl.name, "", Parts(pieces))];
            && TasksOf(Entry(o, s, tbl, split, pieces).tasks, n) == TasksOf(s.tasks, n) + (if n == tbl.name then own else [])
            && (if split then OneEach(own, tbl.name, pieces) else OneForAll(own, tbl.name, pieces))
  {
    var own := if split then PieceTasks(pieces) else [Task(tbl.name, "", Parts(pieces))];
    EachPiece(pieces, tbl.name);
    AllOfName(own, tbl.name, n);
    TasksOfConcat(s.tasks, own, n);
  }

  /** What is scheduled for a table, by the pieces it has in the two lists. */
  predicate TasksFit(o: Options, tasks: seq<Task>, n: Name, scheme: seq<Piece>, rowid: seq<Piece>) {
    if scheme != [] then if o.byScheme then OneEach(tasks, n, scheme) else OneForAll(tasks, n, scheme)
    else if rowid != [] then if o.byRowid then OneEach(tasks, n, rowid) else OneForAll(tasks, n, rowid)
    else tasks == [Task(n, "", [Whole(n)])]
  }

  lemma SubmitTasks(o: Options, s: Schedule, tbl: Table, n: Name) returns (own: seq<Task>)
    ensures TasksOf(Submit(o, s, tbl).tasks, n) == if n == tbl.name then TasksOf(s.tasks, n) + own else TasksOf(s.tasks, n)
    ensures TasksFit(o, own, tbl.name, Of(s.scheme, tbl.name), Of(s.rowid, tbl.name))
  {
    OfIn(s.scheme, tbl.name);
    OfIn(s.rowid, tbl.name);
    var pieces, split := Of(s.scheme, tbl.name), o.byScheme;
    if pieces == [] {
      pieces, split := Of(s.rowid, tbl.name), o.byRowid;
    }
    if pieces == [] {
      own := [Task(tbl.name, "", [Whole(tbl.name)])];
      TasksOfConcat(s.tasks, own, n);
      OneTaskOf(own[0], n);
    } else {
      own := if split then PieceTasks(pieces) else [Task(tbl.name, "", Parts(pieces))];
      EntryTasks(o, s, tbl, split, pieces, n);
    }
    assert TasksOf(s.tasks, n) + [] == TasksOf(s.tasks, n);
  }

  lemma NoTasks(o: Options, s: Schedule, tables: seq<Table>, n: Name)
    requires forall tbl <- tables :: tbl.name != n
    ensures TasksOf(SubmitAll(o, s, tables).tasks, n) == TasksOf(s.tasks, n)
  {
    if tables != [] {
      var init, last := tables[..|tables| - 1], tables[|tables| - 1];
      assert tables == init + [last] && last in tables;
      NoTasks(o, s, init, n);
      var own := SubmitTasks(o, SubmitAll(o, s, init), last, n);
    }
  }

  /** A table with partitions is split by the one option, a table with ROWID ranges by the other: each piece is a task of
      its own, or all are one task; a table with neither is one task. */
  lemma {:induction false} TableTasks(o: Options, scheme: seq<Piece>, rowid: seq<Piece>, tables: seq<Table>, tbl: Table)
    requires NoTableTwice(tables) && tbl in tables
    ensures TasksFit(o, TasksOf(SubmitAll(o, Begin(scheme, rowid), tables).tasks, tbl.name), tbl.name,
                     Of(scheme, tbl.name), Of(rowid, tbl.name))
    decreases |tables|
  {
    var init, last := tables[..|tables| - 1], tables[|tables| - 1];
    assert tables == init + [last];
    if tbl == last {
      LastTable(o, scheme, rowid, tables);
    } else {
      NamesSnoc(tables);
      TableTasks(o, scheme, rowid, init, tbl);
      assert tbl.name in Names(init);
      var own := SubmitTasks(o, SubmitAll(o, Begin(scheme, rowid), init), last, tbl.name);
    }
  }

  lemma LastTable(o: Options, scheme: seq<Piece>, rowid: seq<Piece>, tables: seq<Table>)
    requires NoTableTwice(tables) && tables != []
    ensures var n := tables[|tables| - 1].name;
            TasksFit(o, TasksOf(SubmitAll(o, Begin(scheme, rowid), tables).tasks, n), n, Of(scheme, n), Of(rowid, n))
  {
    var init, last := tables[..|tables| - 1], tables[|tables| - 1];
    var s, n := SubmitAll(o, Begin(scheme, rowid), init), last.name;
    var own := SubmitTasks(o, s, last, n);
    NamesSnoc(tables);
    assert TasksOf(s.tasks, n) == [] by {
      assert forall u <- init :: u.name in Names(init);
      NoTasks(o, Begin(scheme, rowid), init, n);
    }
    ListsAfter(o, scheme, rowid, init);
    OfWithout(scheme, Names(init), n);
    OfWithout(rowid, Names(init) - Split(Names(init), scheme), n);
    assert [] + own == own;
  }

  /** The pieces of a table are all those with its name. */
  lemma OfIff(list: seq<Piece>, n: Name, p: Piece)
    ensures multiset(Of(list, n))[p] == if p.name == n then multiset(list)[p] else 0
  {
    if list != [] {
      OfIff(list[1..], n, p);
      assert list == [list[0]] + list[1..];
    }
  }

  // The same in place.

  lemma InsertOne(o: Options, tbl: Table, chosen: seq<Piece>, i: nat, tasks: seq<Task>, lines: seq<Line>)
    requires i < |chosen| && chosen[i].name == tbl.name
    ensures tasks + PieceTasks(chosen[i..]) ==
            tasks + [Task(tbl.name, chosen[i].suffix, [Part(chosen[i])])] + PieceTasks(chosen[i + 1..])
    ensures lines + PieceLines(o, tbl, chosen[i..]) ==
            lines + [LoaderLine(o, tbl, FileName(tbl.name) + "_" + chosen[i].suffix)] + PieceLines(o, tbl, chosen[i + 1..])
  {
    assert chosen[i..][1..] == chosen[i + 1..];
  }

  /** cPartitionedByScheme or cPartitionedByRowid. */
  class Pieces {
    var list: seq<Piece>

    constructor (list: seq<Piece>)
      ensures this.list == list
    {
      this.list := list;
    }

    /** iFind */
    method FindTable(tbl: Table) returns (found: bool)
      ensures found <==> Of(list, tbl.name) != []
    {
      var i := 0;
      while i < |list| && list[i].name != tbl.name
        invariant 0 <= i <= |list| && Of(list[i..], tbl.name) == Of(list, tbl.name)
      {
        assert list[i..][1..] == list[i + 1..];
        i := i + 1;
      }
      found := i < |list|;
      assert found ==> list[i..][0].name == tbl.name;
    }

    /** The loops of copy_if and remove_if. */
    method SelectMatchedAndRemove(tbl: Table) returns (chosen: seq<Piece>)
      modifies this
      ensures chosen == Of(old(list), tbl.name) && list == Without(old(list), {tbl.name})
    {
      var i, kept := 0, [];
      chosen := [];
      while i < |list|
        invariant 0 <= i <= |list| && list == old(list)
        invariant chosen + Of(list[i..], tbl.name) == Of(list, tbl.name)
        invariant kept + Without(list[i..], {tbl.name}) == Without(list, {tbl.name})
      {
        assert list[i..][1..] == list[i + 1..] && list[i..][0] == list[i];
        if list[i].name == tbl.name {
          Sequences.Assoc(chosen, [list[i]], Of(list[i + 1..], tbl.name));
          chosen := chosen + [list[i]];
        } else {
          Sequences.Assoc(kept, [list[i]], Without(list[i + 1..], {tbl.name}));
          kept := kept + [list[i]];
        }
        i := i + 1;
      }
      assert chosen + [] == chosen && kept + [] == kept;
      list := kept;
    }

    method GenerateSql(tbl: Table) returns (statements: seq<Statement>)
      modifies this
      ensures statements == Parts(Of(old(list), tbl.name)) && list == Without(old(list), {tbl.name})
    {
      var chosen := SelectMatchedAndRemove(tbl);
      statements := [];
      var i := 0;
      while i < |chosen|
        invariant list == Without(old(list), {tbl.name})
        invariant 0 <= i <= |chosen| && statements + Parts(chosen[i..]) == Parts(chosen)
      {
        assert chosen[i..][1..] == chosen[i + 1..];
        Sequences.Assoc(statements, [Part(chosen[i])], Parts(chosen[i + 1..]));
        statements := statements + [Part(chosen[i])];
        i := i + 1;
      }
      assert statements + [] == statements;
    }

    method InsertUnloadTasks(o: Options, tbl: Table) returns (tasks: seq<Task>, lines: seq<Line>)
      modifies this
      ensures list == Without(old(list), {tbl.name})
      ensures tasks == PieceTasks(Of(old(list), tbl.name)) && lines == PieceLines(o, tbl, Of(old(list), tbl.name))
    {
      var chosen := SelectMatchedAndRemove(tbl);
      OfIn(old(list), tbl.name);
      tasks, lines := [], [];
      var i := 0;
      while i < |chosen|
        invariant 0 <= i <= |chosen| && list == Without(old(list), {tbl.name})
        invariant tasks + PieceTasks(chosen[i..]) == PieceTasks(chosen)
        invariant lines + PieceLines(o, tbl, chosen[i..]) == PieceLines(o, tbl, chosen)
      {
        assert chosen[i] in chosen;
        InsertOne(o, tbl, chosen, i, tasks, lines);
        tasks := tasks + [Task(tbl.name, chosen[i].suffix, [Part(chosen[i])])];
        lines := lines + [LoaderLine(o, tbl, FileName(tbl.name) + "_" + chosen[i].suffix)];
        i := i + 1;
      }
      assert tasks + [] == tasks && lines + [] == lines;
    }
  }

  class Unloader {
    const options: Options
    const scheme: Pieces
    const rowid: Pieces
    var tasks: seq<Task>
    var lines: seq<Line>

    function View(): Schedule
      reads this, scheme, rowid
    {
      Schedule(scheme.list, rowid.list, tasks, lines)
    }

    constructor (options: Options, scheme: Pieces, rowid: Pieces)
      ensures this.options == options && this.scheme == scheme && this.rowid == rowid
      ensures View() == Begin(scheme.list, rowid.list)
    {
      this.options, this.scheme, this.rowid := options, scheme, rowid;
      tasks, lines := [], [];
    }

    /** vTaskEntry; `pieces` is one of the two lists. */
    method TaskEntry(pieces: Pieces, split: bool, tbl: Table)
      requires pieces == scheme || pieces == rowid
      modifies this, pieces
      ensures var s := Entry(options, old(View()), tbl, split, Of(old(pieces.list), tbl.name)); tasks == s.tasks && lines == s.lines
      ensures pieces.list == Without(old(pieces.list), {tbl.name})
    {
      if split {
        var more, moreLines := pieces.InsertUnloadTasks(options, tbl);
        tasks := tasks + more;
        lines := lines + moreLines;
      } else {
        var statements := pieces.GenerateSql(tbl);
        tasks := tasks + [Task(tbl.name, "", statements)];
        lines := lines + [LoaderLine(options, tbl, FileName(tbl.name))];
      }
    }

    method SubmitTable(tbl: Table)
      requires scheme != rowid
      modifies this, scheme, rowid
      ensures View() == Submit(options, old(View()), tbl)
    {
      var found := scheme.FindTable(tbl);
      if found {
        TaskEntry(scheme, options.byScheme, tbl);
        return;
      }
      found := rowid.FindTable(tbl);
      if found {
        TaskEntry(rowid, options.byRowid, tbl);
        return;
      }
      tasks := tasks + [Task(tbl.name, "", [Whole(tbl.name)])];
      lines := lines + [LoaderLine(options, tbl, FileName(tbl.name))];
    }

    /** vSubmitUnloadSchedule */
    method SubmitUnloadSchedule(tables: seq<Table>)
      requires scheme != rowid
      modifies this, scheme, rowid
      ensures View() == SubmitAll(options, old(View()), tables)
    {
      var i := 0;
      while i < |tables|
        invariant 0 <= i <= |tables| && View() == SubmitAll(options, old(View()), tables[..i])
      {
        SubmitTable(tables[i]);
        assert tables[..i + 1][..i] == tables[..i];
        i := i + 1;
      }
      assert tables[..i] == tables;
    }
  }
}
