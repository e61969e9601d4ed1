/** The refresh of a repository table by the difference of two sorted lists (cReposRefresher.h,
    cEffectiveCons.cpp and tAllConstraints.h under app/xtru/copydd).  The table is a map from primary
    keys to rows; std::list::sort is any function that sorts. */
module Refresh {
  import opened Wrappers
  import Sequences

  /** A byte of a name; the terminating zero is not part of it. */
  type Byte = x: int | 0 < x < 0x100 witness 1

  type Name = seq<Byte>

  datatype Key = Key(owner: Name, name: Name)

  /** A constraint; `rest` stands for the columns that are not part of the primary key. */
  datatype Row = Row(key: Key, rest: seq<Option<Name>>)

  // The order of keys.

  function StrCmp(a: Name, b: Name): int {
    if a == [] then if b == [] then 0 else -b[0]
    else if b == [] then a[0]
    else if a[0] != b[0] then a[0] - b[0]
    else StrCmp(a[1..], b[1..])
  }

  predicate Less(x: Key, y: Key) {
    var i := StrCmp(x.owner, y.owner);
    if i != 0 then i < 0 else StrCmp(x.name, y.name) < 0
  }

  lemma StrCmpZero(a: Name, b: Name)
    ensures StrCmp(a, b) == 0 <==> a == b
  {
    if a != [] && b != [] && a[0] == b[0] {
      StrCmpZero(a[1..], b[1..]);
      assert a == [a[0]] + a[1..] && b == [b[0]] + b[1..];
    }
  }

  lemma StrCmpFlip(a: Name, b: Name)
    ensures StrCmp(a, b) == -StrCmp(b, a)
  {
  }

  lemma StrCmpTrans(a: Name, b: Name, d: Name)
    requires StrCmp(a, b) <= 0 && StrCmp(b, d) <= 0
    ensures StrCmp(a, d) <= 0 && (StrCmp(a, d) == 0 ==> StrCmp(a, b) == 0 && StrCmp(b, d) == 0)
  {
    if a != [] && b != [] && d != [] && a[0] == b[0] == d[0] {
      StrCmpTrans(a[1..], b[1..], d[1..]);
    }
  }

  /** a is a proper prefix of b, or has the lower byte where they first differ. */
  predicate Below(a: Name, b: Name) {
    exists i :: 0 <= i < |b| && i <= |a| && a[..i] == b[..i] && (i == |a| || a[i] < b[i])
  }

  lemma {:induction false} StrCmpMeans(a: Name, b: Name)
    ensures StrCmp(a, b) < 0 <==> Below(a, b)
    decreases |a|
  {
    if a == [] || b == [] {
      assert a == [] && b != [] ==> a[..0] == b[..0];
    } else if a[0] != b[0] {
      assert a[..0] == b[..0];
      forall i | 0 < i <= |a| && i <= |b| ensures a[..i] != b[..i] {
        assert a[..i][0] == a[0] && b[..i][0] == b[0];
      }
    } else {
      StrCmpMeans(a[1..], b[1..]);
      if Below(a[1..], b[1..]) {
        var i :| 0 <= i < |b[1..]| && i <= |a[1..]| && a[1..][..i] == b[1..][..i] && (i == |a[1..]| || a[1..][i] < b[1..][i]);
        assert a[..i + 1] == [a[0]] + a[1..][..i] && b[..i + 1] == [b[0]] + b[1..][..i];
      }
      if Below(a, b) {
        var i :| 0 <= i < |b| && i <= |a| && a[..i] == b[..i] && (i == |a| || a[i] < b[i]);
        assert a[1..][..i - 1] == a[..i][1..] && b[1..][..i - 1] == b[..i][1..];
      }
    }
  }

  /** Keys are ordered by owner and then by name, each byte by byte. */
  lemma LessMeans(x: Key, y: Key)
    ensures Less(x, y) <==> Below(x.owner, y.owner) || (x.owner == y.owner && Below(x.name, y.name))
  {
    StrCmpMeans(x.owner, y.owner);
    StrCmpMeans(x.name, y.name);
    StrCmpZero(x.owner, y.owner);
  }

  /** Two keys neither of which is less are one key. */
  lemma LessTotal(x: Key, y: Key)
    ensures Less(x, y) || Less(y, x) || x == y
    ensures Less(x, y) ==> !Less(y, x) && x != y
  {
    StrCmpZero(x.owner, y.owner);
    StrCmpZero(x.name, y.name);
    StrCmpFlip(x.owner, y.owner);
    StrCmpFlip(x.name, y.name);
  }

  lemma LessTrans(x: Key, y: Key, z: Key)
    requires !Less(y, x) && !Less(z, y)
    ensures !Less(z, x) && (Less(x, y) || Less(y, z) ==> Less(x, z))
  {
    StrCmpFlip(x.owner, y.owner);
    StrCmpFlip(y.owner, z.owner);
    StrCmpFlip(x.owner, z.owner);
    StrCmpFlip(x.name, y.name);
    StrCmpFlip(y.name, z.name);
    StrCmpFlip(x.name, z.name);
    StrCmpTrans(x.owner, y.owner, z.owner);
    if StrCmp(x.owner, z.owner) == 0 {
      StrCmpTrans(x.name, y.name, z.name);
    }
  }

  predicate Sorted(rows: seq<Row>) {
    forall i, j :: 0 <= i < j < |rows| ==> !Less(rows[j].key, rows[i].key)
  }

  function Count(rows: seq<Row>, k: Key): nat {
    if rows == [] then 0 else (if rows[0].key == k then 1 else 0) + Count(rows[1..], k)
  }

  /** The rows of one key, in their order. */
  function Copies(rows: seq<Row>, k: Key): (copies: seq<Row>)
    ensures |copies| == Count(rows, k)
  {
    if rows == [] then [] else if rows[0].key == k then [rows[0]] + Copies(rows[1..], k) else Copies(rows[1..], k)
  }

  predicate Distinct(rows: seq<Row>) {
    forall i, j :: 0 <= i < j < |rows| ==> rows[i].key != rows[j].key
  }

  ghost function Keys(rows: seq<Row>): set<Key> {
    set r <- rows :: r.key
  }

  // Sorting.

  function Insert(r: Row, rows: seq<Row>): seq<Row> {
    if rows == [] || Less(r.key, rows[0].key) then [r] + rows else [rows[0]] + Insert(r, rows[1..])
  }

  function Sort(rows: seq<Row>): seq<Row> {
    if rows == [] then [] else Insert(rows[|rows| - 1], Sort(rows[..|rows| - 1]))
  }

  lemma InsertSame(r: Row, rows: seq<Row>, k: Key)
    ensures multiset(Insert(r, rows)) == multiset(rows) + multiset{r}
    ensures Count(Insert(r, rows), k) == Count(rows, k) + if r.key == k then 1 else 0
  {
    if rows == [] || Less(r.key, rows[0].key) {
      CountCons(r, rows, k);
    } else {
      InsertSame(r, rows[1..], k);
      assert rows == [rows[0]] + rows[1..];
      CountCons(rows[0], Insert(r, rows[1..]), k);
    }
  }

  lemma InsertSorted(r: Row, rows: seq<Row>)
    requires Sorted(rows)
    ensures Sorted(Insert(r, rows))
  {
    if rows == [] {
    } else if Less(r.key, rows[0].key) {
      forall i | 0 <= i < |rows| ensures !Less(rows[i].key, r.key) {
        InsertFirst(r, rows, i);
      }
    } else {
      InsertSorted(r, rows[1..]);
      InsertLater(r, rows);
    }
  }

  lemma InsertLater(r: Row, rows: seq<Row>)
    requires rows != [] && Sorted(rows) && !Less(r.key, rows[0].key)
    ensures forall x <- Insert(r, rows[1..]) :: !Less(x.key, rows[0].key)
  {
    var more := Insert(r, rows[1..]);
    InsertSame(r, rows[1..], r.key);
    forall x | x in more ensures !Less(x.key, rows[0].key) {
      assert x in multiset(more);
      assert x == r || x in rows[1..];
    }
  }

  lemma InsertFirst(r: Row, rows: seq<Row>, i: nat)
    requires Sorted(rows) && i < |rows| && Less(r.key, rows[0].key)
    ensures !Less(rows[i].key, r.key)
  {
    LessTotal(r.key, rows[0].key);
    if i > 0 {
      LessTrans(r.key, rows[0].key, rows[i].key);
      LessTotal(r.key, rows[i].key);
    }
  }

  lemma SortSplit(rows: seq<Row>, init: seq<Row>, r: Row)
    requires rows == init + [r]
    ensures Sort(rows) == Insert(r, Sort(init))
  {
    assert rows[..|rows| - 1] == init;
  }

  lemma SortedSnoc(init: seq<Row>, r: Row, sorted: seq<Row>, k: Key)
    requires Sorted(sorted) && multiset(sorted) == multiset(init) && Count(sorted, k) == Count(init, k)
    ensures Sorted(Insert(r, sorted)) && multiset(Insert(r, sorted)) == multiset(init + [r])
    ensures Count(Insert(r, sorted), k) == Count(init + [r], k)
  {
    InsertSorted(r, sorted);
    InsertSame(r, sorted, k);
    CountSnoc(init, r, k);
  }

  /** Sorting gives a sorted permutation, and every key as often as before. */
  lemma {:induction false} SortSorts(rows: seq<Row>, k: Key)
    ensures Sorted(Sort(rows)) && multiset(Sort(rows)) == multiset(rows) && Count(Sort(rows), k) == Count(rows, k)
    decreases |rows|
  {
    if rows != [] {
      var init, r := rows[..|rows| - 1], rows[|rows| - 1];
      assert rows == init + [r];
      SortSorts(init, k);
      SortSplit(rows, init, r);
      SortedSnoc(init, r, Sort(init), k);
    }
  }

  lemma InsertCopies(r: Row, rows: seq<Row>, k: Key)
    requires Sorted(rows)
    ensures Copies(Insert(r, rows), k) == if r.key == k then Copies(rows, k) + [r] else Copies(rows, k)
  {
    if rows == [] || Less(r.key, rows[0].key) {
      CountBelow(rows, r.key);
      assert ([r] + rows)[1..] == rows;
    } else {
      var more := Insert(r, rows[1..]);
      InsertCopies(r, rows[1..], k);
      assert ([rows[0]] + more)[1..] == more;
      Sequences.Assoc([rows[0]], Copies(rows[1..], k), [r]);
    }
  }

  lemma CopiesSnoc(rows: seq<Row>, r: Row, k: Key)
    ensures Copies(rows + [r], k) == if r.key == k then Copies(rows, k) + [r] else Copies(rows, k)
  {
    if rows == [] {
      assert rows + [r] == [r] && [r][1..] == [];
    } else {
      assert (rows + [r])[1..] == rows[1..] + [r];
      CopiesSnoc(rows[1..], r, k);
      Sequences.Assoc([rows[0]], Copies(rows[1..], k), [r]);
    }
  }

  /** Sorting keeps rows of one key in their order. */
  lemma {:induction false} SortStable(rows: seq<Row>, k: Key)
    ensures Copies(Sort(rows), k) == Copies(rows, k)
    decreases |rows|
  {
    if rows != [] {
      var init, r := rows[..|rows| - 1], rows[|rows| - 1];
      assert rows == init + [r];
      SortStable(init, k);
      SortSorts(init, k);
      InsertCopies(r, Sort(init), k);
      CopiesSnoc(init, r, k);
    }
  }

  lemma CountSnoc(rows: seq<Row>, r: Row, k: Key)
    ensures Count(rows + [r], k) == Count(rows, k) + if r.key == k then 1 else 0
  {
    CountAppend(rows, [r], k);
    CountCons(r, [], k);
  }

  // The difference.

  function Diff(a: seq<Row>, b: seq<Row>): seq<Row> {
    if a == [] then []
    else if b == [] then a
    else if Less(a[0].key, b[0].key) then [a[0]] + Diff(a[1..], b)
    else if Less(b[0].key, a[0].key) then Diff(a, b[1..])
    else Diff(a[1..], b[1..])
  }

  lemma CountBelow(rows: seq<Row>, k: Key)
    requires Sorted(rows) && (rows != [] ==> Less(k, rows[0].key))
    ensures Count(rows, k) == 0
  {
    if |rows| > 1 {
      LessTotal(k, rows[0].key);
      LessTrans(k, rows[0].key, rows[1].key);
      CountBelow(rows[1..], k);
    }
    if rows != [] {
      LessTotal(k, rows[0].key);
    }
  }

  lemma DiffCount(a: seq<Row>, b: seq<Row>, k: Key)
    requires Sorted(a) && Sorted(b)
    ensures Count(Diff(a, b), k) == if Count(a, k) <= Count(b, k) then 0 else Count(a, k) - Count(b, k)
  {
    if a != [] && b != [] {
      LessTotal(a[0].key, b[0].key);
      if Less(a[0].key, b[0].key) {
        DiffCount(a[1..], b, k);
        CountBelow(b, a[0].key);
        CountCons(a[0], Diff(a[1..], b), k);
      } else if Less(b[0].key, a[0].key) {
        DiffCount(a, b[1..], k);
        CountBelow(a, b[0].key);
      } else {
        DiffCount(a[1..], b[1..], k);
      }
    }
  }

  /** Of the rows of one key the first ones are dropped, as many as the other list has. */
  lemma DiffCopies(a: seq<Row>, b: seq<Row>, k: Key)
    requires Sorted(a) && Sorted(b)
    ensures Copies(Diff(a, b), k) == if Count(a, k) <= Count(b, k) then [] else Copies(a, k)[Count(b, k)..]
  {
    if a != [] && b != [] {
      LessTotal(a[0].key, b[0].key);
      if Less(a[0].key, b[0].key) {
        DiffCopies(a[1..], b, k);
        CountBelow(b, a[0].key);
        var more := Diff(a[1..], b);
        assert ([a[0]] + more)[1..] == more;
      } else if Less(b[0].key, a[0].key) {
        DiffCopies(a, b[1..], k);
        CountBelow(a, b[0].key);
      } else {
        DiffCopies(a[1..], b[1..], k);
      }
    }
  }

  lemma DiffSorted(a: seq<Row>, b: seq<Row>)
    requires Sorted(a)
    ensures Sorted(Diff(a, b))
  {
    if a != [] && b != [] {
      if Less(a[0].key, b[0].key) {
        DiffSorted(a[1..], b);
        DiffRows(a[1..], b);
        var more := Diff(a[1..], b);
        forall i | 0 <= i < |more| ensures !Less(more[i].key, a[0].key) {
          assert more[i] in a[1..];
        }
      } else if Less(b[0].key, a[0].key) {
        DiffSorted(a, b[1..]);
      } else {
        DiffSorted(a[1..], b[1..]);
      }
    }
  }

  lemma CountCons(r: Row, rows: seq<Row>, k: Key)
    ensures Count([r] + rows, k) == (if r.key == k then 1 else 0) + Count(rows, k)
  {
    assert ([r] + rows)[1..] == rows;
  }

  lemma DiffRows(a: seq<Row>, b: seq<Row>)
    ensures forall r <- Diff(a, b) :: r in a
  {
  }

  lemma CountIn(rows: seq<Row>, k: Key)
    ensures Count(rows, k) > 0 <==> k in Keys(rows)
  {
    if rows != [] {
      CountIn(rows[1..], k);
      assert rows == [rows[0]] + rows[1..];
    }
  }

  lemma DistinctCons(r: Row, rows: seq<Row>)
    ensures Distinct([r] + rows) <==> Distinct(rows) && r.key !in Keys(rows)
  {
    var all := [r] + rows;
    assert forall i :: 0 <= i < |rows| ==> rows[i] in rows && all[i + 1] == rows[i];
    if Distinct(all) {
      forall i, j | 0 <= i < j < |rows| ensures rows[i].key != rows[j].key {
        assert all[i + 1].key != all[j + 1].key;
      }
      forall i | 0 <= i < |rows| ensures rows[i].key != r.key {
        assert all[0].key != all[i + 1].key;
      }
    }
  }

  lemma {:induction false} DistinctCount(rows: seq<Row>)
    ensures Distinct(rows) <==> forall k :: Count(rows, k) <= 1
    decreases |rows|
  {
    if rows != [] {
      var rest, key := rows[1..], rows[0].key;
      assert rows == [rows[0]] + rest;
      DistinctCount(rest);
      DistinctCons(rows[0], rest);
      CountIn(rest, key);
      if forall k :: Count(rows, k) <= 1 {
        assert Count(rows, key) <= 1;
        assert forall k :: Count(rest, k) <= Count(rows, k) <= 1;
      } else {
        var k :| Count(rows, k) > 1;
        CountCons(rows[0], rest, k);
        if Distinct(rest) {
          assert Count(rest, k) <= 1;
        }
      }
    }
  }

  lemma CountAppend(a: seq<Row>, b: seq<Row>, k: Key)
    ensures Count(a + b, k) == Count(a, k) + Count(b, k)
  {
    if a == [] {
      assert a + b == b;
    } else {
      assert (a + b)[1..] == a[1..] + b;
      CountAppend(a[1..], b, k);
    }
  }

  // The table.

  /** Rows stored one after the other. */
  ghost function Stored(table: map<Key, Row>, rows: seq<Row>): map<Key, Row> {
    if rows == [] then table else
      var r := rows[|rows| - 1];
      Stored(table, rows[..|rows| - 1])[r.key := r]
  }

  ghost predicate New(table: map<Key, Row>, rows: seq<Row>) {
    Distinct(rows) && Keys(rows) !! table.Keys
  }

  /** The first n rows have been stored, and each was new. */
  ghost predicate Inserted(table: map<Key, Row>, rows: seq<Row>, n: nat, after: map<Key, Row>) {
    n <= |rows| && New(table, rows[..n]) && after == Stored(table, rows[..n])
  }

  lemma NewSnoc(table: map<Key, Row>, rows: seq<Row>, r: Row)
    ensures New(table, rows + [r]) <==> New(table, rows) && r.key !in table && r.key !in Keys(rows)
  {
    var all := rows + [r];
    assert Keys(all) == Keys(rows) + {r.key} by {
      assert forall x <- rows :: x in all;
      assert r in all;
    }
    if Distinct(all) {
      assert forall i :: 0 <= i < |rows| ==> all[i] == rows[i] && all[i].key != all[|rows|].key;
    }
    if New(table, rows) && r.key !in table && r.key !in Keys(rows) {
      forall i, j | 0 <= i < j < |all| ensures all[i].key != all[j].key {
        assert all[i] in rows;
      }
    }
  }

  lemma StoredSnoc(table: map<Key, Row>, rows: seq<Row>, r: Row)
    ensures Stored(table, rows + [r]) == Stored(table, rows)[r.key := r]
  {
    assert (rows + [r])[..|rows|] == rows;
  }

  lemma StoredKeys(table: map<Key, Row>, rows: seq<Row>)
    ensures Stored(table, rows).Keys == table.Keys + Keys(rows)
    ensures forall k <- Stored(table, rows) ::
              if k in Keys(rows) then Stored(table, rows)[k] in rows && Stored(table, rows)[k].key == k
              else Stored(table, rows)[k] == table[k]
  {
    if rows != [] {
      var init, r := rows[..|rows| - 1], rows[|rows| - 1];
      StoredKeys(table, init);
      assert rows == init + [r];
    }
  }

  class Database {
    var table: map<Key, Row>

    constructor ()
      ensures table == map[]
    {
      table := map[];
    }

    /** Deletes by primary key. */
    method Delete(k: Key)
      modifies this
      ensures table == old(table) - {k}
    {
      table := table - {k};
    }

    /** Fails if the primary key exists. */
    method InsertRow(r: Row) returns (ok: bool)
      modifies this
      ensures ok <==> r.key !in old(table)
      ensures table == if ok then old(table)[r.key := r] else old(table)
    {
      ok := r.key !in table;
      if ok {
        table := table[r.key := r];
      }
    }
  }

  /** A sorted list of rows of the table. */
  class EffectiveCons {
    const db: Database
    var container: seq<Row>

    /** `result` is what the query yields. */
    constructor Query(db: Database, result: seq<Row>)
      ensures this.db == db && container == Sort(result)
    {
      this.db, container := db, Sort(result);
    }

    constructor Copy(rhs: EffectiveCons)
      ensures db == rhs.db && container == rhs.container
    {
      db, container := rhs.db, rhs.container;
    }

    /** operator-=, with the loop of std::set_difference. */
    method Subtract(rhs: EffectiveCons)
      requires rhs != this
      modifies this
      ensures container == Diff(old(container), rhs.container)
    {
      var temp := container;
      container := [];
      var i, j := 0, 0;
      while i < |temp| && j < |rhs.container|
        invariant 0 <= i <= |temp| && 0 <= j <= |rhs.container|
        invariant container + Diff(temp[i..], rhs.container[j..]) == Diff(temp, rhs.container)
        decreases |temp| - i + |rhs.container| - j
      {
        DiffStep(temp, rhs.container, i, j, container);
        if Less(temp[i].key, rhs.container[j].key) {
          container := container + [temp[i]];
          i := i + 1;
        } else {
          if !Less(rhs.container[j].key, temp[i].key) {
            i := i + 1;
          }
          j := j + 1;
        }
      }
      DiffEnd(temp, rhs.container, i, j, container);
      CopyRest(temp, i);
    }

    /** std::copy, as set_difference calls it for what is left. */
    method CopyRest(temp: seq<Row>, from: nat)
      requires from <= |temp|
      modifies this
      ensures container == old(container) + temp[from..]
    {
      var i := from;
      while i < |temp|
        invariant from <= i <= |temp| && container == old(container) + temp[from..i]
      {
        assert temp[from..i + 1] == temp[from..i] + [temp[i]];
        container := container + [temp[i]];
        i := i + 1;
      }
    }

    method SqlDel()
      modifies db
      ensures db.table == old(db.table) - Keys(container)
    {
      var i := 0;
      while i < |container|
        invariant 0 <= i <= |container| && db.table == old(db.table) - Keys(container[..i])
      {
        assert Keys(container[..i + 1]) == Keys(container[..i]) + {container[i].key};
        db.Delete(container[i].key);
        i := i + 1;
      }
      assert container[..i] == container;
    }

    /** Inserts row by row up to the first that meets an existing key. */
    method SqlIns() returns (r: Result<(), Key>)
      modifies db
      ensures r.Ok? <==> New(old(db.table), container)
      ensures r.Ok? ==> Inserted(old(db.table), container, |container|, db.table)
      ensures r.Err? ==> r.error in db.table && exists i :: 0 <= i < |container| && r.error == container[i].key &&
                                                            Inserted(old(db.table), container, i, db.table)
    {
      var i := 0;
      while i < |container|
        invariant 0 <= i <= |container| && New(old(db.table), container[..i])
        invariant db.table == Stored(old(db.table), container[..i])
      {
        assert container[..i + 1] == container[..i] + [container[i]];
        NewSnoc(old(db.table), container[..i], container[i]);
        StoredSnoc(old(db.table), container[..i], container[i]);
        StoredKeys(old(db.table), container[..i]);
        var ok := db.InsertRow(container[i]);
        if !ok {
          NotNew(old(db.table), container, i + 1);
          return Err(container[i].key);
        }
        i := i + 1;
      }
      assert container[..i] == container;
      r := Ok(());
    }
  }

  lemma NotNew(table: map<Key, Row>, rows: seq<Row>, n: nat)
    requires n <= |rows| && !New(table, rows[..n])
    ensures !New(table, rows)
  {
    assert forall x <- rows[..n] :: x in rows;
    assert Keys(rows[..n]) <= Keys(rows);
    assert forall i :: 0 <= i < n ==> rows[..n][i] == rows[i];
  }

  lemma DiffEnd(a: seq<Row>, b: seq<Row>, i: nat, j: nat, before: seq<Row>)
    requires i <= |a| && j <= |b| && (i == |a| || j == |b|)
    ensures before + Diff(a[i..], b[j..]) == before + a[i..]
  {
  }

  lemma DiffStep(a: seq<Row>, b: seq<Row>, i: nat, j: nat, before: seq<Row>)
    requires i < |a| && j < |b|
    ensures var d := Diff(a[i..], b[j..]);
            if Less(a[i].key, b[j].key) then before + d == before + [a[i]] + Diff(a[i + 1..], b[j..])
            else if Less(b[j].key, a[i].key) then d == Diff(a[i..], b[j + 1..])
            else d == Diff(a[i + 1..], b[j + 1..])
  {
    assert a[i..][1..] == a[i + 1..] && b[j..][1..] == b[j + 1..];
  }

  // The refresh.

  /** A scan of the table, in any order. */
  ghost predicate Scan(table: map<Key, Row>, rows: seq<Row>) {
    Distinct(rows) && Keys(rows) == table.Keys && forall r <- rows :: table[r.key] == r
  }

  lemma OwnKeys(table: map<Key, Row>, rows: seq<Row>)
    requires Scan(table, rows)
    ensures forall k <- table :: table[k].key == k
  {
    forall k | k in table ensures table[k].key == k {
      var r :| r in rows && r.key == k;
    }
  }

  lemma Deleted(table: map<Key, Row>, stored: seq<Row>, fetched: seq<Row>)
    requires Scan(table, stored)
    ensures Keys(Diff(Sort(stored), Sort(fetched))) == table.Keys - Keys(fetched)
  {
    DistinctCount(stored);
    var del := Diff(Sort(stored), Sort(fetched));
    forall k ensures k in Keys(del) <==> k in table.Keys - Keys(fetched) {
      DiffKey(stored, fetched, k);
      CountIn(del, k);
      CountIn(stored, k);
      CountIn(fetched, k);
    }
  }

  lemma DiffKey(a: seq<Row>, b: seq<Row>, k: Key)
    ensures Count(Diff(Sort(a), Sort(b)), k) == if Count(a, k) <= Count(b, k) then 0 else Count(a, k) - Count(b, k)
  {
    SortSorts(a, k);
    SortSorts(b, k);
    DiffCount(Sort(a), Sort(b), k);
  }

  /** Whether the rows to insert are new to the table that the deletions left. */
  lemma InsertedNew(table: map<Key, Row>, stored: seq<Row>, fetched: seq<Row>, left: map<Key, Row>)
    requires Scan(table, stored) && left == table - (table.Keys - Keys(fetched))
    ensures New(left, Diff(Sort(fetched), Sort(stored))) <==> Distinct(fetched)
    ensures forall r <- Diff(Sort(fetched), Sort(stored)) :: r in fetched
    ensures Distinct(fetched) ==> Keys(Diff(Sort(fetched), Sort(stored))) == Keys(fetched) - table.Keys
  {
    var ins := Diff(Sort(fetched), Sort(stored));
    DistinctCount(stored);
    DistinctCount(fetched);
    DistinctCount(ins);
    forall k
      ensures Count(ins, k) == if Count(fetched, k) <= Count(stored, k) then 0 else Count(fetched, k) - Count(stored, k)
      ensures Count(stored, k) == if k in table then 1 else 0
      ensures (Count(ins, k) > 0 <==> k in Keys(ins)) && (Count(fetched, k) > 0 <==> k in Keys(fetched))
    {
      DiffKey(fetched, stored, k);
      CountIn(ins, k);
      CountIn(stored, k);
      CountIn(fetched, k);
    }
    NewIff(table, stored, fetched, left, ins);
    InsertedRows(stored, fetched);
  }

  lemma InsertedRows(stored: seq<Row>, fetched: seq<Row>)
    ensures forall r <- Diff(Sort(fetched), Sort(stored)) :: r in fetched
  {
    DiffRows(Sort(fetched), Sort(stored));
    SortSorts(fetched, Key([], []));
    forall r | r in Diff(Sort(fetched), Sort(stored)) ensures r in fetched {
      assert r in multiset(Sort(fetched));
    }
  }

  lemma NewIff(table: map<Key, Row>, stored: seq<Row>, fetched: seq<Row>, left: map<Key, Row>, ins: seq<Row>)
    requires left == table - (table.Keys - Keys(fetched))
    requires Distinct(fetched) <==> forall k :: Count(fetched, k) <= 1
    requires Distinct(ins) <==> forall k :: Count(ins, k) <= 1
    requires forall k :: Count(ins, k) == if Count(fetched, k) <= Count(stored, k) then 0 else Count(fetched, k) - Count(stored, k)
    requires forall k :: Count(stored, k) == if k in table then 1 else 0
    requires forall k :: (Count(ins, k) > 0 <==> k in Keys(ins)) && (Count(fetched, k) > 0 <==> k in Keys(fetched))
    ensures New(left, ins) <==> Distinct(fetched)
    ensures Distinct(fetched) ==> Keys(ins) == Keys(fetched) - table.Keys
  {
    if New(left, ins) {
      forall k ensures Count(fetched, k) <= 1 {
        assert Count(ins, k) <= 1;
        assert k in left ==> k !in Keys(ins);
      }
    }
    if Distinct(fetched) {
      forall k ensures Count(ins, k) <= 1 && (k in Keys(ins) <==> k in Keys(fetched) && k !in table) {
        assert Count(fetched, k) <= 1;
      }
    }
  }

  /** r is the first of the rows with its key. */
  predicate IsFirst(rows: seq<Row>, r: Row) {
    exists i :: 0 <= i < |rows| && rows[i] == r && forall j :: 0 <= j < i ==> rows[j].key != r.key
  }

  lemma FirstCopy(rows: seq<Row>, k: Key)
    requires Copies(rows, k) != []
    ensures IsFirst(rows, Copies(rows, k)[0]) && Copies(rows, k)[0].key == k
  {
    if rows[0].key == k {
      assert rows[0] == Copies(rows, k)[0];
    } else {
      FirstCopy(rows[1..], k);
      var i :| 0 <= i < |rows[1..]| && rows[1..][i] == Copies(rows, k)[0] && forall j :: 0 <= j < i ==> rows[1..][j].key != k;
      assert rows[i + 1] == rows[1..][i];
      assert forall j :: 0 < j < i + 1 ==> rows[j] == rows[1..][j - 1];
    }
  }

  lemma FirstAt(rows: seq<Row>, k: Key, i: nat)
    requires i < |rows| && rows[i].key == k && forall j :: 0 <= j < i ==> rows[j].key != k
    ensures Copies(rows, k) != [] && Copies(rows, k)[0] == rows[i]
  {
    if i > 0 {
      assert rows[0].key != k;
      FirstAt(rows[1..], k, i - 1);
    }
  }

  /** What is stored for a new key is the first row with it that the query yields. */
  lemma FirstStored(table: map<Key, Row>, stored: seq<Row>, fetched: seq<Row>, left: map<Key, Row>, ins: seq<Row>, n: nat,
                    after: map<Key, Row>, k: Key)
    requires Scan(table, stored) && ins == Diff(Sort(fetched), Sort(stored)) && Inserted(left, ins, n, after)
    requires k in after && k !in table && left.Keys <= table.Keys
    ensures IsFirst(fetched, after[k]) && k in Keys(ins[..n])
  {
    StoredKeys(left, ins[..n]);
    var i :| 0 <= i < n && ins[..n][i] == after[k];
    assert forall j :: 0 <= j < i ==> ins[..n][j] == ins[j] && ins[j].key != ins[i].key;
    FirstAt(ins, k, i);
    CopiesOf(fetched, stored, k);
    CountIn(stored, k);
    assert Copies(fetched, k)[0..] == Copies(fetched, k);
    FirstCopy(fetched, k);
  }

  lemma CopiesOf(a: seq<Row>, b: seq<Row>, k: Key)
    ensures Copies(Diff(Sort(a), Sort(b)), k) == if Count(a, k) <= Count(b, k) then [] else Copies(a, k)[Count(b, k)..]
  {
    SortSorts(a, k);
    SortSorts(b, k);
    DiffCopies(Sort(a), Sort(b), k);
    SortStable(a, k);
  }

  lemma CountAt(rows: seq<Row>, i: nat)
    requires i < |rows|
    ensures Count(rows[i..], rows[i].key) > 0 && Count(rows, rows[i].key) == Count(rows[..i], rows[i].key) + Count(rows[i..], rows[i].key)
  {
    assert rows == rows[..i] + rows[i..];
    CountAppend(rows[..i], rows[i..], rows[i].key);
  }

  /** The row at which the insertion stops has a key that the query yields more than once. */
  lemma StopsAtRepeat(table: map<Key, Row>, stored: seq<Row>, fetched: seq<Row>, left: map<Key, Row>, ins: seq<Row>, n: nat,
                      after: map<Key, Row>)
    requires Scan(table, stored) && ins == Diff(Sort(fetched), Sort(stored)) && Inserted(left, ins, n, after)
    requires left == table - (table.Keys - Keys(fetched)) && n < |ins| && ins[n].key in after
    ensures Count(fetched, ins[n].key) > 1
  {
    var k := ins[n].key;
    CountAt(ins, n);
    CountIn(ins[..n], k);
    DiffKey(fetched, stored, k);
    CountIn(stored, k);
    StoredKeys(left, ins[..n]);
  }

  /** Keys below the one at which it stops are not repeated, and they are there. */
  lemma BelowIsStored(table: map<Key, Row>, stored: seq<Row>, fetched: seq<Row>, left: map<Key, Row>, ins: seq<Row>, n: nat,
                      after: map<Key, Row>, k: Key)
    requires Scan(table, stored) && ins == Diff(Sort(fetched), Sort(stored)) && Inserted(left, ins, n, after)
    requires left == table - (table.Keys - Keys(fetched)) && n < |ins| && k in Keys(fetched) && Less(k, ins[n].key)
    ensures Count(fetched, k) == 1 && k in after
  {
    SortSorts(fetched, k);
    DiffSorted(Sort(fetched), Sort(stored));
    TailCount(ins, n, k);
    DiffKey(fetched, stored, k);
    CountIn(fetched, k);
    CountIn(stored, k);
    CountIn(ins[..n], k);
    DistinctCount(ins[..n]);
    DistinctCount(stored);
    StoredKeys(left, ins[..n]);
    assert Count(ins[..n], k) <= 1 && Count(stored, k) <= 1;
  }

  lemma TailCount(rows: seq<Row>, n: nat, k: Key)
    requires Sorted(rows) && n < |rows| && Less(k, rows[n].key)
    ensures Count(rows, k) == Count(rows[..n], k)
  {
    assert rows == rows[..n] + rows[n..];
    CountAppend(rows[..n], rows[n..], k);
    CountBelow(rows[n..], k);
  }

  /** What was inserted before it stopped is not above the key at which it stopped. */
  lemma StoredIsBelow(table: map<Key, Row>, stored: seq<Row>, fetched: seq<Row>, ins: seq<Row>, n: nat, k: Key)
    requires ins == Diff(Sort(fetched), Sort(stored)) && n < |ins| && k in Keys(ins[..n])
    ensures !Less(ins[n].key, k)
  {
    SortSorts(fetched, k);
    DiffSorted(Sort(fetched), Sort(stored));
    var i :| 0 <= i < n && ins[..n][i].key == k;
    assert ins[i] == ins[..n][i];
  }

  /** cReposRefresher::vRefresh.  `scan` is the content of the table, `result` what the refreshing query
      yields.  It fails exactly if a key is repeated, and then it has stopped at the least such key. */
  method Refresh(db: Database, scan: seq<Row>, result: seq<Row>) returns (r: Result<(), Key>)
    requires Scan(db.table, scan)
    modifies db
    ensures r.Ok? <==> Distinct(result)
    ensures r.Ok? ==> db.table.Keys == Keys(result)
    ensures db.table.Keys <= Keys(result)
    ensures forall k <- db.table :: if k in old(db.table) then db.table[k] == old(db.table[k]) else IsFirst(result, db.table[k])
    ensures forall k <- db.table :: db.table[k].key == k
    ensures r.Err? ==> r.error in db.table && old(db.table.Keys) * Keys(result) <= db.table.Keys
    ensures r.Err? ==> Count(result, r.error) > 1
    ensures r.Err? ==> forall k <- Keys(result) :: Less(k, r.error) ==> Count(result, k) == 1 && k in db.table
    ensures r.Err? ==> forall k <- db.table :: k in old(db.table) || !Less(r.error, k)
  {
    OwnKeys(db.table, scan);
    var oOld := new EffectiveCons.Query(db, scan);
    var oNew := new EffectiveCons.Query(db, result);
    var gone := new EffectiveCons.Copy(oOld);
    gone.Subtract(oNew);
    Deleted(db.table, scan, result);
    gone.SqlDel();
    ghost var left := db.table;
    var come := new EffectiveCons.Copy(oNew);
    come.Subtract(oOld);
    InsertedNew(old(db.table), scan, result, left);
    r := come.SqlIns();
    ghost var ins, n := come.container, |come.container|;
    if r.Err? {
      n :| 0 <= n < |ins| && r.error == ins[n].key && Inserted(left, ins, n, db.table);
    }
    AfterInsert(old(db.table), result, left, ins, n, db.table);
    AfterStop(old(db.table), scan, result, left, ins, n, db.table);
  }

  lemma AfterStop(table: map<Key, Row>, stored: seq<Row>, fetched: seq<Row>, left: map<Key, Row>, ins: seq<Row>, n: nat,
                  after: map<Key, Row>)
    requires Scan(table, stored) && ins == Diff(Sort(fetched), Sort(stored)) && Inserted(left, ins, n, after)
    requires left == table - (table.Keys - Keys(fetched)) && (n < |ins| ==> ins[n].key in after)
    ensures forall k <- after :: k !in table ==> IsFirst(fetched, after[k])
    ensures n < |ins| ==> Count(fetched, ins[n].key) > 1
    ensures n < |ins| ==> forall k <- Keys(fetched) :: Less(k, ins[n].key) ==> Count(fetched, k) == 1 && k in after
    ensures n < |ins| ==> forall k <- after :: k in table || !Less(ins[n].key, k)
  {
    forall k | k in after && k !in table ensures IsFirst(fetched, after[k]) && k in Keys(ins[..n]) {
      FirstStored(table, stored, fetched, left, ins, n, after, k);
    }
    if n < |ins| {
      StopsAtRepeat(table, stored, fetched, left, ins, n, after);
      forall k | k in Keys(fetched) && Less(k, ins[n].key) ensures Count(fetched, k) == 1 && k in after {
        BelowIsStored(table, stored, fetched, left, ins, n, after, k);
      }
      forall k | k in after && k !in table ensures !Less(ins[n].key, k) {
        StoredIsBelow(table, stored, fetched, ins, n, k);
      }
    }
  }

  lemma AfterInsert(table: map<Key, Row>, fetched: seq<Row>, left: map<Key, Row>, ins: seq<Row>, n: nat, after: map<Key, Row>)
    requires left == table - (table.Keys - Keys(fetched)) && forall r <- ins :: r in fetched
    requires Inserted(left, ins, n, after) && forall k <- table :: table[k].key == k
    ensures forall k <- after :: after[k].key == k
    ensures left.Keys <= after.Keys <= Keys(fetched)
    ensures n == |ins| ==> after.Keys == left.Keys + Keys(ins)
    ensures forall k <- after :: if k in table then after[k] == table[k] else after[k] in fetched
  {
    StoredKeys(left, ins[..n]);
    assert forall r <- ins[..n] :: r in ins;
    assert Keys(ins[..n]) <= Keys(fetched);
    if n == |ins| {
      assert ins[..n] == ins;
    }
  }
}
