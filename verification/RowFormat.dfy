/** Rows as they are written to a data file (inc/cDelimiter.h, lib/cDelimiter.cpp and the row writer
    of demo/cAllTables.cpp), and a reader of that format. */
module RowFormat {
  import opened Wrappers
  import Sequences
  import Decimals
  import Delimiters

  /** The delimiters of a data file.  `explicit` says that a second enclosure is configured, `digits`
      is the width of the length prefix. */
  datatype Format = Format(rowSep: string, colSep: string, enc1: string, enc2: string,
                           explicit: bool, endTerm: bool, digits: nat)
  {
    function Close(): string {
      if explicit then enc2 else enc1
    }

    function LastSep(): string {
      if endTerm then colSep else ""
    }
  }

  /** A value of a column: character data is enclosed, anything else stands bare. */
  datatype Field = Field(enclosed: bool, data: string, isNull: bool)
  {
    function Text(): string {
      if isNull then "" else data
    }
  }

  type Row = seq<Field>

  // The writer.

  function FieldText(f: Format, x: Field): string {
    if x.enclosed then f.enc1 + x.Text() + f.Close() else x.Text()
  }

  /** The fields from number i on, with the separators between them. */
  function Fields(f: Format, row: Row, i: nat): string
    requires i <= |row|
    decreases |row| - i
  {
    if i == |row| then ""
    else if i == |row| - 1 then FieldText(f, row[i])
    else FieldText(f, row[i]) + f.colSep + Fields(f, row, i + 1)
  }

  function Body(f: Format, row: Row): string {
    Fields(f, row, 0) + f.LastSep() + f.rowSep
  }

  /** The format for delimiters as they are configured. */
  function Configure(rowSep: string, colSep: string, enc1: string, enc2: string, endTerm: bool, digits: nat): Format {
    Format(Delimiters.Conv(Delimiters.Data, rowSep), Delimiters.Conv(Delimiters.Data, colSep),
           Delimiters.Conv(Delimiters.Data, enc1), Delimiters.Conv(Delimiters.Data, enc2),
           enc2 != "", endTerm, digits)
  }

  /** The texts with the separator between every two. */
  function Join(cells: seq<string>, sep: string): string {
    if cells == [] then "" else if |cells| == 1 then cells[0] else cells[0] + sep + Join(cells[1..], sep)
  }

  /** Cell i of a row: nothing for null; enclosed or not; with the second enclosure behind it if there is one. */
  predicate CellIs(f: Format, x: Field, cell: string) {
    var data := if x.isNull then "" else x.data;
    cell == if !x.enclosed then data else f.enc1 + data + if f.explicit then f.enc2 else f.enc1
  }

  /** A body is its cells with separators between them, one more at the end if so configured, and the row separator. */
  lemma BodyLayout(f: Format, row: Row, cells: seq<string>)
    requires |cells| == |row| && forall i :: 0 <= i < |row| ==> CellIs(f, row[i], cells[i])
    ensures Body(f, row) == Join(cells, f.colSep) + (if f.endTerm then f.colSep else "") + f.rowSep
  {
    assert cells[0..] == cells;
    FieldsJoined(f, row, cells, 0);
  }

  lemma {:induction false} FieldsJoined(f: Format, row: Row, cells: seq<string>, i: nat)
    requires |cells| == |row| && i <= |row| && forall i :: 0 <= i < |row| ==> CellIs(f, row[i], cells[i])
    ensures Fields(f, row, i) == Join(cells[i..], f.colSep)
    decreases |row| - i
  {
    if i < |row| {
      FieldsJoined(f, row, cells, i + 1);
      assert cells[i..][1..] == cells[i + 1..];
      assert CellIs(f, row[i], cells[i]) && FieldText(f, row[i]) == cells[i];
    }
  }

  /** With the delimiters that stand as defaults. */
  lemma DefaultFormat(digits: nat)
    ensures Configure("\\n", ",", "\"", "\"", false, digits) == Format("\n", ",", "\"", "\"", true, false, digits)
  {
    Delimiters.LineFeed();
    Delimiters.OneCharacter(",");
    Delimiters.OneCharacter("\"");
  }

  /** A second enclosure that stands for nothing leaves enclosed values open. */
  lemma NeverClosed(x: Field)
    requires x.enclosed && !x.isNull
    ensures FieldText(Configure("\\n", ",", "\"", "\\0", false, 0), x) == "\"" + x.data
  {
    Delimiters.NulStandsForNothing();
    Delimiters.OneCharacter("\"");
    assert "\"" + x.data + "" == "\"" + x.data;
  }

  /** setw and setfill('0') */
  function Padded(s: string, width: nat): string {
    if |s| >= width then s else "0" + Padded(s, width - 1)
  }

  function LengthString(f: Format, body: string): string {
    if f.digits == 0 then "" else Padded(Decimals.Decimal(|body|), f.digits)
  }

  function Record(f: Format, row: Row): string {
    LengthString(f, Body(f, row)) + Body(f, row)
  }

  function File(f: Format, rows: seq<Row>): string {
    if rows == [] then "" else File(f, rows[..|rows| - 1]) + Record(f, rows[|rows| - 1])
  }

  method EnCls(f: Format, dest: string, x: Field, sep: bool) returns (dest': string)
    ensures dest' == dest + (f.enc1 + x.Text() + f.Close() + if sep then f.colSep else "")
  {
    dest' := dest + f.enc1;
    if !x.isNull {
      dest' := dest' + x.data;
    }
    dest' := dest' + if f.explicit then f.enc2 else f.enc1;
    if sep {
      dest' := dest' + f.colSep;
    }
  }

  method UnCls(f: Format, dest: string, x: Field, sep: bool) returns (dest': string)
    ensures dest' == dest + (x.Text() + if sep then f.colSep else "")
  {
    dest' := dest;
    if !x.isNull {
      dest' := dest' + x.data;
    }
    if sep {
      dest' := dest' + f.colSep;
    }
  }

  method AddDelims(f: Format, dest: string, x: Field, sep: bool) returns (dest': string)
    ensures dest' == dest + (FieldText(f, x) + if sep then f.colSep else "")
  {
    if x.enclosed {
      dest' := EnCls(f, dest, x, sep);
    } else {
      dest' := UnCls(f, dest, x, sep);
    }
  }

  class DataStream {
    var text: string

    constructor ()
      ensures text == ""
    {
      text := "";
    }

    method Write(s: string)
      modifies this
      ensures text == old(text) + s
    {
      text := text + s;
    }
  }

  /** The row writer. */
  method PutRows(f: Format, rows: seq<Row>, out: DataStream)
    modifies out
    ensures out.text == old(out.text) + File(f, rows)
  {
    var i := 0;
    assert out.text == old(out.text) + "";
    while i < |rows|
      invariant 0 <= i <= |rows| && out.text == old(out.text) + File(f, rows[..i])
    {
      var body := MakeBody(f, rows[i]);
      PutRow(f, rows, i, old(out.text));
      out.Write(LengthString(f, body));
      out.Write(body);
      i := i + 1;
    }
    assert rows[..|rows|] == rows;
  }

  lemma PutRow(f: Format, rows: seq<Row>, i: nat, before: string)
    requires i < |rows|
    ensures before + File(f, rows[..i]) + LengthString(f, Body(f, rows[i])) + Body(f, rows[i])
         == before + File(f, rows[..i + 1])
  {
    var some := rows[..i + 1];
    assert some[..i] == rows[..i];
    var done, size, body := File(f, rows[..i]), LengthString(f, Body(f, rows[i])), Body(f, rows[i]);
    assert before + done + size + body == before + (done + (size + body));
  }

  method MakeBody(f: Format, row: Row) returns (body: string)
    ensures body == Body(f, row)
  {
    body := "";
    var i := 0;
    while i < |row|
      invariant 0 <= i <= |row| && body + Fields(f, row, i) == Fields(f, row, 0)
    {
      AddField(f, row, i, body);
      body := AddDelims(f, body, row[i], i < |row| - 1);
      i := i + 1;
    }
    assert body + "" == body;
    body := body + f.LastSep();
    body := body + f.rowSep;
  }

  lemma AddField(f: Format, row: Row, i: nat, body: string)
    requires i < |row|
    ensures body + (FieldText(f, row[i]) + if i < |row| - 1 then f.colSep else "") + Fields(f, row, i + 1) ==
            body + Fields(f, row, i)
  {
  }

  // The reader.

  /** The first position of mark in t from i on. */
  function FindFrom(t: string, mark: string, i: nat): (r: Option<nat>)
    requires i <= |t|
    ensures r.Some? ==> i <= r.value <= |t| && mark <= t[r.value..] && forall j :: i <= j < r.value ==> !(mark <= t[j..])
    ensures r.None? ==> forall j :: i <= j <= |t| ==> !(mark <= t[j..])
    decreases |t| - i
  {
    if mark <= t[i..] then Some(i) else if i == |t| then None else FindFrom(t, mark, i + 1)
  }

  function Find(t: string, mark: string): Option<nat> {
    FindFrom(t, mark, 0)
  }

  /** The text up to the first mark, and what follows the mark. */
  function Until(t: string, mark: string): Option<(string, string)> {
    match Find(t, mark) case None => None case Some(i) => Some((t[..i], t[i + |mark|..]))
  }

  function Strip(t: string, prefix: string): Option<string> {
    if prefix <= t then Some(t[|prefix|..]) else None
  }

  /** One field and the rest; `tail` is what must follow if the field is the last. */
  function ReadField(f: Format, enclosed: bool, last: bool, tail: string, t: string): Option<(string, string)> {
    if enclosed then
      match Strip(t, f.enc1)
      case None => None
      case Some(u) =>
        match Until(u, f.Close())
        case None => None
        case Some((data, rest)) =>
          if last then Some((data, rest)) else
            match Strip(rest, f.colSep) case None => None case Some(v) => Some((data, v))
    else if last then
      if |tail| <= |t| then Some((t[..|t| - |tail|], t[|t| - |tail|..])) else None
    else Until(t, f.colSep)
  }

  /** The fields of a body whose columns, from number i on, are enclosed or not as `kinds` says. */
  function ReadFields(f: Format, kinds: seq<bool>, i: nat, tail: string, t: string): Option<seq<string>>
    requires i <= |kinds|
    decreases |kinds| - i
  {
    if i == |kinds| then
      if t == tail then Some([]) else None
    else
      match ReadField(f, kinds[i], i == |kinds| - 1, tail, t)
      case None => None
      case Some((data, rest)) =>
        match ReadFields(f, kinds, i + 1, tail, rest) case None => None case Some(more) => Some([data] + more)
  }

  /** All rows of a file with length prefixes. */
  function ReadFile(f: Format, kinds: seq<bool>, t: string): Option<seq<seq<string>>>
    requires f.digits > 0
    decreases |t|
  {
    if t == "" then Some([])
    else if |t| < f.digits then None
    else
      var size, rest := Decimals.DecimalValue(t[..f.digits]), t[f.digits..];
      if !(0 <= size <= |rest|) then None
      else
        match ReadFields(f, kinds, 0, f.LastSep() + f.rowSep, rest[..size])
        case None => None
        case Some(row) =>
          match ReadFile(f, kinds, rest[size..]) case None => None case Some(more) => Some([row] + more)
  }

  function Texts(row: Row): seq<string> {
    seq(|row|, i requires 0 <= i < |row| => row[i].Text())
  }

  function Kinds(row: Row): seq<bool> {
    seq(|row|, i requires 0 <= i < |row| => row[i].enclosed)
  }

  // When the reader recovers what was written.

  /** The mark does not begin inside the data, even where it runs over the end. */
  predicate Ends(data: string, mark: string) {
    Find(data + mark, mark) == Some(|data|)
  }

  predicate Readable(f: Format, x: Field, last: bool) {
    if x.enclosed then Ends(x.Text(), f.Close()) else last || Ends(x.Text(), f.colSep)
  }

  predicate ReadableRow(f: Format, row: Row) {
    (forall i :: 0 <= i < |row| ==> Readable(f, row[i], i == |row| - 1)) && |Body(f, row)| < Decimals.Pow10(f.digits)
  }

  lemma FindAt(t: string, mark: string, i: nat, k: nat)
    requires i <= k <= |t| && mark <= t[k..] && forall j :: i <= j < k ==> !(mark <= t[j..])
    ensures FindFrom(t, mark, i) == Some(k)
  {
  }

  lemma PrefixSame(u: string, rest: string, mark: string, j: nat)
    requires j + |mark| <= |u|
    ensures mark <= (u + rest)[j..] <==> mark <= u[j..]
  {
    assert (u + rest)[j..] == u[j..] + rest;
  }

  /** If the mark ends the data it still does with anything behind it. */
  lemma UntilMark(t: string, data: string, mark: string, rest: string)
    requires Ends(data, mark) && t == data + mark + rest
    ensures Until(t, mark) == Some((data, rest))
  {
    var u := data + mark;
    forall j | 0 <= j < |data| ensures !(mark <= t[j..]) {
      PrefixSame(u, rest, mark, j);
    }
    PrefixSame(u, rest, mark, |data|);
    FindAt(t, mark, 0, |data|);
    assert t[..|data|] == data && t[|data| + |mark|..] == rest;
  }

  lemma StripPrefix(t: string, prefix: string, rest: string)
    requires t == prefix + rest
    ensures Strip(t, prefix) == Some(rest)
  {
  }

  /** An enclosed value in front of anything is read back if and only if the closing mark does not begin
      inside it. */
  lemma EnclosedIff(f: Format, data: string, rest: string)
    ensures ReadField(f, true, true, "", f.enc1 + (data + f.Close() + rest)) == Some((data, rest)) <==> Ends(data, f.Close())
  {
    var u := data + f.Close() + rest;
    StripPrefix(f.enc1 + u, f.enc1, u);
    if Ends(data, f.Close()) {
      UntilMark(u, data, f.Close(), rest);
    } else {
      EndsOtherwise(data, f.Close(), rest);
    }
  }

  lemma EndsOtherwise(data: string, mark: string, rest: string)
    requires !Ends(data, mark)
    ensures Until(data + mark + rest, mark) != Some((data, rest))
  {
    var u := data + mark;
    assert mark <= u[|data|..];
    var k := Find(u, mark);
    assert k.Some? && k.value < |data|;
    PrefixSame(u, rest, mark, k.value);
  }

  lemma EnclosedRead(f: Format, data: string, last: bool, tail: string, t: string, behind: string, rest: string)
    requires Ends(data, f.Close()) && t == f.enc1 + (data + f.Close() + behind)
    requires if last then behind == rest else behind == f.colSep + rest
    ensures ReadField(f, true, last, tail, t) == Some((data, rest))
  {
    var u := data + f.Close() + behind;
    StripPrefix(t, f.enc1, u);
    UntilMark(u, data, f.Close(), behind);
    if !last {
      StripPrefix(behind, f.colSep, rest);
    }
  }

  lemma BareRead(f: Format, data: string, last: bool, tail: string, t: string, rest: string)
    requires if last then t == data + tail && rest == tail else Ends(data, f.colSep) && t == data + f.colSep + rest
    ensures ReadField(f, false, last, tail, t) == Some((data, rest))
  {
    if last {
      assert t[..|t| - |tail|] == data && t[|t| - |tail|..] == rest;
    } else {
      UntilMark(t, data, f.colSep, rest);
    }
  }

  lemma FieldRead(f: Format, x: Field, last: bool, tail: string, t: string, behind: string, rest: string)
    requires Readable(f, x, last) && (last ==> rest == tail)
    requires behind == (if last then rest else f.colSep + rest) && t == FieldText(f, x) + behind
    ensures ReadField(f, x.enclosed, last, tail, t) == Some((x.Text(), rest))
  {
    var data := x.Text();
    if x.enclosed {
      AssocFour(f.enc1, data, f.Close(), behind);
      EnclosedRead(f, data, last, tail, t, behind, rest);
    } else {
      Sequences.Assoc(data, f.colSep, rest);
      BareRead(f, data, last, tail, t, rest);
    }
  }

  lemma AssocFour<T>(a: seq<T>, b: seq<T>, c: seq<T>, d: seq<T>)
    ensures a + b + c + d == a + (b + c + d)
  {
  }

  lemma FieldsStep(f: Format, kinds: seq<bool>, i: nat, tail: string, t: string, data: string, rest: string, more: seq<string>)
    requires i < |kinds| && ReadField(f, kinds[i], i == |kinds| - 1, tail, t) == Some((data, rest))
    requires ReadFields(f, kinds, i + 1, tail, rest) == Some(more)
    ensures ReadFields(f, kinds, i, tail, t) == Some([data] + more)
  {
  }

  lemma FieldsSplit(f: Format, row: Row, i: nat, tail: string)
    requires i < |row|
    ensures var rest := Fields(f, row, i + 1) + tail;
            && Fields(f, row, i) + tail == FieldText(f, row[i]) + (if i == |row| - 1 then rest else f.colSep + rest)
            && (i == |row| - 1 ==> rest == tail)
  {
  }

  lemma TextsFrom(row: Row, i: nat)
    requires i < |row|
    ensures Texts(row)[i..] == [row[i].Text()] + Texts(row)[i + 1..]
  {
  }

  lemma FieldsRead(f: Format, row: Row, i: nat, tail: string, t: string)
    requires i <= |row| && forall j :: i <= j < |row| ==> Readable(f, row[j], j == |row| - 1)
    requires t == Fields(f, row, i) + tail
    ensures ReadFields(f, Kinds(row), i, tail, t) == Some(Texts(row)[i..])
    decreases |row| - i
  {
    if i == |row| {
      NoFields(f, row, i, tail, t);
    } else {
      var rest, last := Fields(f, row, i + 1) + tail, i == |row| - 1;
      FieldsSplit(f, row, i, tail);
      FieldRead(f, row[i], last, tail, t, if last then rest else f.colSep + rest, rest);
      FieldsRead(f, row, i + 1, tail, rest);
      FieldsStep(f, Kinds(row), i, tail, t, row[i].Text(), rest, Texts(row)[i + 1..]);
      TextsFrom(row, i);
    }
  }

  lemma NoFields(f: Format, row: Row, i: nat, tail: string, t: string)
    requires i == |row| && t == Fields(f, row, i) + tail
    ensures ReadFields(f, Kinds(row), i, tail, t) == Some(Texts(row)[i..])
  {
    assert t == tail;
    assert Texts(row)[i..] == [];
  }

  lemma TextsAll(row: Row)
    ensures Texts(row)[0..] == Texts(row)
  {
  }

  lemma BodyRead(f: Format, row: Row, tail: string, body: string)
    requires ReadableRow(f, row) && tail == f.LastSep() + f.rowSep && body == Body(f, row)
    ensures ReadFields(f, Kinds(row), 0, tail, body) == Some(Texts(row))
  {
    Sequences.Assoc(Fields(f, row, 0), f.LastSep(), f.rowSep);
    FieldsRead(f, row, 0, tail, body);
    TextsAll(row);
  }

  // The length prefix.

  lemma DecimalSize(n: nat, k: nat)
    requires n < Decimals.Pow10(k) && k > 0
    ensures |Decimals.Decimal(n)| <= k
  {
    if n >= 10 {
      assert n / 10 < Decimals.Pow10(k - 1);
      DecimalSize(n / 10, k - 1);
    }
  }

  lemma LeadingZero(t: string)
    ensures Decimals.DecimalValue("0" + t) == Decimals.DecimalValue(t)
  {
    var u := "0" + t;
    if t == "" {
      assert u[..0] == "";
    } else {
      assert u[..|u| - 1] == "0" + t[..|t| - 1];
      LeadingZero(t[..|t| - 1]);
    }
  }

  lemma PaddedReads(s: string, width: nat)
    requires |s| <= width
    ensures |Padded(s, width)| == width && Decimals.DecimalValue(Padded(s, width)) == Decimals.DecimalValue(s)
  {
    if |s| < width {
      PaddedReads(s, width - 1);
      LeadingZero(Padded(s, width - 1));
    }
  }

  /** The prefix reads as the length of the body; it has the configured width, or more if the length has more digits; with
      the width 0 there is none. */
  lemma LengthReads(f: Format, body: string)
    ensures f.digits == 0 ==> LengthString(f, body) == ""
    ensures f.digits > 0 ==> Decimals.DecimalValue(LengthString(f, body)) == |body| && |LengthString(f, body)| >= f.digits
    ensures f.digits > 0 && |body| < Decimals.Pow10(f.digits) ==> |LengthString(f, body)| == f.digits
  {
    Decimals.DecimalReads(|body|);
    if f.digits > 0 {
      if |body| < Decimals.Pow10(f.digits) {
        DecimalSize(|body|, f.digits);
      }
      if |Decimals.Decimal(|body|)| <= f.digits {
        PaddedReads(Decimals.Decimal(|body|), f.digits);
      }
    }
  }

  // The file.

  predicate ReadableRows(f: Format, kinds: seq<bool>, rows: seq<Row>) {
    f.digits > 0 && forall i :: 0 <= i < |rows| ==> ReadableRow(f, rows[i]) && Kinds(rows[i]) == kinds
  }

  function AllTexts(rows: seq<Row>): seq<seq<string>> {
    seq(|rows|, i requires 0 <= i < |rows| => Texts(rows[i]))
  }

  lemma FileStep(f: Format, kinds: seq<bool>, u: string, size: string, body: string, t: string,
                 row: seq<string>, more: seq<seq<string>>)
    requires f.digits > 0 && u == size + (body + t) && |size| == f.digits && Decimals.DecimalValue(size) == |body|
    requires ReadFields(f, kinds, 0, f.LastSep() + f.rowSep, body) == Some(row) && ReadFile(f, kinds, t) == Some(more)
    ensures ReadFile(f, kinds, u) == Some([row] + more)
  {
    assert u[..f.digits] == size && u[f.digits..] == body + t;
    assert (body + t)[..|body|] == body && (body + t)[|body|..] == t;
  }

  lemma RecordRead(f: Format, kinds: seq<bool>, row: Row, u: string, t: string, more: seq<seq<string>>)
    requires f.digits > 0 && ReadableRow(f, row) && Kinds(row) == kinds && ReadFile(f, kinds, t) == Some(more)
    requires u == Record(f, row) + t
    ensures ReadFile(f, kinds, u) == Some([Texts(row)] + more)
  {
    var body := Body(f, row);
    var size := LengthString(f, body);
    LengthReads(f, body);
    BodyRead(f, row, f.LastSep() + f.rowSep, body);
    Sequences.Assoc(size, body, t);
    FileStep(f, kinds, u, size, body, t, Texts(row), more);
  }

  lemma FileSplit(f: Format, rows: seq<Row>, t: string, more: seq<seq<string>>)
    requires rows != []
    ensures var init, row := rows[..|rows| - 1], rows[|rows| - 1];
            && File(f, rows) + t == File(f, init) + (Record(f, row) + t)
            && AllTexts(rows) + more == AllTexts(init) + ([Texts(row)] + more)
  {
    var init, row := rows[..|rows| - 1], rows[|rows| - 1];
    Sequences.Assoc(File(f, init), Record(f, row), t);
    Sequences.Assoc(AllTexts(init), [Texts(row)], more);
    AllTextsSplit(rows);
  }

  lemma AllTextsSplit(rows: seq<Row>)
    requires rows != []
    ensures AllTexts(rows) == AllTexts(rows[..|rows| - 1]) + [Texts(rows[|rows| - 1])]
  {
  }

  lemma {:induction false} FileRead(f: Format, kinds: seq<bool>, rows: seq<Row>, t: string, more: seq<seq<string>>)
    requires ReadableRows(f, kinds, rows) && ReadFile(f, kinds, t) == Some(more)
    ensures ReadFile(f, kinds, File(f, rows) + t) == Some(AllTexts(rows) + more)
    decreases |rows|
  {
    if rows == [] {
      assert File(f, rows) + t == t;
      assert AllTexts(rows) + more == more;
    } else {
      var init, row := rows[..|rows| - 1], rows[|rows| - 1];
      RecordRead(f, kinds, row, Record(f, row) + t, t, more);
      FileRead(f, kinds, init, Record(f, row) + t, [Texts(row)] + more);
      FileSplit(f, rows, t, more);
    }
  }

  /** The reader recovers every row and every value; a null reads as an empty value. */
  lemma ReaderInverts(f: Format, kinds: seq<bool>, rows: seq<Row>)
    requires ReadableRows(f, kinds, rows)
    ensures ReadFile(f, kinds, File(f, rows)) == Some(AllTexts(rows))
  {
    FileRead(f, kinds, rows, "", []);
    assert File(f, rows) + "" == File(f, rows);
    assert AllTexts(rows) + [] == AllTexts(rows);
  }
}
