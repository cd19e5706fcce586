/**
 The importer's hand-written CSV reader and a printer for section 2 of RFC 4180.
 `ParseDelimited` is the character loop; `Parse` is the same automaton as a function.
 The printer lets every field choose whether to be quoted and every record choose
 between LF and CRLF, so the round trip covers every way to write a table down.
 */
module Csv {
  import opened Text

  type Row = seq<string>

  // ----- The reader --------------------------------------------------------

  /** The loop's four mutable variables. */
  datatype State = State(rows: seq<Row>, row: Row, field: string, inQuotes: bool)

  const START := State([], [], "", false)

  function Scan(text: string, st: State): State
    decreases |text|
  {
    if text == "" then st
    else if st.inQuotes then
      if text[0] != '"' then Scan(text[1..], st.(field := st.field + [text[0]]))
      else if |text| > 1 && text[1] == '"' then Scan(text[2..], st.(field := st.field + "\""))
      else Scan(text[1..], st.(inQuotes := false))
    else if text[0] == '"' then Scan(text[1..], st.(inQuotes := true))
    else if text[0] == ',' then Scan(text[1..], st.(row := st.row + [st.field], field := ""))
    else if text[0] == '\n' then
      Scan(text[1..], st.(rows := st.rows + [st.row + [st.field]], row := [], field := ""))
    else if text[0] == '\r' then Scan(text[1..], st)
    else Scan(text[1..], st.(field := st.field + [text[0]]))
  }

  /** The unfinished last record, when there is one. */
  function Finish(st: State): seq<Row> {
    if st.field != "" || st.row != [] then st.rows + [st.row + [st.field]] else st.rows
  }

  predicate BlankRow(row: Row) {
    forall i :: 0 <= i < |row| ==> Trim(row[i]) == ""
  }

  function NonBlank(rows: seq<Row>): seq<Row> {
    if rows == [] then []
    else (if BlankRow(rows[0]) then [] else [rows[0]]) + NonBlank(rows[1..])
  }

  function Parse(text: string): seq<Row> {
    NonBlank(Finish(Scan(text, START)))
  }

  method ParseDelimited(text: string) returns (table: seq<Row>)
    ensures table == Parse(text)
  {
    var rows: seq<Row>, row: Row, field, inQuotes := [], [], "", false;
    var i := 0;
    while i < |text|
      invariant 0 <= i <= |text|
      invariant Scan(text, START) == Scan(text[i..], State(rows, row, field, inQuotes))
    {
      var c := text[i];
      assert text[i..][1..] == text[i + 1..];
      if inQuotes {
        if c == '"' {
          if i + 1 < |text| && text[i + 1] == '"' {
            assert text[i..][2..] == text[i + 2..];
            field := field + "\"";
            i := i + 1;
          } else {
            inQuotes := false;
          }
        } else {
          field := field + [c];
        }
      } else if c == '"' {
        inQuotes := true;
      } else if c == ',' {
        row, field := row + [field], "";
      } else if c == '\n' {
        rows, row, field := rows + [row + [field]], [], "";
      } else if c != '\r' {
        field := field + [c];
      }
      i := i + 1;
    }
    if field != "" || row != [] {
      row := row + [field];
      rows := rows + [row];
    }
    table := KeepNonBlank(rows);
  }

  method KeepNonBlank(rows: seq<Row>) returns (kept: seq<Row>)
    ensures kept == NonBlank(rows)
  {
    kept := [];
    for k := 0 to |rows|
      invariant kept == NonBlank(rows[..k])
    {
      NonBlankSnoc(rows[..k], rows[k]);
      assert rows[..k + 1] == rows[..k] + [rows[k]];
      if !BlankRow(rows[k]) {
        kept := kept + [rows[k]];
      }
    }
    assert rows[..|rows|] == rows;
  }

  // ----- The printer (RFC 4180, section 2) -----------------------------------

  /** A field value and the writer's choice to quote it. */
  datatype Cell = Cell(value: string, quoted: bool)

  /** One record and its line break: CRLF or a bare LF. */
  datatype Record = Record(cells: seq<Cell>, crlf: bool)

  /** The field holds a comma, a quote or a line break. */
  predicate NeedsQuotes(s: string) {
    exists i :: 0 <= i < |s| && s[i] in "\",\r\n"
  }

  ghost predicate Legal(doc: seq<Record>) {
    forall r, i :: 0 <= r < |doc| && 0 <= i < |doc[r].cells| && NeedsQuotes(doc[r].cells[i].value)
                   ==> doc[r].cells[i].quoted
  }

  function DoubleQuotes(s: string): string {
    if s == "" then "" else (if s[0] == '"' then "\"\"" else [s[0]]) + DoubleQuotes(s[1..])
  }

  function PrintCell(c: Cell): string {
    if c.quoted then "\"" + DoubleQuotes(c.value) + "\"" else c.value
  }

  function PrintCells(cells: seq<Cell>): string {
    if cells == [] then ""
    else if |cells| == 1 then PrintCell(cells[0])
    else PrintCell(cells[0]) + "," + PrintCells(cells[1..])
  }

  function LineBreak(r: Record): string {
    if r.crlf then "\r\n" else "\n"
  }

  /** Every record ends in its line break, except that the last one may go without. */
  function Print(doc: seq<Record>, lastBreak: bool): string {
    if doc == [] then ""
    else PrintCells(doc[0].cells)
         + (if |doc| > 1 || lastBreak then LineBreak(doc[0]) else "")
         + Print(doc[1..], lastBreak)
  }

  function Values(cells: seq<Cell>): Row {
    seq(|cells|, i requires 0 <= i < |cells| => cells[i].value)
  }

  function Table(doc: seq<Record>): seq<Row> {
    seq(|doc|, i requires 0 <= i < |doc| => Values(doc[i].cells))
  }

  // ----- Round trip ----------------------------------------------------------

  lemma {:induction false} NonBlankAppend(a: seq<Row>, b: seq<Row>)
    ensures NonBlank(a + b) == NonBlank(a) + NonBlank(b)
  {
    hide BlankRow;
    if a == [] {
      assert a + b == b;
    } else {
      assert (a + b)[1..] == a[1..] + b;
      NonBlankAppend(a[1..], b);
    }
  }

  lemma {:induction false} NonBlankSnoc(a: seq<Row>, row: Row)
    ensures NonBlank(a + [row]) == NonBlank(a) + if BlankRow(row) then [] else [row]
  {
    hide BlankRow;
    NonBlankAppend(a, [row]);
    assert [row][1..] == [];
  }

  lemma {:induction false} NonBlankFixed(a: seq<Row>)
    requires forall i :: 0 <= i < |a| ==> !BlankRow(a[i])
    ensures NonBlank(a) == a
  {
    hide BlankRow;
    if a != [] {
      NonBlankFixed(a[1..]);
    }
  }

  lemma {:induction false} NonBlankRowsAreNonBlank(a: seq<Row>)
    ensures forall i :: 0 <= i < |NonBlank(a)| ==> !BlankRow(NonBlank(a)[i])
  {
    if a != [] {
      NonBlankRowsAreNonBlank(a[1..]);
    }
  }

  /** Inside quotes, a field with its quotes doubled is read back verbatim. */
  lemma {:induction false} ScanQuoted(s: string, rest: string, st: State)
    requires st.inQuotes
    requires rest == "" || rest[0] != '"'
    ensures Scan(DoubleQuotes(s) + "\"" + rest, st)
         == Scan(rest, st.(field := st.field + s, inQuotes := false))
    decreases |s|
  {
    var text := DoubleQuotes(s) + "\"" + rest;
    if s == "" {
      assert text[1..] == rest;
      assert st.field + s == st.field;
    } else {
      var tail := DoubleQuotes(s[1..]) + "\"" + rest;
      assert st.field + s == (st.field + [s[0]]) + s[1..];
      ScanQuoted(s[1..], rest, st.(field := st.field + [s[0]]));
      if s[0] == '"' {
        assert text[2..] == tail;
      } else {
        assert text[1..] == tail;
      }
    }
  }

  /** Outside quotes, a field without special characters is read back verbatim. */
  lemma {:induction false} ScanPlain(s: string, rest: string, st: State)
    requires !st.inQuotes && !NeedsQuotes(s)
    ensures Scan(s + rest, st) == Scan(rest, st.(field := st.field + s))
    decreases |s|
  {
    if s == "" {
      assert s + rest == rest;
      assert st.field + s == st.field;
    } else {
      assert !(s[0] in "\",\r\n");
      assert (s + rest)[1..] == s[1..] + rest;
      assert st.field + s == (st.field + [s[0]]) + s[1..];
      assert !NeedsQuotes(s[1..]) by {
        assert forall i :: 0 <= i < |s| - 1 ==> s[1..][i] == s[i + 1];
      }
      ScanPlain(s[1..], rest, st.(field := st.field + [s[0]]));
    }
  }

  lemma {:induction false} ScanCell(c: Cell, rest: string, st: State)
    requires !st.inQuotes && st.field == ""
    requires NeedsQuotes(c.value) ==> c.quoted
    requires rest == "" || rest[0] != '"'
    ensures Scan(PrintCell(c) + rest, st) == Scan(rest, st.(field := c.value))
  {
    assert "" + c.value == c.value;
    if c.quoted {
      var text := PrintCell(c) + rest;
      assert text[1..] == DoubleQuotes(c.value) + "\"" + rest;
      ScanQuoted(c.value, rest, st.(inQuotes := true));
    } else {
      ScanPlain(c.value, rest, st);
    }
  }

  /** Reading a whole record leaves its last field pending. */
  lemma {:induction false} ScanCells(cells: seq<Cell>, rest: string, st: State)
    requires cells != [] && !st.inQuotes && st.field == ""
    requires forall i :: 0 <= i < |cells| && NeedsQuotes(cells[i].value) ==> cells[i].quoted
    requires rest == "" || rest[0] != '"'
    ensures Scan(PrintCells(cells) + rest, st)
         == Scan(rest, st.(row := st.row + Values(cells[..|cells| - 1]), field := cells[|cells| - 1].value))
    decreases |cells|
  {
    hide Scan, NeedsQuotes, PrintCell;
    if |cells| == 1 {
      assert st.row + Values(cells[..0]) == st.row;
      ScanCell(cells[0], rest, st);
    } else {
      var more := cells[1..];
      var next := st.(row := st.row + [cells[0].value], field := "");
      ScanFirstCell(cells, rest, st);
      ScanCells(more, rest, next);
      assert more[|more| - 1] == cells[|cells| - 1];
      ValuesSplit(cells, st.row);
    }
  }

  lemma {:induction false} ScanFirstCell(cells: seq<Cell>, rest: string, st: State)
    requires |cells| > 1 && !st.inQuotes && st.field == ""
    requires NeedsQuotes(cells[0].value) ==> cells[0].quoted
    ensures Scan(PrintCells(cells) + rest, st)
         == Scan(PrintCells(cells[1..]) + rest, st.(row := st.row + [cells[0].value], field := ""))
  {
    var tail := PrintCells(cells[1..]) + rest;
    assert PrintCells(cells) + rest == PrintCell(cells[0]) + ("," + tail);
    ScanCell(cells[0], "," + tail, st);
    assert ("," + tail)[1..] == tail;
  }

  lemma {:induction false} ValuesSplit(cells: seq<Cell>, row: Row)
    requires |cells| > 1
    ensures row + [cells[0].value] + Values(cells[1..][..|cells| - 2]) == row + Values(cells[..|cells| - 1])
  {
    assert [cells[0].value] + Values(cells[1..][..|cells| - 2]) == Values(cells[..|cells| - 1]);
  }

  /** A record as the reader sees it: a record without fields is one empty field. */
  function Seen(cells: seq<Cell>): Row {
    if cells == [] then [""] else Values(cells)
  }

  lemma {:induction false} ScanRecord(r: Record, rest: string, rows: seq<Row>)
    requires Legal([r])
    ensures Scan(PrintCells(r.cells) + LineBreak(r) + rest, State(rows, [], "", false))
         == Scan(rest, State(rows + [Seen(r.cells)], [], "", false))
  {
    var st := State(rows, [], "", false);
    var tail := LineBreak(r) + rest;
    assert PrintCells(r.cells) + LineBreak(r) + rest == PrintCells(r.cells) + tail;
    assert forall i :: 0 <= i < |r.cells| ==> [r][0].cells[i] == r.cells[i];
    hide Scan, NeedsQuotes, Values;
    var before := st;
    if r.cells == [] {
      assert PrintCells(r.cells) + tail == tail;
      assert [] + [""] == Seen(r.cells);
    } else {
      hide PrintCells;
      var n := |r.cells| - 1;
      ScanCells(r.cells, tail, st);
      before := State(rows, [] + Values(r.cells[..n]), r.cells[n].value, false);
      ValuesLast(r.cells);
    }
    ScanBreak(r, rest, before);
  }

  lemma {:induction false} ScanBreak(r: Record, rest: string, st: State)
    requires !st.inQuotes
    ensures Scan(LineBreak(r) + rest, st) == Scan(rest, State(st.rows + [st.row + [st.field]], [], "", false))
  {
    hide Scan;
    ScanNewline(rest, st);
    if r.crlf {
      assert LineBreak(r) + rest == "\r" + ("\n" + rest);
      ScanReturn("\n" + rest, st);
    }
  }

  lemma {:induction false} ScanNewline(rest: string, st: State)
    requires !st.inQuotes
    ensures Scan("\n" + rest, st) == Scan(rest, State(st.rows + [st.row + [st.field]], [], "", false))
  {
    assert ("\n" + rest)[1..] == rest;
  }

  lemma {:induction false} ScanReturn(rest: string, st: State)
    requires !st.inQuotes
    ensures Scan("\r" + rest, st) == Scan(rest, st)
  {
    assert ("\r" + rest)[1..] == rest;
  }

  lemma {:induction false} SeenBlank(cells: seq<Cell>)
    ensures NonBlank([Seen(cells)]) == NonBlank([Values(cells)])
  {
    TrimShape("");
    if cells == [] {
      assert BlankRow(Seen(cells)) && BlankRow(Values(cells));
    }
  }

  lemma {:induction false} LegalHead(doc: seq<Record>)
    requires doc != [] && Legal(doc)
    ensures Legal([doc[0]]) && Legal(doc[1..])
  {
    assert forall k :: 0 <= k < |doc| - 1 ==> doc[1..][k] == doc[k + 1];
  }

  lemma {:induction false} TableCons(doc: seq<Record>)
    requires doc != []
    ensures Table(doc) == [Values(doc[0].cells)] + Table(doc[1..])
  {
  }

  lemma {:induction false} TableHead(doc: seq<Record>, rows: seq<Row>)
    requires doc != []
    ensures NonBlank(rows) + NonBlank(Table(doc))
         == NonBlank(rows + [Seen(doc[0].cells)]) + NonBlank(Table(doc[1..]))
  {
    var one, seen, more := [Values(doc[0].cells)], [Seen(doc[0].cells)], Table(doc[1..]);
    TableCons(doc);
    calc {
      NonBlank(rows) + NonBlank(one + more);
      { NonBlankAppend(one, more); }
      NonBlank(rows) + (NonBlank(one) + NonBlank(more));
      (NonBlank(rows) + NonBlank(one)) + NonBlank(more);
      { SeenBlank(doc[0].cells); NonBlankAppend(rows, seen); }
      NonBlank(rows + seen) + NonBlank(more);
    }
  }

  lemma {:induction false} ScanDocument(doc: seq<Record>, lastBreak: bool, rows: seq<Row>)
    requires Legal(doc)
    ensures NonBlank(Finish(Scan(Print(doc, lastBreak), State(rows, [], "", false))))
         == NonBlank(rows) + NonBlank(Table(doc))
    decreases |doc|
  {
    if doc != [] {
      var r := doc[0];
      LegalHead(doc);
      TableHead(doc, rows);
      if |doc| > 1 || lastBreak {
        ScanRecord(r, Print(doc[1..], lastBreak), rows);
        ScanDocument(doc[1..], lastBreak, rows + [Seen(r.cells)]);
      } else {
        ScanLastRecord(r, rows);
        assert doc[1..] == [];
        assert Print(doc, lastBreak) == PrintCells(r.cells);
      }
    }
  }

  lemma {:induction false} EmptyRowDropped()
    ensures NonBlank([[""]]) == []
  {
    TrimShape("");
    assert BlankRow([""]);
  }

  lemma {:induction false} FinishCells(cells: seq<Cell>, rows: seq<Row>)
    requires cells != [] && forall i :: 0 <= i < |cells| && NeedsQuotes(cells[i].value) ==> cells[i].quoted
    ensures var st := Scan(PrintCells(cells), State(rows, [], "", false));
            st.rows == rows && st.row + [st.field] == Values(cells)
  {
    hide NeedsQuotes, Scan, PrintCells, Values;
    var n := |cells| - 1;
    assert PrintCells(cells) + "" == PrintCells(cells);
    ScanCells(cells, "", State(rows, [], "", false));
    ScanNothing(State(rows, [] + Values(cells[..n]), cells[n].value, false));
    ValuesLast(cells);
  }

  lemma {:induction false} ValuesLast(cells: seq<Cell>)
    requires cells != []
    ensures [] + Values(cells[..|cells| - 1]) + [cells[|cells| - 1].value] == Values(cells)
  {
  }

  lemma {:induction false} ScanNothing(st: State)
    ensures Scan("", st) == st
  {
  }

  /** The last record without a line break; an empty one leaves no record at all. */
  lemma {:induction false} ScanLastRecord(r: Record, rows: seq<Row>)
    requires Legal([r])
    ensures NonBlank(Finish(Scan(PrintCells(r.cells), State(rows, [], "", false))))
         == NonBlank(rows + [Seen(r.cells)])
  {
    assert forall i :: 0 <= i < |r.cells| ==> [r][0].cells[i] == r.cells[i];
    NonBlankAppend(rows, [Seen(r.cells)]);
    EmptyRowDropped();
    hide NeedsQuotes, NonBlank, Legal;
    if r.cells == [] {
      ScanNothing(State(rows, [], "", false));
    } else {
      hide Scan, PrintCells;
      FinishCells(r.cells, rows);
    }
  }

  /** Reading back a printed table gives its rows, cell for cell, minus the blank ones. */
  lemma {:induction false} RoundTrip(doc: seq<Record>, lastBreak: bool)
    requires Legal(doc)
    ensures Parse(Print(doc, lastBreak)) == NonBlank(Table(doc))
  {
    ScanDocument(doc, lastBreak, []);
    assert [] + NonBlank(Table(doc)) == NonBlank(Table(doc));
  }

  /** Quotes only where section 2 of RFC 4180 demands them. */
  function Minimal(table: seq<Row>, crlf: bool): seq<Record> {
    seq(|table|, r requires 0 <= r < |table| =>
      Record(seq(|table[r]|, i requires 0 <= i < |table[r]| =>
        Cell(table[r][i], NeedsQuotes(table[r][i]))), crlf))
  }

  /** Whatever text was read, writing the table out and reading it again changes nothing. */
  lemma {:induction false} ParseIsNormal(text: string, crlf: bool, lastBreak: bool)
    ensures Parse(Print(Minimal(Parse(text), crlf), lastBreak)) == Parse(text)
  {
    var table := Parse(text);
    var doc := Minimal(table, crlf);
    RoundTrip(doc, lastBreak);
    assert Table(doc) == table by {
      assert forall r :: 0 <= r < |table| ==> Table(doc)[r] == table[r];
    }
    NonBlankRowsAreNonBlank(Finish(Scan(text, START)));
    NonBlankFixed(table);
  }

  // ----- Exactly when a bare field survives ----------------------------------

  function RowSize(row: Row): nat {
    if row == [] then 0 else RowSize(row[..|row| - 1]) + |row[|row| - 1]|
  }

  function TableSize(rows: seq<Row>): nat {
    if rows == [] then 0 else TableSize(rows[..|rows| - 1]) + RowSize(rows[|rows| - 1])
  }

  function Size(st: State): nat {
    TableSize(st.rows) + RowSize(st.row) + |st.field|
  }

  lemma {:induction false} RowSizeSnoc(row: Row, s: string)
    ensures RowSize(row + [s]) == RowSize(row) + |s|
  {
    assert (row + [s])[..|row|] == row;
  }

  lemma {:induction false} TableSizeSnoc(rows: seq<Row>, row: Row)
    ensures TableSize(rows + [row]) == TableSize(rows) + RowSize(row)
  {
    assert (rows + [row])[..|rows|] == rows;
  }

  /** Every character read yields at most one stored character, a special one outside quotes none. */
  lemma {:induction false} ScanSize(text: string, st: State)
    ensures Size(Scan(text, st)) <= Size(st) + |text|
    ensures !st.inQuotes && NeedsQuotes(text) ==> Size(Scan(text, st)) < Size(st) + |text|
    decreases |text|
  {
    if text != "" {
      RowSizeSnoc(st.row, st.field);
      TableSizeSnoc(st.rows, st.row + [st.field]);
      assert RowSize([]) == 0;
      ScanSizeStep(text, st);
    }
  }

  lemma {:induction false} ScanSizeStep(text: string, st: State)
    requires text != ""
    requires RowSize(st.row + [st.field]) == RowSize(st.row) + |st.field|
    requires TableSize(st.rows + [st.row + [st.field]]) == TableSize(st.rows) + RowSize(st.row + [st.field])
    ensures Size(Scan(text, st)) <= Size(st) + |text|
    ensures !st.inQuotes && NeedsQuotes(text) ==> Size(Scan(text, st)) < Size(st) + |text|
    decreases |text|, 0
  {
    var t := text[1..];
    assert NeedsQuotes(text) ==> text[0] in "\",\r\n" || NeedsQuotes(t) by {
      assert forall i :: 0 < i < |text| ==> text[i] == t[i - 1];
    }
    if st.inQuotes {
      if text[0] != '"' {
        ScanSize(t, st.(field := st.field + [text[0]]));
      } else if |text| > 1 && text[1] == '"' {
        ScanSize(text[2..], st.(field := st.field + "\""));
      } else {
        ScanSize(t, st.(inQuotes := false));
      }
    } else if text[0] == '"' {
      ScanSize(t, st.(inQuotes := true));
    } else if text[0] == ',' {
      ScanSize(t, st.(row := st.row + [st.field], field := ""));
    } else if text[0] == '\n' {
      ScanSize(t, st.(rows := st.rows + [st.row + [st.field]], row := [], field := ""));
    } else if text[0] == '\r' {
      ScanSize(t, st);
    } else {
      ScanSize(t, st.(field := st.field + [text[0]]));
    }
  }

  lemma {:induction false} NonBlankSize(rows: seq<Row>)
    ensures TableSize(NonBlank(rows)) <= TableSize(rows)
  {
    hide BlankRow;
    if rows != [] {
      var n := |rows| - 1;
      NonBlankSize(rows[..n]);
      assert rows == rows[..n] + [rows[n]];
      NonBlankAppend(rows[..n], [rows[n]]);
      assert NonBlank([rows[n]]) == if BlankRow(rows[n]) then [] else [rows[n]];
      if BlankRow(rows[n]) {
        assert NonBlank(rows) == NonBlank(rows[..n]);
      } else {
        TableSizeSnoc(NonBlank(rows[..n]), rows[n]);
      }
    }
  }

  lemma {:induction false} PlainFieldRead(s: string)
    requires !NeedsQuotes(s)
    ensures Parse(s) == NonBlank(if s == "" then [] else [[s]])
  {
    assert s + "" == s && "" + s == s;
    ScanPlain(s, "", START);
    assert Scan("", START.(field := s)) == START.(field := s);
    hide Scan, NonBlank, NeedsQuotes;
    assert [] + [s] == [s] && [] + [[s]] == [[s]];
  }

  lemma {:induction false} SpecialFieldLost(s: string)
    requires NeedsQuotes(s)
    ensures TableSize(Parse(s)) < |s|
  {
    var raw := Scan(s, START);
    ScanSize(s, START);
    hide Scan, NonBlank, NeedsQuotes;
    RowSizeSnoc(raw.row, raw.field);
    TableSizeSnoc(raw.rows, raw.row + [raw.field]);
    NonBlankSize(Finish(raw));
  }

  lemma {:induction false} OneFieldSize(s: string)
    ensures TableSize([[s]]) == |s|
  {
    TableSizeSnoc([], [s]);
    RowSizeSnoc([], s);
    assert [] + [s] == [s] && [] + [[s]] == [[s]];
  }

  /** A bare field is read back as itself exactly when it is not blank and needs no quotes. */
  lemma {:induction false} BareFieldExact(s: string)
    ensures Parse(s) == [[s]] <==> !NeedsQuotes(s) && !AllSpace(s)
  {
    TrimShape(s);
    if NeedsQuotes(s) {
      SpecialFieldLost(s);
      OneFieldSize(s);
    } else {
      PlainFieldRead(s);
      hide Parse, Trim, NeedsQuotes, AllSpace;
      assert NonBlank([[s]]) == if BlankRow([s]) then [] else [[s]];
      assert BlankRow([s]) <==> Trim([s][0]) == "";
    }
  }
}
