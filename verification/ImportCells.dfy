/** How the importer reads headers, cells and prices of any file, not only of its own exports. */
module ImportCells {
  import opened Text
  import opened Csv
  import opened ImportRows

  // ----- Columns ----------------------------------------------------------------------------

  /** The column is the first one with the first of the names that the header has, or -1 when it has none. */
  predicate FirstOf(h: Row, names: seq<string>, i: int) {
    if i == -1 then forall k :: 0 <= k < |names| ==> names[k] !in h
    else
      0 <= i < |h| && h[i] !in h[..i]
      && exists k :: 0 <= k < |names| && h[i] == names[k] && forall m :: 0 <= m < k ==> names[m] !in h
  }

  lemma {:induction false} IdxIsFirst(h: Row, names: seq<string>)
    ensures FirstOf(h, names, Idx(h, names))
  {
    hide IndexOf;
    if names != [] {
      if IndexOf(h, names[0]) != -1 {
        assert h[Idx(h, names)] == names[0];
      } else {
        IdxIsFirst(h, names[1..]);
        var i := Idx(h, names[1..]);
        assert forall m :: 1 <= m < |names| ==> names[m] == names[1..][m - 1];
        if i != -1 {
          var k :| 0 <= k < |names| - 1 && h[i] == names[1..][k] && forall m :: 0 <= m < k ==> names[1..][m] !in h;
          assert h[i] == names[k + 1];
        }
      }
    }
  }

  /** Titles come from "name" before "title" before "product name", prices from the regular price before the others. */
  lemma {:induction false} ColumnsPrefer(header: Row)
    ensures var h, cols := Normalised(header), ColumnsOf(header);
            && FirstOf(h, ["name", "title", "product name"], cols.title)
            && FirstOf(h, ["sku"], cols.sku)
            && FirstOf(h, ["regular price", "price", "sale price"], cols.price)
            && FirstOf(h, ["description", "short description"], cols.description)
            && FirstOf(h, ["brand", "brands"], cols.brand)
  {
    hide Idx, FirstOf;
    var h := Normalised(header);
    IdxIsFirst(h, ["name", "title", "product name"]);
    IdxIsFirst(h, ["sku"]);
    IdxIsFirst(h, ["regular price", "price", "sale price"]);
    IdxIsFirst(h, ["description", "short description"]);
    IdxIsFirst(h, ["brand", "brands"]);
  }

  // ----- Rows -------------------------------------------------------------------------------

  /** How many rows of the table have something in the title column. */
  function TitledRows(title: int, table: seq<Row>): nat {
    if table == [] then 0
    else (if AllSpace(CellAt(table[0], title)) then 0 else 1) + TitledRows(title, table[1..])
  }

  /** Every row with a title becomes one import row, and only those do. */
  lemma {:induction false} TitledCount(cols: Columns, table: seq<Row>)
    ensures |Titled(cols, table)| == TitledRows(cols.title, table)
    ensures forall r :: r in Titled(cols, table) ==> r.title != "" && Trimmed(r.title)
  {
    hide Trim, Trimmed, AllSpace;
    if table != [] {
      TitledCount(cols, table[1..]);
      TitleTrimmed(cols, table[0]);
    }
  }

  lemma {:induction false} TitleTrimmed(cols: Columns, cells: Row)
    ensures Trimmed(RowOf(cols, cells).title)
    ensures RowOf(cols, cells).title == "" <==> AllSpace(CellAt(cells, cols.title))
  {
    TrimShape(CellAt(cells, cols.title));
  }

  /** Blank cells and missing ones read as nothing, others as their trimmed text. */
  lemma {:induction false} CellReads(s: string)
    ensures Optional(s) == None <==> AllSpace(s)
    ensures Optional(s).Some? ==> Trimmed(Optional(s).value) && Optional(s).value != "" && Optional(s).value == Trim(s)
  {
    TrimShape(s);
  }

  // ----- Prices -----------------------------------------------------------------------------

  lemma {:induction false} Assoc(a: string, b: string, c: string)
    ensures (a + b) + c == a + (b + c)
  {
  }

  lemma {:induction false} NumericCons(s: string)
    requires s != ""
    ensures Numeric(s) == Numeric([s[0]]) + Numeric(s[1..])
  {
    NumericChar(s[0]);
  }

  /** The cleaner looks at every character by itself. */
  lemma {:induction false} NumericConcat(a: string, b: string)
    ensures Numeric(a + b) == Numeric(a) + Numeric(b)
  {
    hide Numeric;
    if a == "" {
      NumericEmpty();
      assert a + b == b && "" + Numeric(b) == Numeric(b);
    } else {
      assert (a + b)[1..] == a[1..] + b && (a + b)[0] == a[0];
      NumericCons(a);
      NumericCons(a + b);
      NumericConcat(a[1..], b);
      Assoc(Numeric([a[0]]), Numeric(a[1..]), Numeric(b));
    }
  }

  lemma {:induction false} NumericEmpty()
    ensures Numeric("") == ""
  {
  }

  lemma {:induction false} NumericChar(c: char)
    ensures Numeric([c]) == if '0' <= c <= '9' || c == '.' || c == '-' then [c] else ""
  {
    assert [c][1..] == "" && [c] + "" == [c];
  }

  ghost predicate AllDigits(s: string) {
    forall i :: 0 <= i < |s| ==> IsDigit(s[i])
  }

  /** The text of a number: a sign, whole digits, and a point with more digits. */
  function NumberText(negative: bool, whole: string, frac: string): string {
    (if negative then "-" else "") + (whole + if frac == "" then "" else "." + frac)
  }

  /** What follows the number cannot continue it. */
  predicate Stops(frac: string, rest: string) {
    rest == "" || (!IsDigit(rest[0]) && (frac == "" ==> rest[0] != '.'))
  }

  function Tail(frac: string, rest: string): string {
    (if frac == "" then "" else "." + frac) + rest
  }

  lemma {:induction false} SignFirst(body: string)
    ensures "" + body == body && ("-" + body)[0] == '-' && ("-" + body)[1..] == body
  {
  }

  /** The sign is split off, and the rest starts with the whole digits. */
  lemma {:induction false} SignSplits(negative: bool, whole: string, frac: string, rest: string)
    requires AllDigits(whole) && whole + frac != ""
    ensures var text := NumberText(negative, whole, frac) + rest;
            && text != "" && (text[0] == '-' <==> negative)
            && (if negative then text[1..] else text) == whole + Tail(frac, rest)
  {
    var sign, f := if negative then "-" else "", if frac == "" then "" else "." + frac;
    Assoc(sign, whole + f, rest);
    Assoc(whole, f, rest);
    SignFirst(whole + (f + rest));
    if whole == "" {
      PointFirst(frac, rest);
    } else {
      assert IsDigit(whole[0]);
    }
  }

  lemma {:induction false} PointFirst(frac: string, rest: string)
    ensures frac != "" ==> "" + (("." + frac) + rest) != "" && ("" + (("." + frac) + rest))[0] == '.'
  {
  }

  lemma {:induction false} TailSplits(frac: string, rest: string)
    requires AllDigits(frac) && Stops(frac, rest)
    ensures var tail := Tail(frac, rest);
            && (tail == "" || !IsDigit(tail[0]))
            && (if tail != "" && tail[0] == '.' then LeadingDigits(tail[1..]) else "") == frac
  {
    var tail := Tail(frac, rest);
    if frac != "" {
      assert tail == "." + (frac + rest) && tail[1..] == frac + rest;
      LeadingDigitsStop(frac, rest);
    } else {
      assert tail == rest;
    }
  }

  /** A number is read as its exact decimal value, whatever non-number follows it. */
  lemma {:induction false} NumberReads(negative: bool, whole: string, frac: string, rest: string)
    requires AllDigits(whole) && AllDigits(frac) && whole + frac != "" && Stops(frac, rest)
    ensures AllDigits(whole + frac)
    ensures var value: int := DigitsValue(whole + frac);
            ParseFloat(NumberText(negative, whole, frac) + rest)
            == Some(Decimal(if negative then -value else value, |frac|))
  {
    hide LeadingDigits, DigitsValue, NumberText, Tail, Stops;
    SignSplits(negative, whole, frac, rest);
    TailSplits(frac, rest);
    LeadingDigitsStop(whole, Tail(frac, rest));
    assert (whole + Tail(frac, rest))[|whole|..] == Tail(frac, rest);
  }

  /** A text without a digit is no number. */
  lemma {:induction false} NoDigitNoNumber(s: string)
    requires forall i :: 0 <= i < |s| ==> !IsDigit(s[i])
    ensures ParseFloat(s) == None
  {
  }
}
