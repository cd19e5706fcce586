/** What the reader makes of text that no strict writer produces. */
module LooseCsv {
  import opened Text
  import opened Csv

  lemma {:induction false} ScanQuotedEnd(s: string, st: State)
    requires st.inQuotes
    ensures Scan(DoubleQuotes(s), st) == st.(field := st.field + s)
    decreases |s|
  {
    if s == "" {
      assert st.field + s == st.field;
    } else {
      var text := DoubleQuotes(s);
      assert st.field + s == (st.field + [s[0]]) + s[1..];
      ScanQuotedEnd(s[1..], st.(field := st.field + [s[0]]));
      if s[0] == '"' {
        assert text[2..] == DoubleQuotes(s[1..]);
      } else {
        assert text[1..] == DoubleQuotes(s[1..]);
      }
    }
  }

  lemma {:induction false} ScanOpen(rest: string, st: State)
    requires !st.inQuotes
    ensures Scan("\"" + rest, st) == Scan(rest, st.(inQuotes := true))
  {
    assert ("\"" + rest)[1..] == rest;
  }

  lemma {:induction false} ScanEmpty(st: State)
    ensures Scan("", st) == st
  {
  }

  lemma {:induction false} FinishField(s: string)
    ensures Finish(START.(field := s)) == if s == "" then [] else [[s]]
    ensures Finish(START.(field := s, inQuotes := true)) == if s == "" then [] else [[s]]
  {
    assert [] + [s] == [s] && [] + [[s]] == [[s]];
  }

  /** A quoted stretch may stand anywhere in a field and joins what is around it. */
  lemma {:induction false} QuotedStretch(x: string, y: string, z: string)
    requires !NeedsQuotes(x) && !NeedsQuotes(z)
    ensures Parse(x + ("\"" + (DoubleQuotes(y) + "\"" + z)))
         == NonBlank(if x + y + z == "" then [] else [[x + y + z]])
  {
    hide Scan, DoubleQuotes, NonBlank, Finish;
    var quoted := DoubleQuotes(y) + "\"" + z;
    PlainStart(z);
    ScanPlain(x, "\"" + quoted, START);
    ScanOpen(quoted, START.(field := "" + x));
    ScanQuoted(y, z, START.(field := "" + x, inQuotes := true));
    assert z + "" == z && "" + x == x;
    ScanPlain(z, "", START.(field := x + y));
    ScanEmpty(START.(field := x + y + z));
    FinishField(x + y + z);
  }

  lemma {:induction false} PlainStart(z: string)
    requires !NeedsQuotes(z)
    ensures z == "" || z[0] != '"'
  {
    assert '"' in "\",\r\n";
  }

  /** A quote that is never closed takes the text to its end, commas and line breaks included. */
  lemma {:induction false} UnclosedQuote(y: string)
    ensures Parse("\"" + DoubleQuotes(y)) == NonBlank(if y == "" then [] else [[y]])
  {
    hide Scan, DoubleQuotes, NonBlank, Finish;
    ScanOpen(DoubleQuotes(y), START);
    ScanQuotedEnd(y, START.(inQuotes := true));
    assert "" + y == y;
    FinishField(y);
  }

  function WithoutReturns(text: string): string {
    if text == "" then "" else (if text[0] == '\r' then "" else [text[0]]) + WithoutReturns(text[1..])
  }

  /** Outside quotes, carriage returns are as if they were not there. */
  lemma {:induction false} ReturnsVanish(text: string, st: State)
    requires !st.inQuotes && '"' !in text
    ensures Scan(text, st) == Scan(WithoutReturns(text), st)
    decreases |text|
  {
    if text != "" {
      var c, rest := text[0], text[1..];
      assert c in text && forall d :: d in rest ==> d in text;
      if c == '\r' {
        assert "" + WithoutReturns(rest) == WithoutReturns(rest);
        ReturnsVanish(rest, st);
      } else {
        var next := if c == ',' then st.(row := st.row + [st.field], field := "")
                    else if c == '\n' then st.(rows := st.rows + [st.row + [st.field]], row := [], field := "")
                    else st.(field := st.field + [c]);
        assert ([c] + WithoutReturns(rest))[1..] == WithoutReturns(rest);
        ReturnsVanish(rest, next);
      }
    }
  }

  /** A row is dropped exactly when all its cells are blank. */
  lemma {:induction false} KeptRows(rows: seq<Row>, row: Row)
    ensures row in NonBlank(rows) <==> row in rows && exists i :: 0 <= i < |row| && !AllSpace(row[i])
  {
    hide Trim, AllSpace;
    if rows != [] {
      KeptRows(rows[1..], row);
      forall i | 0 <= i < |rows[0]| ensures Trim(rows[0][i]) == "" <==> AllSpace(rows[0][i]) {
        TrimShape(rows[0][i]);
      }
    }
  }
}
