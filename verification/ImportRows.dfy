/**
 From a CSV export to import rows: loose header matching, price parsing and the
 field mapping. The main result is that a catalogue written out as CSV, in any
 quoting style, comes back as the same import rows.
 */
module ImportRows {
  import opened Text
  import opened Csv

  datatype ImportRow = ImportRow(title: string, sku: Option<string>, priceCents: int,
                                 description: Option<string>, brand: Option<string>)

  // ----- Prices --------------------------------------------------------------

  function Pow10(k: nat): (p: nat)
    ensures p > 0
  {
    if k == 0 then 1 else 10 * Pow10(k - 1)
  }

  /** The characters the price cleaner keeps. */
  function Numeric(raw: string): string {
    if raw == "" then ""
    else (if IsDigit(raw[0]) || raw[0] == '.' || raw[0] == '-' then [raw[0]] else "") + Numeric(raw[1..])
  }

  /** The number mantissa / 10^places. */
  datatype Decimal = Decimal(mantissa: int, places: nat)

  /** The longest numeric prefix, in exact arithmetic; None for NaN. */
  function ParseFloat(s: string): Option<Decimal> {
    var negative := s != "" && s[0] == '-';
    var body := if negative then s[1..] else s;
    var whole := LeadingDigits(body);
    var after := body[|whole|..];
    var frac := if after != "" && after[0] == '.' then LeadingDigits(after[1..]) else "";
    if whole == "" && frac == "" then None
    else
      var m: int := DigitsValue(whole + frac);
      Some(Decimal(if negative then -m else m, |frac|))
  }

  /** `Math.round(n * 100)`: the floor of 100n + 1/2. */
  function RoundToCents(d: Decimal): int {
    (200 * d.mantissa + Pow10(d.places)) / (2 * Pow10(d.places))
  }

  function DollarsToCents(raw: string): int {
    if raw == "" then 0
    else match ParseFloat(Numeric(raw))
      case None => 0
      case Some(d) => RoundToCents(d)
  }

  /** The rounded price is within half a cent of the price read, ties going up. */
  lemma {:induction false} CentsAreNearest(d: Decimal)
    ensures var twice := 2 * Pow10(d.places) * RoundToCents(d) - 200 * d.mantissa;
            twice <= Pow10(d.places) && 0 < twice + Pow10(d.places)
  {
    var n, p := 200 * d.mantissa + Pow10(d.places), 2 * Pow10(d.places);
    assert n == p * (n / p) + n % p;
  }

  /** Cents as dollars with two decimals: 1299 becomes "12.99". */
  function FormatCents(cents: nat): string {
    Digits(cents / 100) + "." + [DigitChar(cents % 100 / 10), DigitChar(cents % 10)]
  }

  lemma {:induction false} DigitsValueTwo(d: string, a: nat, b: nat)
    requires a < 10 && b < 10
    requires forall i :: 0 <= i < |d| ==> IsDigit(d[i])
    ensures var s := d + [DigitChar(a), DigitChar(b)];
            (forall i :: 0 <= i < |s| ==> IsDigit(s[i])) && DigitsValue(s) == 100 * DigitsValue(d) + 10 * a + b
  {
    var s := d + [DigitChar(a), DigitChar(b)];
    assert s[..|s| - 1] == d + [DigitChar(a)];
    assert (d + [DigitChar(a)])[..|d|] == d;
    assert DigitsValue(d + [DigitChar(a)]) == 10 * DigitsValue(d) + a;
  }

  lemma {:induction false} ParseFormatted(whole: string, frac: string)
    requires whole != "" && frac != ""
    requires forall i :: 0 <= i < |whole| ==> IsDigit(whole[i])
    requires forall i :: 0 <= i < |frac| ==> IsDigit(frac[i])
    ensures forall i :: 0 <= i < |whole + frac| ==> IsDigit((whole + frac)[i])
    ensures ParseFloat(whole + "." + frac) == Some(Decimal(DigitsValue(whole + frac), |frac|))
  {
    var text := whole + "." + frac;
    assert text == whole + ("." + frac) && text[0] == whole[0] && IsDigit(text[0]);
    LeadingDigitsStop(whole, "." + frac);
    assert text[|whole|..] == "." + frac;
    assert ("." + frac)[1..] == frac && frac + "" == frac;
    LeadingDigitsStop(frac, "");
  }

  lemma {:induction false} FormatParses(cents: nat)
    ensures ParseFloat(FormatCents(cents)) == Some(Decimal(cents, 2))
  {
    hide ParseFloat, Digits, DigitsValue;
    var whole := Digits(cents / 100);
    var a, b := cents % 100 / 10, cents % 10;
    var frac := [DigitChar(a), DigitChar(b)];
    ParseFormatted(whole, frac);
    DigitsRoundTrip(cents / 100);
    DigitsValueTwo(whole, a, b);
    SplitCents(cents);
  }

  lemma {:induction false} SplitCents(cents: nat)
    ensures 100 * (cents / 100) + 10 * (cents % 100 / 10) + cents % 10 == cents
  {
  }

  /**
   A price printed as dollars is read back exactly, however it is decorated with
   currency signs, thousands separators or other characters the cleaner strips.
   */
  lemma {:induction false} PriceRoundTrip(raw: string, cents: nat)
    requires Numeric(raw) == FormatCents(cents)
    ensures DollarsToCents(raw) == cents
  {
    assert raw != "";
    hide ParseFloat, RoundToCents, FormatCents;
    FormatParses(cents);
    WholeCents(cents);
  }

  lemma {:induction false} WholeCents(cents: int)
    ensures RoundToCents(Decimal(cents, 2)) == cents
  {
    assert Pow10(1) == 10 && Pow10(2) == 100;
  }

  lemma {:induction false} NumericFixed(s: string)
    requires forall i :: 0 <= i < |s| ==> IsDigit(s[i]) || s[i] == '.' || s[i] == '-'
    ensures Numeric(s) == s
  {
    if s != "" {
      NumericFixed(s[1..]);
    }
  }

  // ----- Columns and rows ----------------------------------------------------

  datatype Columns = Columns(title: int, sku: int, price: int, description: int, brand: int)

  function IndexOf(header: Row, name: string): (i: int)
    ensures -1 <= i < |header|
    ensures i >= 0 ==> header[i] == name && name !in header[..i]
    ensures i < 0 ==> name !in header
  {
    if header == [] then -1
    else if header[0] == name then 0
    else
      var i := IndexOf(header[1..], name);
      if i < 0 then -1 else i + 1
  }

  /** The column of the first of `names` that the header has. */
  function Idx(header: Row, names: seq<string>): (i: int)
    ensures -1 <= i < |header|
  {
    if names == [] then -1
    else if IndexOf(header, names[0]) != -1 then IndexOf(header, names[0])
    else Idx(header, names[1..])
  }

  function Normalised(header: Row): Row {
    seq(|header|, i requires 0 <= i < |header| => Lower(Trim(header[i])))
  }

  function ColumnsOf(header: Row): Columns {
    var h := Normalised(header);
    Columns(Idx(h, ["name", "title", "product name"]), Idx(h, ["sku"]),
            Idx(h, ["regular price", "price", "sale price"]),
            Idx(h, ["description", "short description"]), Idx(h, ["brand", "brands"]))
  }

  /** A cell that may be missing because the column or the cell is. */
  function CellAt(cells: Row, i: int): string {
    if 0 <= i < |cells| then cells[i] else ""
  }

  function Optional(s: string): Option<string> {
    if Trim(s) == "" then None else Some(Trim(s))
  }

  function RowOf(cols: Columns, cells: Row): ImportRow {
    ImportRow(Trim(CellAt(cells, cols.title)), Optional(CellAt(cells, cols.sku)),
              DollarsToCents(CellAt(cells, cols.price)),
              Optional(CellAt(cells, cols.description)), Optional(CellAt(cells, cols.brand)))
  }

  /** The rows with a title, in order. */
  function Titled(cols: Columns, table: seq<Row>): seq<ImportRow> {
    if table == [] then []
    else (if RowOf(cols, table[0]).title == "" then [] else [RowOf(cols, table[0])]) + Titled(cols, table[1..])
  }

  function RowsOf(table: seq<Row>): seq<ImportRow> {
    if |table| < 2 then [] else Titled(ColumnsOf(table[0]), table[1..])
  }

  lemma {:induction false} TitledSnoc(cols: Columns, table: seq<Row>, cells: Row)
    ensures Titled(cols, table + [cells])
         == Titled(cols, table) + if RowOf(cols, cells).title == "" then [] else [RowOf(cols, cells)]
  {
    hide RowOf;
    if table == [] {
      assert table + [cells] == [cells];
      assert [cells][1..] == [];
    } else {
      assert (table + [cells])[1..] == table[1..] + [cells];
      TitledSnoc(cols, table[1..], cells);
    }
  }

  method CsvToImportRows(csv: string) returns (rows: seq<ImportRow>)
    ensures rows == RowsOf(Parse(csv))
  {
    rows := [];
    var table := ParseDelimited(csv);
    if |table| < 2 {
      return;
    }
    rows := CollectRows(ColumnsOf(table[0]), table);
  }

  method CollectRows(cols: Columns, table: seq<Row>) returns (rows: seq<ImportRow>)
    requires |table| >= 1
    ensures rows == Titled(cols, table[1..])
  {
    hide RowOf;
    rows := [];
    for r := 1 to |table|
      invariant rows == Titled(cols, table[1..r])
    {
      TitledSnoc(cols, table[1..r], table[r]);
      assert table[1..r + 1] == table[1..r] + [table[r]];
      var row := RowOf(cols, table[r]);
      if row.title == "" {
        continue;
      }
      rows := rows + [row];
    }
    assert table[1..|table|] == table[1..];
  }

  // ----- Exporting and importing again ---------------------------------------

  const HEADER: Row := ["Name", "SKU", "Price", "Description", "Brand"]

  ghost predicate CleanText(s: Option<string>) {
    s.Some? ==> s.value != "" && Trimmed(s.value)
  }

  /** A row the importer itself could have produced. */
  ghost predicate Clean(r: ImportRow) {
    r.title != "" && Trimmed(r.title) && r.priceCents >= 0
    && CleanText(r.sku) && CleanText(r.description) && CleanText(r.brand)
  }

  function TextOr(s: Option<string>): string {
    if s.Some? then s.value else ""
  }

  function CellsOf(r: ImportRow): Row
    requires r.priceCents >= 0
  {
    [r.title, TextOr(r.sku), FormatCents(r.priceCents), TextOr(r.description), TextOr(r.brand)]
  }

  lemma {:induction false} IndexOfFirst(h: Row, k: nat)
    requires k < |h| && h[k] !in h[..k]
    ensures IndexOf(h, h[k]) == k
  {
  }

  /** The five names in lower case, all different. */
  const NAMES: Row := ["name", "sku", "price", "description", "brand"]

  lemma {:induction false} HeaderNormalised()
    ensures Normalised(HEADER) == NAMES
  {
    forall i | 0 <= i < |HEADER| ensures Lower(Trim(HEADER[i])) == NAMES[i] {
      HeaderName(i);
    }
  }

  lemma {:induction false} HeaderName(i: nat)
    requires i < 5
    ensures Lower(Trim(HEADER[i])) == NAMES[i]
  {
    TrimOfTrimmed(HEADER[i]);
    match i
    case 0 => assert Lower("Name") == "name";
    case 1 => assert Lower("SKU") == "sku";
    case 2 => assert Lower("Price") == "price";
    case 3 => assert Lower("Description") == "description";
    case 4 => assert Lower("Brand") == "brand";
  }

  lemma {:induction false} NamesAt()
    ensures IndexOf(NAMES, "name") == 0 && IndexOf(NAMES, "sku") == 1 && IndexOf(NAMES, "price") == 2
    ensures IndexOf(NAMES, "description") == 3 && IndexOf(NAMES, "brand") == 4
  {
    assert "price"[0] != "brand"[0];
    IndexOfFirst(NAMES, 0);
    IndexOfFirst(NAMES, 1);
    IndexOfFirst(NAMES, 2);
    IndexOfFirst(NAMES, 3);
    IndexOfFirst(NAMES, 4);
  }

  lemma {:induction false} RegularPriceMissing()
    ensures IndexOf(NAMES, "regular price") == -1
  {
    var name := "regular price";
    assert |name| == 13;
    assert forall i :: 0 <= i < |NAMES| ==> |NAMES[i]| < 13;
  }

  lemma {:induction false} HeaderColumns()
    ensures ColumnsOf(HEADER) == Columns(0, 1, 2, 3, 4)
  {
    HeaderNormalised();
    NamesAt();
    RegularPriceMissing();
    assert ["regular price", "price", "sale price"][1..] == ["price", "sale price"];
  }

  lemma {:induction false} OptionalRoundTrip(s: Option<string>)
    requires CleanText(s)
    ensures Optional(TextOr(s)) == s
  {
    TrimOfTrimmed(TextOr(s));
  }

  lemma {:induction false} CellsRoundTrip(r: ImportRow)
    requires Clean(r)
    ensures RowOf(Columns(0, 1, 2, 3, 4), CellsOf(r)) == r
    ensures !BlankRow(CellsOf(r))
  {
    var cells := CellsOf(r);
    assert cells[0] == r.title && Trim(cells[0]) == r.title by { TrimOfTrimmed(r.title); }
    OptionalRoundTrip(r.sku);
    OptionalRoundTrip(r.description);
    OptionalRoundTrip(r.brand);
    NumericFixed(FormatCents(r.priceCents));
    PriceRoundTrip(FormatCents(r.priceCents), r.priceCents);
  }

  ghost predicate AllClean(rows: seq<ImportRow>) {
    forall i :: 0 <= i < |rows| ==> Clean(rows[i])
  }

  ghost function TableOf(rows: seq<ImportRow>): seq<Row>
    requires AllClean(rows)
  {
    seq(|rows|, i requires 0 <= i < |rows| => CellsOf(rows[i]))
  }

  lemma {:induction false} TitledRoundTrip(rows: seq<ImportRow>)
    requires AllClean(rows)
    ensures Titled(Columns(0, 1, 2, 3, 4), TableOf(rows)) == rows
  {
    if rows != [] {
      assert TableOf(rows)[1..] == TableOf(rows[1..]);
      CellsRoundTrip(rows[0]);
      TitledRoundTrip(rows[1..]);
    }
  }

  lemma {:induction false} ExportedNonBlank(rows: seq<ImportRow>)
    requires AllClean(rows)
    ensures NonBlank([HEADER] + TableOf(rows)) == [HEADER] + TableOf(rows)
  {
    hide RowOf, CellsOf, BlankRow;
    var table := [HEADER] + TableOf(rows);
    forall i | 0 <= i < |table| ensures !BlankRow(table[i]) {
      if i == 0 {
        HeaderNotBlank();
      } else {
        CellsRoundTrip(rows[i - 1]);
      }
    }
    NonBlankFixed(table);
  }

  lemma {:induction false} HeaderNotBlank()
    ensures !BlankRow(HEADER)
  {
    TrimOfTrimmed("Name");
    assert HEADER[0] == "Name";
  }

  lemma {:induction false} ExportedTable(rows: seq<ImportRow>)
    requires AllClean(rows)
    ensures RowsOf([HEADER] + TableOf(rows)) == rows
  {
    HeaderColumns();
    hide ColumnsOf, Titled;
    var table := [HEADER] + TableOf(rows);
    assert table[1..] == TableOf(rows);
    TitledRoundTrip(rows);
    if rows == [] { assert |table| == 1; }
  }

  /** A catalogue exported as CSV, in any quoting and line-break style, is imported unchanged. */
  lemma {:induction false} ExportImport(rows: seq<ImportRow>, doc: seq<Record>, lastBreak: bool)
    requires AllClean(rows)
    requires Legal(doc) && Table(doc) == [HEADER] + TableOf(rows)
    ensures RowsOf(Parse(Print(doc, lastBreak))) == rows
  {
    RoundTrip(doc, lastBreak);
    ExportedNonBlank(rows);
    ExportedTable(rows);
  }
}
