/** The CSV writer of the export service, and an independent reader of the format of RFC 4180, section 2. */
module CsvExport {
  import opened Prelude

  /** A value after the writer's `String(value)`; `None` stands for null and undefined. */
  type Cell = Option<string>

  type Row = map<string, Cell>

  type Table = seq<seq<string>>

  const CRLF: string := "\r\n"

  // ---------------------------------------------------------------- the writer

  predicate Special(c: char) {
    c == ',' || c == '"' || c == '\n' || c == '\r'
  }

  predicate NeedsQuotes(s: string) {
    exists i | 0 <= i < |s| :: Special(s[i])
  }

  function DoubleQuotes(s: string): string {
    if s == "" then "" else (if s[0] == '"' then "\"\"" else [s[0]]) + DoubleQuotes(s[1..])
  }

  function EscapeCsvField(value: Cell): string {
    match value
    case None => ""
    case Some(s) => if NeedsQuotes(s) then "\"" + DoubleQuotes(s) + "\"" else s
  }

  function Join(parts: seq<string>, separator: string): string {
    if parts == [] then ""
    else if |parts| == 1 then parts[0]
    else parts[0] + separator + Join(parts[1..], separator)
  }

  /** `row[col]`: a column the row does not have reads as undefined. */
  function CellOf(row: Row, column: string): Cell {
    if column in row then row[column] else None
  }

  function RowCells(columns: seq<string>, row: Row): seq<Cell> {
    if columns == [] then [] else [CellOf(row, columns[0])] + RowCells(columns[1..], row)
  }

  function HeaderCells(columns: seq<string>): seq<Cell> {
    if columns == [] then [] else [Some(columns[0])] + HeaderCells(columns[1..])
  }

  function EscapeAll(cells: seq<Cell>): seq<string> {
    if cells == [] then [] else [EscapeCsvField(cells[0])] + EscapeAll(cells[1..])
  }

  function Line(cells: seq<Cell>): string {
    Join(EscapeAll(cells), ",")
  }

  function DataLines(columns: seq<string>, rows: seq<Row>): seq<string> {
    if rows == [] then [] else [Line(RowCells(columns, rows[0]))] + DataLines(columns, rows[1..])
  }

  function GenerateCsv(columns: seq<string>, rows: seq<Row>): string {
    Join([Line(HeaderCells(columns))] + DataLines(columns, rows), CRLF)
  }

  // ---------------------------------------------------------------- what a reader should get back

  function Text(value: Cell): string {
    match value
    case None => ""
    case Some(s) => s
  }

  function Texts(cells: seq<Cell>): seq<string> {
    if cells == [] then [] else [Text(cells[0])] + Texts(cells[1..])
  }

  function RowTexts(columns: seq<string>, rows: seq<Row>): Table {
    if rows == [] then [] else [Texts(RowCells(columns, rows[0]))] + RowTexts(columns, rows[1..])
  }

  function TextTable(columns: seq<string>, rows: seq<Row>): Table {
    [columns] + RowTexts(columns, rows)
  }

  // ---------------------------------------------------------------- the reader

  /** A field that starts without a quote: TEXTDATA up to the next special character. */
  function ReadPlain(s: string): (r: (string, string))
    ensures s == r.0 + r.1
  {
    if s == "" || Special(s[0]) then ("", s)
    else var (field, rest) := ReadPlain(s[1..]); ([s[0]] + field, rest)
  }

  /** The inside of a quoted field, after its opening quote: two quotes read as one, a single one closes. */
  function ReadQuoted(s: string): (r: Option<(string, string)>)
    ensures r.Some? ==> |r.value.1| < |s|
  {
    if s == "" then None
    else if s[0] != '"' then
      match ReadQuoted(s[1..])
      case None => None
      case Some((field, rest)) => Some(([s[0]] + field, rest))
    else if |s| >= 2 && s[1] == '"' then
      match ReadQuoted(s[2..])
      case None => None
      case Some((field, rest)) => Some((['"'] + field, rest))
    else Some(("", s[1..]))
  }

  function ReadField(s: string): (r: Option<(string, string)>)
    ensures r.Some? ==> |r.value.1| <= |s|
  {
    if s != "" && s[0] == '"' then ReadQuoted(s[1..]) else Some(ReadPlain(s))
  }

  predicate StartsWithCrlf(s: string) {
    |s| >= 2 && s[0] == '\r' && s[1] == '\n'
  }

  /** All records of a file in which CRLF separates records. */
  function Parse(s: string): (r: Option<Table>)
    ensures r.Some? ==> r.value != [] && r.value[0] != []
    decreases |s|
  {
    match ReadField(s)
    case None => None
    case Some((field, rest)) =>
      if rest == "" then Some([[field]])
      else if rest[0] == ',' then
        match Parse(rest[1..])
        case None => None
        case Some(t) => Some([[field] + t[0]] + t[1..])
      else if StartsWithCrlf(rest) then
        match Parse(rest[2..])
        case None => None
        case Some(t) => Some([[field]] + t)
      else None
  }

  // ---------------------------------------------------------------- fields

  /** What may follow a field: the end, a comma, or a line break. */
  predicate Boundary(rest: string) {
    rest == "" || rest[0] == ',' || StartsWithCrlf(rest)
  }

  lemma {:induction false} PlainFieldReads(s: string, rest: string)
    requires !NeedsQuotes(s) && Boundary(rest)
    ensures ReadPlain(s + rest) == (s, rest)
  {
    if s == "" {
      assert s + rest == rest;
    } else {
      assert !Special(s[0]);
      assert forall i | 0 <= i < |s[1..]| :: s[1..][i] == s[i + 1];
      PlainFieldReads(s[1..], rest);
      assert (s + rest)[1..] == s[1..] + rest;
      assert s == [s[0]] + s[1..];
    }
  }

  lemma {:induction false} QuotedFieldReads(s: string, rest: string)
    requires Boundary(rest)
    ensures ReadQuoted(DoubleQuotes(s) + "\"" + rest) == Some((s, rest))
  {
    var text := DoubleQuotes(s) + "\"" + rest;
    if s == "" {
      assert text == ['"'] + rest && text[1..] == rest;
    } else {
      QuotedFieldReads(s[1..], rest);
      var tail := DoubleQuotes(s[1..]) + "\"" + rest;
      if s[0] == '"' {
        assert text == "\"\"" + tail && text[2..] == tail;
      } else {
        assert text == [s[0]] + tail && text[1..] == tail;
      }
      assert s == [s[0]] + s[1..];
    }
  }

  lemma OpeningQuote(inside: string, rest: string)
    ensures var text := "\"" + inside + rest;
            |text| > 0 && text[0] == '"' && text[1..] == inside + rest
  {
  }

  lemma QuotedCellReads(s: string, rest: string)
    requires Boundary(rest)
    ensures ReadField("\"" + DoubleQuotes(s) + "\"" + rest) == Some((s, rest))
  {
    QuotedFieldReads(s, rest);
    OpeningQuote(DoubleQuotes(s) + "\"", rest);
    assert "\"" + (DoubleQuotes(s) + "\"") == "\"" + DoubleQuotes(s) + "\"";
    hide ReadQuoted, DoubleQuotes, Boundary;
  }

  lemma PlainCellReads(s: string, rest: string)
    requires !NeedsQuotes(s) && Boundary(rest)
    ensures ReadField(s + rest) == Some((s, rest))
  {
    PlainFieldReads(s, rest);
    assert s != "" ==> !Special(s[0]);
  }

  lemma FieldReads(value: Cell, rest: string)
    requires Boundary(rest)
    ensures ReadField(EscapeCsvField(value) + rest) == Some((Text(value), rest))
  {
    hide ReadField, Boundary, NeedsQuotes, DoubleQuotes;
    match value
    case None =>
      NothingNeedsQuotes();
      PlainCellReads("", rest);
    case Some(s) =>
      if NeedsQuotes(s) {
        QuotedCellReads(s, rest);
      } else {
        PlainCellReads(s, rest);
      }
  }

  lemma NothingNeedsQuotes()
    ensures !NeedsQuotes("")
  {
  }

  // ---------------------------------------------------------------- lines

  /** The end of the file, or a line break and the records after it. */
  predicate LineEnd(rest: string) {
    rest == "" || StartsWithCrlf(rest)
  }

  function Records(rest: string): Option<Table>
    requires LineEnd(rest)
  {
    if rest == "" then Some([]) else Parse(rest[2..])
  }

  lemma {:induction false} LineReads(cells: seq<Cell>, rest: string)
    requires cells != [] && LineEnd(rest)
    requires Records(rest).Some?
    ensures Parse(Line(cells) + rest) == Some([Texts(cells)] + Records(rest).value)
  {
    var escaped := EscapeAll(cells);
    if |cells| == 1 {
      assert Line(cells) == EscapeCsvField(cells[0]);
      FieldReads(cells[0], rest);
      assert Texts(cells) == [Text(cells[0])];
      assert [[Text(cells[0])]] + [] == [[Text(cells[0])]];
    } else {
      assert escaped[1..] == EscapeAll(cells[1..]);
      var tail := Line(cells[1..]) + rest;
      assert Line(cells) + rest == EscapeCsvField(cells[0]) + ([','] + tail);
      FieldReads(cells[0], [','] + tail);
      LineReads(cells[1..], rest);
      assert ([','] + tail)[1..] == tail;
      var t := Parse(tail).value;
      assert t[0] == Texts(cells[1..]) && t[1..] == Records(rest).value;
    }
  }

  // ---------------------------------------------------------------- files

  function Lines(table: seq<seq<Cell>>): seq<string> {
    if table == [] then [] else [Line(table[0])] + Lines(table[1..])
  }

  function TableTexts(table: seq<seq<Cell>>): Table {
    if table == [] then [] else [Texts(table[0])] + TableTexts(table[1..])
  }

  lemma BreakThenRecords(cells: seq<Cell>, tail: string)
    requires cells != [] && Parse(tail).Some?
    ensures Parse(Line(cells) + CRLF + tail) == Some([Texts(cells)] + Parse(tail).value)
  {
    assert (CRLF + tail)[2..] == tail;
    LineReads(cells, CRLF + tail);
    assert Line(cells) + CRLF + tail == Line(cells) + (CRLF + tail);
  }

  lemma {:induction false} FileReads(table: seq<seq<Cell>>)
    requires table != [] && forall i | 0 <= i < |table| :: table[i] != []
    ensures Parse(Join(Lines(table), CRLF)) == Some(TableTexts(table))
  {
    var lines := Lines(table);
    if |table| == 1 {
      LineReads(table[0], "");
      assert Join(lines, CRLF) == Line(table[0]) == Line(table[0]) + "";
    } else {
      FileReads(table[1..]);
      assert lines[1..] == Lines(table[1..]);
      BreakThenRecords(table[0], Join(lines[1..], CRLF));
      assert Join(lines, CRLF) == Line(table[0]) + CRLF + Join(lines[1..], CRLF);
    }
  }

  function CellTable(columns: seq<string>, rows: seq<Row>): seq<seq<Cell>> {
    [HeaderCells(columns)] + RowTable(columns, rows)
  }

  function RowTable(columns: seq<string>, rows: seq<Row>): seq<seq<Cell>> {
    if rows == [] then [] else [RowCells(columns, rows[0])] + RowTable(columns, rows[1..])
  }

  lemma {:induction false} CellWidths(columns: seq<string>, row: Row)
    ensures |RowCells(columns, row)| == |HeaderCells(columns)| == |columns|
    ensures Texts(HeaderCells(columns)) == columns
  {
    if columns != [] {
      CellWidths(columns[1..], row);
      assert HeaderCells(columns)[1..] == HeaderCells(columns[1..]);
    }
  }

  lemma {:induction false} RowTableShape(columns: seq<string>, rows: seq<Row>)
    ensures Lines(RowTable(columns, rows)) == DataLines(columns, rows)
    ensures TableTexts(RowTable(columns, rows)) == RowTexts(columns, rows)
    ensures |RowTable(columns, rows)| == |RowTexts(columns, rows)| == |DataLines(columns, rows)| == |rows|
    ensures forall i | 0 <= i < |rows| :: |RowTable(columns, rows)[i]| == |columns|
  {
    if rows != [] {
      RowTableShape(columns, rows[1..]);
      CellWidths(columns, rows[0]);
      assert RowTable(columns, rows)[1..] == RowTable(columns, rows[1..]);
    }
  }

  lemma CsvIsLines(columns: seq<string>, rows: seq<Row>)
    ensures GenerateCsv(columns, rows) == Join(Lines(CellTable(columns, rows)), CRLF)
    ensures TableTexts(CellTable(columns, rows)) == TextTable(columns, rows)
    ensures |CellTable(columns, rows)| == |rows| + 1
    ensures forall i | 0 <= i <= |rows| :: |CellTable(columns, rows)[i]| == |columns|
  {
    RowTableShape(columns, rows);
    CellWidths(columns, map[]);
    var t := CellTable(columns, rows);
    assert t[1..] == RowTable(columns, rows) && t[0] == HeaderCells(columns);
  }

  lemma FileReadsAsTable(columns: seq<string>, rows: seq<Row>)
    requires columns != []
    ensures Parse(GenerateCsv(columns, rows)) == Some(TextTable(columns, rows))
  {
    CsvIsLines(columns, rows);
    FileReads(CellTable(columns, rows));
  }

  /** The text of a row in a column: nothing if the row lacks the column, or has null there. */
  function Shown(row: Row, column: string): string {
    if column in row && row[column].Some? then row[column].value else ""
  }

  /** The table shows the header and then, row by row and column by column, the rows. */
  predicate Shows(t: Table, columns: seq<string>, rows: seq<Row>) {
    && |t| == |rows| + 1 && t[0] == columns
    && (forall i | 0 < i < |t| :: |t[i]| == |columns|)
    && (forall i, j | 0 < i < |t| && 0 <= j < |columns| :: t[i][j] == Shown(rows[i - 1], columns[j]))
  }

  lemma {:induction false} TextsShown(columns: seq<string>, row: Row)
    ensures |Texts(RowCells(columns, row))| == |columns|
    ensures forall j | 0 <= j < |columns| :: Texts(RowCells(columns, row))[j] == Shown(row, columns[j])
  {
    if columns != [] {
      TextsShown(columns[1..], row);
      assert RowCells(columns, row)[1..] == RowCells(columns[1..], row);
      assert Texts(RowCells(columns, row))[1..] == Texts(RowCells(columns[1..], row));
    }
  }

  lemma {:induction false} RowTextsShown(columns: seq<string>, rows: seq<Row>)
    ensures |RowTexts(columns, rows)| == |rows|
    ensures forall i | 0 <= i < |rows| :: RowTexts(columns, rows)[i] == Texts(RowCells(columns, rows[i]))
  {
    if rows != [] {
      RowTextsShown(columns, rows[1..]);
      assert RowTexts(columns, rows)[1..] == RowTexts(columns, rows[1..]);
    }
  }

  lemma TableShows(columns: seq<string>, rows: seq<Row>)
    ensures Shows(TextTable(columns, rows), columns, rows)
  {
    RowTextsShown(columns, rows);
    var t := TextTable(columns, rows);
    forall i | 0 < i < |t|
      ensures |t[i]| == |columns| && forall j | 0 <= j < |columns| :: t[i][j] == Shown(rows[i - 1], columns[j])
    {
      TextsShown(columns, rows[i - 1]);
      assert t[i] == RowTexts(columns, rows)[i - 1];
    }
  }

  /**
   * Round trip: the reader recovers the header and the text of every row in every column, whatever characters they
   * hold, if and only if there is at least one column.
   */
  lemma RoundTrip(columns: seq<string>, rows: seq<Row>)
    ensures var t := Parse(GenerateCsv(columns, rows));
            t.Some? && Shows(t.value, columns, rows) <==> columns != []
  {
    if columns != [] {
      FileReadsAsTable(columns, rows);
      TableShows(columns, rows);
    }
  }

  /** The writer loses nothing: equal files come from equal tables. */
  lemma WriterIsInjective(columns: seq<string>, rows: seq<Row>, columns': seq<string>, rows': seq<Row>)
    requires columns != [] && columns' != []
    requires GenerateCsv(columns, rows) == GenerateCsv(columns', rows')
    ensures columns == columns' && |rows| == |rows'|
    ensures forall i, j | 0 <= i < |rows| && 0 <= j < |columns| :: Shown(rows[i], columns[j]) == Shown(rows'[i], columns[j])
  {
    RoundTrip(columns, rows);
    RoundTrip(columns', rows');
    var t := Parse(GenerateCsv(columns, rows)).value;
    forall i, j | 0 <= i < |rows| && 0 <= j < |columns| ensures Shown(rows[i], columns[j]) == Shown(rows'[i], columns[j]) {
      assert t[i + 1][j] == Shown(rows[i], columns[j]);
    }
  }

  // ---------------------------------------------------------------- the optional final line break

  /** Rule 2 of section 2 lets the last record end in a line break: this reader drops one. */
  function ParseFinalBreak(s: string): Option<Table> {
    if |s| >= 2 && StartsWithCrlf(s[|s| - 2..]) then Parse(s[..|s| - 2]) else Parse(s)
  }

  lemma {:induction false} LineEndsClean(cells: seq<Cell>)
    requires cells != []
    ensures Line(cells) == "" <==> |cells| == 1 && Text(cells[0]) == ""
    ensures Line(cells) != "" ==> Line(cells)[|Line(cells)| - 1] != '\n'
  {
    var first := EscapeCsvField(cells[0]);
    if first != "" && !NeedsQuotes(Text(cells[0])) {
      assert !Special(first[|first| - 1]);
    }
    if |cells| > 1 {
      LineEndsClean(cells[1..]);
      assert EscapeAll(cells)[1..] == EscapeAll(cells[1..]);
      assert Line(cells) == first + "," + Line(cells[1..]);
    } else {
      assert EscapeAll(cells) == [first];
    }
  }

  lemma {:induction false} JoinSplitsLast(lines: seq<string>)
    requires |lines| > 1
    ensures Join(lines, CRLF) == Join(lines[..|lines| - 1], CRLF) + CRLF + lines[|lines| - 1]
  {
    var init := lines[..|lines| - 1];
    if |lines| > 2 {
      JoinSplitsLast(lines[1..]);
      assert lines[1..][..|lines| - 2] == init[1..];
    }
  }

  lemma {:induction false} LinesAndTextsOfPrefix(table: seq<seq<Cell>>, n: nat)
    requires n <= |table|
    ensures |Lines(table)| == |TableTexts(table)| == |table|
    ensures Lines(table)[..n] == Lines(table[..n])
    ensures TableTexts(table)[..n] == TableTexts(table[..n])
    ensures n < |table| ==> Lines(table)[n] == Line(table[n])
  {
    hide Line, Texts;
    if n > 0 {
      LinesAndTextsOfPrefix(table[1..], n - 1);
      assert table[..n][1..] == table[1..][..n - 1];
    } else if table != [] {
      LinesAndTextsOfPrefix(table[1..], 0);
    }
  }

  /** The file ends in a line break exactly when its last record is a single empty cell. */
  predicate LastRecordVanishes(columns: seq<string>, rows: seq<Row>) {
    |columns| == 1 && rows != [] && Shown(rows[|rows| - 1], columns[0]) == ""
  }

  lemma LastLine(columns: seq<string>, rows: seq<Row>)
    requires columns != [] && rows != []
    ensures var lines := Lines(CellTable(columns, rows));
            && |lines| == |rows| + 1
            && GenerateCsv(columns, rows) == Join(lines[..|rows|], CRLF) + CRLF + lines[|rows|]
            && (lines[|rows|] == "" <==> LastRecordVanishes(columns, rows))
            && (lines[|rows|] != "" ==> lines[|rows|][|lines[|rows|]| - 1] != '\n')
  {
    CsvIsLines(columns, rows);
    var table := CellTable(columns, rows);
    LinesAndTextsOfPrefix(table, |rows|);
    LastCells(columns, rows);
    assert table[|rows|] == RowCells(columns, rows[|rows| - 1]);
    TextsShown(columns, rows[|rows| - 1]);
    LineEndsClean(table[|rows|]);
    JoinSplitsLast(Lines(table));
  }

  lemma PrefixReads(columns: seq<string>, rows: seq<Row>)
    requires columns != [] && rows != []
    ensures |TextTable(columns, rows)| == |rows| + 1
    ensures |Lines(CellTable(columns, rows))| == |rows| + 1
    ensures Parse(Join(Lines(CellTable(columns, rows))[..|rows|], CRLF)) == Some(TextTable(columns, rows)[..|rows|])
  {
    CsvIsLines(columns, rows);
    var table := CellTable(columns, rows);
    LinesAndTextsOfPrefix(table, |rows|);
    FileReads(table[..|rows|]);
  }

  lemma HeaderAlone(columns: seq<string>)
    requires columns != []
    ensures var csv := GenerateCsv(columns, []); csv != "" ==> csv[|csv| - 1] != '\n'
  {
    CellWidths(columns, map[]);
    LineEndsClean(HeaderCells(columns));
    assert GenerateCsv(columns, []) == Line(HeaderCells(columns));
  }

  lemma TableSize(columns: seq<string>, rows: seq<Row>)
    ensures |TextTable(columns, rows)| == |rows| + 1
    ensures rows == [] ==> !LastRecordVanishes(columns, rows)
  {
    RowTextsShown(columns, rows);
  }

  lemma NoFinalBreak(s: string)
    requires s != "" ==> s[|s| - 1] != '\n'
    ensures ParseFinalBreak(s) == Parse(s)
  {
    hide Parse;
  }

  lemma FinalBreakDropped(s: string)
    ensures ParseFinalBreak(s + CRLF) == Parse(s)
  {
    hide Parse;
    assert (s + CRLF)[|s|..] == CRLF && (s + CRLF)[..|s|] == s;
  }

  lemma FinalBreakTable(columns: seq<string>, rows: seq<Row>)
    requires columns != []
    ensures |TextTable(columns, rows)| == |rows| + 1
    ensures ParseFinalBreak(GenerateCsv(columns, rows))
         == Some(if LastRecordVanishes(columns, rows) then TextTable(columns, rows)[..|rows|] else TextTable(columns, rows))
  {
    hide *;
    TableSize(columns, rows);
    FileReadsAsTable(columns, rows);
    var csv := GenerateCsv(columns, rows);
    if rows == [] {
      HeaderAlone(columns);
      NoFinalBreak(csv);
    } else {
      LastLine(columns, rows);
      PrefixReads(columns, rows);
      var lines := Lines(CellTable(columns, rows));
      var init := Join(lines[..|rows|], CRLF);
      if LastRecordVanishes(columns, rows) {
        assert csv == init + CRLF;
        FinalBreakDropped(init);
      } else {
        assert csv[|csv| - 1] == lines[|rows|][|lines[|rows|]| - 1];
        NoFinalBreak(csv);
      }
    }
  }

  /**
   * A reader that allows a final line break recovers the table exactly when the last row is not a
   * single empty cell; in that case it loses precisely that row.
   */
  lemma FinalBreakReading(columns: seq<string>, rows: seq<Row>)
    requires columns != []
    ensures var t := ParseFinalBreak(GenerateCsv(columns, rows));
            t.Some? && Shows(t.value, columns, if LastRecordVanishes(columns, rows) then rows[..|rows| - 1] else rows)
  {
    FinalBreakTable(columns, rows);
    TableShows(columns, rows);
    hide ParseFinalBreak, TextTable, GenerateCsv;
  }

  lemma {:induction false} LastCells(columns: seq<string>, rows: seq<Row>)
    requires rows != []
    ensures |RowTable(columns, rows)| == |rows|
    ensures RowTable(columns, rows)[|rows| - 1] == RowCells(columns, rows[|rows| - 1])
  {
    RowTableShape(columns, rows);
    if |rows| > 1 {
      LastCells(columns, rows[1..]);
    }
  }
}
