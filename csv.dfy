/** The CSV writer behind the report downloads (lib/csv.ts): cells that
    hold a double quote, a comma or a line feed are quoted with inner
    quotes doubled, cells are joined by commas, rows by line feeds, and a
    byte-order mark leads unless switched off. A reader for that format
    is the writer's partner: reading what was written gives back the
    cells. */
module Csv {
  import opened Wrappers
  import opened Text

  const BOM: char := '\U{FEFF}'

  /** The characters that force a cell into quotes. A carriage return is
      not one of them. */
  predicate NeedsQuotes(cell: string) {
    '"' in cell || ',' in cell || '\n' in cell
  }

  /** Every double quote written twice. */
  function DoubleQuotes(s: string): (r: string)
    ensures |r| >= |s|
    ensures !('"' in s) ==> r == s
  {
    if s == [] then []
    else if s[0] == '"' then "\"\"" + DoubleQuotes(s[1..])
    else [s[0]] + DoubleQuotes(s[1..])
  }

  /** One cell as written; a null value is the empty cell. */
  function Cell(value: Option<string>): (r: string)
    ensures !NeedsQuotes(value.GetOr("")) ==> r == value.GetOr("")
    ensures NeedsQuotes(value.GetOr("")) ==> |r| >= 2 && r[0] == '"' && r[|r| - 1] == '"'
  {
    var cell := value.GetOr("");
    if NeedsQuotes(cell) then "\"" + DoubleQuotes(cell) + "\"" else cell
  }

  /** A row: its cells joined by commas. */
  function RowText(row: seq<Option<string>>): string {
    Join(seq(|row|, i requires 0 <= i < |row| => Cell(row[i])), ',')
  }

  /** The rows joined by line feeds, without the byte-order mark. */
  function Content(rows: seq<seq<Option<string>>>): string {
    Join(seq(|rows|, i requires 0 <= i < |rows| => RowText(rows[i])), '\n')
  }

  /** `toCSV`; `includeBom` is the option, absent when not given. */
  function ToCsv(rows: seq<seq<Option<string>>>, includeBom: Option<bool>): (r: string)
    ensures includeBom != Some(false) ==> |r| >= 1 && r[0] == BOM && r[1..] == Content(rows)
    ensures includeBom == Some(false) ==> r == Content(rows)
  {
    var content := Content(rows);
    if includeBom.GetOr(true) then [BOM] + content else content
  }

  // ---------------------------------------------------------------- reading it back

  /** The body of a quoted cell, `s` starting just after the opening
      quote: the unescaped text and what follows the closing quote, or
      None when the quote is never closed. */
  function QuotedBody(s: string): (r: Option<(string, string)>)
    ensures r.Some? ==> |r.value.1| < |s|
    decreases |s|
  {
    if s == [] then None
    else if s[0] == '"' then
      if |s| >= 2 && s[1] == '"' then
        match QuotedBody(s[2..])
        case Some((body, rest)) => Some(("\"" + body, rest))
        case None => None
      else Some(("", s[1..]))
    else
      match QuotedBody(s[1..])
      case Some((body, rest)) => Some(([s[0]] + body, rest))
      case None => None
  }

  /** An unquoted cell: everything up to the next comma or line feed. */
  function PlainCell(s: string): (r: (string, string))
    ensures |r.1| <= |s|
    ensures r.1 == [] || r.1[0] == ',' || r.1[0] == '\n'
  {
    if s == [] || s[0] == ',' || s[0] == '\n' then ("", s)
    else
      var (cell, rest) := PlainCell(s[1..]);
      ([s[0]] + cell, rest)
  }

  /** One cell and what follows it. */
  function ReadCell(s: string): (r: Option<(string, string)>)
    ensures r.Some? ==> |r.value.1| <= |s|
  {
    if s != [] && s[0] == '"' then QuotedBody(s[1..]) else Some(PlainCell(s))
  }

  /** The cells of one row and what follows it (nothing, or a line feed
      and the next rows). */
  function ReadRow(s: string): (r: Option<(seq<string>, string)>)
    ensures r.Some? ==> |r.value.1| <= |s|
    decreases |s|
  {
    match ReadCell(s)
    case None => None
    case Some((cell, rest)) =>
      if rest != [] && rest[0] == ',' then
        match ReadRow(rest[1..])
        case Some((cells, after)) => Some(([cell] + cells, after))
        case None => None
      else if rest == [] || rest[0] == '\n' then Some(([cell], rest))
      else None
  }

  /** All rows of a document body. */
  function ReadRows(s: string): (r: Option<seq<seq<string>>>)
    ensures r.Some? ==> |r.value| >= 1
    decreases |s|
  {
    match ReadRow(s)
    case None => None
    case Some((cells, rest)) =>
      if rest == [] then Some([cells])
      else
        match ReadRows(rest[1..])
        case Some(more) => Some([cells] + more)
        case None => None
  }

  /** What a reader recovers from a row: each cell's text, null as empty. */
  function Values(row: seq<Option<string>>): (r: seq<string>)
    ensures |r| == |row|
  {
    seq(|row|, i requires 0 <= i < |row| => row[i].GetOr(""))
  }

  /** The closing quote ends the body. */
  lemma QuotedBodyEnds(rest: string)
    requires rest == [] || rest[0] != '"'
    ensures QuotedBody("\"" + rest) == Some(("", rest))
  {
    assert ("\"" + rest)[1..] == rest;
  }

  /** A doubled quote is one quote of the body. */
  lemma QuotedBodyQuote(x: string, rest: string)
    requires x != [] && x[0] == '"'
    requires QuotedBody(DoubleQuotes(x[1..]) + "\"" + rest) == Some((x[1..], rest))
    ensures QuotedBody(DoubleQuotes(x) + "\"" + rest) == Some((x, rest))
  {
    var t := DoubleQuotes(x[1..]) + "\"" + rest;
    var s := "\"\"" + t;
    assert DoubleQuotes(x) + "\"" + rest == s;
    assert s[2..] == t;
    assert "\"" + x[1..] == x;
  }

  /** Any other character is itself. */
  lemma QuotedBodyChar(x: string, rest: string)
    requires x != [] && x[0] != '"'
    requires QuotedBody(DoubleQuotes(x[1..]) + "\"" + rest) == Some((x[1..], rest))
    ensures QuotedBody(DoubleQuotes(x) + "\"" + rest) == Some((x, rest))
  {
    var t := DoubleQuotes(x[1..]) + "\"" + rest;
    var s := [x[0]] + t;
    assert DoubleQuotes(x) + "\"" + rest == s;
    assert s[1..] == t;
    assert [x[0]] + x[1..] == x;
  }

  /** A quoted body is read back up to its closing quote. */
  lemma {:induction false} QuotedBodyOfDoubled(x: string, rest: string)
    requires rest == [] || rest[0] != '"'
    ensures QuotedBody(DoubleQuotes(x) + "\"" + rest) == Some((x, rest))
    decreases |x|
  {
    if x == [] {
      assert DoubleQuotes(x) + "\"" + rest == "\"" + rest;
      QuotedBodyEnds(rest);
    } else {
      QuotedBodyOfDoubled(x[1..], rest);
      if x[0] == '"' {
        QuotedBodyQuote(x, rest);
      } else {
        QuotedBodyChar(x, rest);
      }
    }
  }

  /** An unquoted cell is read back up to the separator after it. */
  lemma {:induction false} PlainCellOf(x: string, rest: string)
    requires ',' !in x && '\n' !in x
    requires rest == [] || rest[0] == ',' || rest[0] == '\n'
    ensures PlainCell(x + rest) == (x, rest)
  {
    if x == [] {
      assert x + rest == rest;
    } else {
      PlainCellOf(x[1..], rest);
      assert (x + rest)[1..] == x[1..] + rest;
      assert [x[0]] + x[1..] == x;
    }
  }

  /** A quoted cell is read back up to its closing quote. */
  lemma QuotedCellReads(c: string, rest: string)
    requires rest == [] || rest[0] == ',' || rest[0] == '\n'
    ensures ReadCell("\"" + DoubleQuotes(c) + "\"" + rest) == Some((c, rest))
  {
    var s := "\"" + DoubleQuotes(c) + "\"" + rest;
    assert s[0] == '"';
    assert s[1..] == DoubleQuotes(c) + "\"" + rest;
    QuotedBodyOfDoubled(c, rest);
  }

  /** A bare cell is read back up to the separator after it. */
  lemma PlainCellReads(c: string, rest: string)
    requires !NeedsQuotes(c)
    requires rest == [] || rest[0] == ',' || rest[0] == '\n'
    ensures ReadCell(c + rest) == Some((c, rest))
  {
    PlainCellOf(c, rest);
    if c != [] {
      assert (c + rest)[0] == c[0];
    } else {
      assert c + rest == rest;
    }
  }

  /** Every written cell is read back as its value. */
  lemma CellRoundTrip(value: Option<string>, rest: string)
    requires rest == [] || rest[0] == ',' || rest[0] == '\n'
    ensures ReadCell(Cell(value) + rest) == Some((value.GetOr(""), rest))
  {
    var c := value.GetOr("");
    if NeedsQuotes(c) {
      QuotedCellReads(c, rest);
    } else {
      PlainCellReads(c, rest);
    }
  }

  /** A row of two or more cells is its first cell, a comma and the rest. */
  lemma RowTextCons(row: seq<Option<string>>)
    requires |row| >= 2
    ensures RowText(row) == Cell(row[0]) + [','] + RowText(row[1..])
    ensures Values(row) == [row[0].GetOr("")] + Values(row[1..])
  {
    var cells := seq(|row|, i requires 0 <= i < |row| => Cell(row[i]));
    assert cells[1..] == seq(|row[1..]|, i requires 0 <= i < |row[1..]| => Cell(row[1..][i]));
  }

  /** A cell followed by a comma and a readable row reads as one row. */
  lemma ReadRowCons(s: string, cell: string, tail: string, cells: seq<string>, rest: string)
    requires ReadCell(s) == Some((cell, [','] + tail))
    requires ReadRow(tail) == Some((cells, rest))
    ensures ReadRow(s) == Some(([cell] + cells, rest))
  {
    assert ([','] + tail)[1..] == tail;
  }

  /** Every written row of at least one cell is read back as its values. */
  lemma {:induction false} RowRoundTrip(row: seq<Option<string>>, rest: string)
    requires |row| >= 1
    requires rest == [] || rest[0] == '\n'
    ensures ReadRow(RowText(row) + rest) == Some((Values(row), rest))
  {
    if |row| == 1 {
      assert RowText(row) == Cell(row[0]);
      CellRoundTrip(row[0], rest);
      assert Values(row) == [row[0].GetOr("")];
    } else {
      var tail := RowText(row[1..]) + rest;
      RowTextCons(row);
      assert RowText(row) + rest == Cell(row[0]) + ([','] + tail);
      CellRoundTrip(row[0], [','] + tail);
      RowRoundTrip(row[1..], rest);
      ReadRowCons(RowText(row) + rest, row[0].GetOr(""), tail, Values(row[1..]), rest);
    }
  }

  /** A document of two or more rows is its first row, a line feed and
      the rest. */
  lemma ContentCons(rows: seq<seq<Option<string>>>)
    requires |rows| >= 2
    ensures Content(rows) == RowText(rows[0]) + ['\n'] + Content(rows[1..])
  {
    var texts := seq(|rows|, i requires 0 <= i < |rows| => RowText(rows[i]));
    assert texts[1..] == seq(|rows[1..]|, i requires 0 <= i < |rows[1..]| => RowText(rows[1..][i]));
  }

  /** A row followed by a line feed and readable rows reads as one more row. */
  lemma ReadRowsCons(s: string, cells: seq<string>, tail: string, more: seq<seq<string>>)
    requires ReadRow(s) == Some((cells, ['\n'] + tail))
    requires ReadRows(tail) == Some(more)
    ensures ReadRows(s) == Some([cells] + more)
  {
    assert (['\n'] + tail)[1..] == tail;
  }

  /** Every written document whose rows each have a cell is read back as
      the rows' values. (With no rows, or a row of no cells, the text is
      the same as for one empty cell, so those cannot be told apart.) */
  lemma {:induction false} ContentRoundTrip(rows: seq<seq<Option<string>>>)
    requires |rows| >= 1
    requires forall i :: 0 <= i < |rows| ==> |rows[i]| >= 1
    ensures ReadRows(Content(rows)) == Some(seq(|rows|, i requires 0 <= i < |rows| => Values(rows[i])))
  {
    var expected := seq(|rows|, i requires 0 <= i < |rows| => Values(rows[i]));
    if |rows| == 1 {
      assert Content(rows) == RowText(rows[0]) + [];
      RowRoundTrip(rows[0], []);
      assert expected == [Values(rows[0])];
    } else {
      var tail := Content(rows[1..]);
      ContentCons(rows);
      assert Content(rows) == RowText(rows[0]) + (['\n'] + tail);
      RowRoundTrip(rows[0], ['\n'] + tail);
      ContentRoundTrip(rows[1..]);
      var more := seq(|rows[1..]|, i requires 0 <= i < |rows[1..]| => Values(rows[1..][i]));
      ReadRowsCons(Content(rows), Values(rows[0]), tail, more);
      assert expected == [Values(rows[0])] + more;
    }
  }

  /** A carriage return does not force quotes: it is written bare. */
  lemma CarriageReturnUnquoted()
    ensures Cell(Some("a\rb")) == "a\rb"
  {
  }
}
