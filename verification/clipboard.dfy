/** The clipboard codec of the data grid: the tab-separated printer and the stateful
    parser, and what parsing printed text gives back. */
module Clipboard {
  type Grid = seq<seq<string>>

  const CR := "\r"
  const LF := "\n"
  const CRLF := "\r\n"

  // ---------------------------------------------------------------- printer

  predicate IsSpecial(c: char) {
    c == '\t' || c == '\n' || c == '\r' || c == '"'
  }

  predicate NeedsQuotes(field: string) {
    exists i :: 0 <= i < |field| && IsSpecial(field[i])
  }

  /** Every quote of the field written twice. */
  function DoubleQuotes(field: string): string {
    if field == "" then ""
    else (if field[0] == '"' then "\"\"" else [field[0]]) + DoubleQuotes(field[1..])
  }

  function SerializeField(field: string): string {
    if NeedsQuotes(field) then "\"" + DoubleQuotes(field) + "\"" else field
  }

  function SerializeLine(line: seq<string>): string {
    if line == [] then ""
    else if |line| == 1 then SerializeField(line[0])
    else SerializeField(line[0]) + "\t" + SerializeLine(line[1..])
  }

  /** Rows joined by a chosen row separator; the grid itself always uses CRLF. */
  function SerializeWith(grid: Grid, separator: string): string {
    if grid == [] then ""
    else if |grid| == 1 then SerializeLine(grid[0])
    else SerializeLine(grid[0]) + separator + SerializeWith(grid[1..], separator)
  }

  function SerializeText(grid: Grid): string {
    SerializeWith(grid, CRLF)
  }

  // ----------------------------------------------------------------- parser

  /** What the scan has read so far. */
  datatype Scan = Scan(rows: Grid, row: seq<string>, field: string, quoted: bool)

  const START := Scan([], [], "", false)

  /** How many characters one iteration consumes from the (non-empty) rest of the text. */
  function Width(rest: string, s: Scan): (w: nat)
    requires rest != ""
    ensures 1 <= w <= |rest|
  {
    if s.quoted then
      if rest[0] == '"' && |rest| > 1 && rest[1] == '"' then 2 else 1
    else if rest[0] == '\r' && |rest| > 1 && rest[1] == '\n' then 2
    else 1
  }

  /** The scan after one iteration. */
  function Step(rest: string, s: Scan): Scan
    requires rest != ""
  {
    var c := rest[0];
    if s.quoted then
      if c != '"' then s.(field := s.field + [c])
      else if |rest| > 1 && rest[1] == '"' then s.(field := s.field + "\"")
      else s.(quoted := false)
    else if c == '"' && s.field == "" then s.(quoted := true)
    else if c == '\t' then s.(row := s.row + [s.field], field := "")
    else if c == '\r' || c == '\n' then
      s.(rows := s.rows + [s.row + [s.field]], row := [], field := "")
    else s.(field := s.field + [c])
  }

  function Run(rest: string, s: Scan): Scan
    decreases |rest|
  {
    if rest == "" then s else Run(rest[Width(rest, s)..], Step(rest, s))
  }

  /** The final row is dropped when it is a lone empty field after other rows. */
  function DropTrailingEmptyRow(rows: Grid): Grid {
    if |rows| > 1 && rows[|rows| - 1] == [""] then rows[..|rows| - 1] else rows
  }

  function Parse(text: string): Grid {
    var s := Run(text, START);
    DropTrailingEmptyRow(s.rows + [s.row + [s.field]])
  }

  /** The parser's loop. */
  method ParseText(text: string) returns (rows: Grid)
    ensures rows == Parse(text)
  {
    rows := [];
    var row: seq<string> := [];
    var field := "";
    var quoted := false;
    var i := 0;
    while i < |text|
      invariant 0 <= i <= |text|
      invariant Run(text, START) == Run(text[i..], Scan(rows, row, field, quoted))
    {
      ghost var rest, before := text[i..], Scan(rows, row, field, quoted);
      ghost var start := i;
      var ch := text[i];
      if quoted {
        if ch == '"' {
          if i + 1 < |text| && text[i + 1] == '"' {
            field := field + "\"";
            i := i + 2;
          } else {
            quoted := false;
            i := i + 1;
          }
        } else {
          field := field + [ch];
          i := i + 1;
        }
      } else if ch == '"' && field == "" {
        quoted := true;
        i := i + 1;
      } else if ch == '\t' {
        row := row + [field];
        field := "";
        i := i + 1;
      } else if ch == '\r' || ch == '\n' {
        if ch == '\r' && i + 1 < |text| && text[i + 1] == '\n' {
          i := i + 1;
        }
        row := row + [field];
        rows := rows + [row];
        row := [];
        field := "";
        i := i + 1;
      } else {
        field := field + [ch];
        i := i + 1;
      }
      assert i == start + Width(rest, before);
      assert rest[Width(rest, before)..] == text[i..];
      assert Scan(rows, row, field, quoted) == Step(rest, before);
    }
    row := row + [field];
    rows := rows + [row];
    if |rows| > 1 && |rows[|rows| - 1]| == 1 && rows[|rows| - 1][0] == "" {
      rows := rows[..|rows| - 1];
    }
  }

  // -------------------------------------------------------------- round trip

  /** What may follow a field: nothing, or a delimiter. */
  predicate AtDelimiter(rest: string) {
    rest == "" || rest[0] == '\t' || rest[0] == '\r' || rest[0] == '\n'
  }

  predicate IsSeparator(separator: string) {
    separator == LF || separator == CR || separator == CRLF
  }

  /** A field without special characters is read back verbatim. */
  lemma {:induction false} RunBare(field: string, rest: string, s: Scan)
    requires !s.quoted && !NeedsQuotes(field)
    ensures Run(field + rest, s) == Run(rest, s.(field := s.field + field))
    decreases |field|
  {
    if field == "" {
      assert field + rest == rest;
      assert s.field + field == s.field;
    } else {
      var text := field + rest;
      assert !IsSpecial(field[0]);
      assert text[0] == field[0] && text[1..] == field[1..] + rest;
      assert forall i :: 0 <= i < |field[1..]| ==> field[1..][i] == field[i + 1];
      RunBare(field[1..], rest, Step(text, s));
      assert s.field + [field[0]] + field[1..] == s.field + field;
    }
  }

  /** The body of a quoted field is read back with its doubled quotes halved. */
  lemma {:induction false} RunQuoted(field: string, rest: string, s: Scan)
    requires s.quoted && AtDelimiter(rest)
    ensures Run(DoubleQuotes(field) + "\"" + rest, s)
         == Run(rest, s.(field := s.field + field, quoted := false))
    decreases |field|
  {
    var text := DoubleQuotes(field) + "\"" + rest;
    if field == "" {
      assert text == "\"" + rest;
      assert text[1..] == rest;
      assert s.field + field == s.field;
    } else {
      var tail := DoubleQuotes(field[1..]) + "\"" + rest;
      if field[0] == '"' {
        assert text == "\"\"" + tail;
        assert text[2..] == tail;
      } else {
        assert text == [field[0]] + tail;
        assert text[1..] == tail;
      }
      RunQuoted(field[1..], rest, Step(text, s));
      assert s.field + [field[0]] + field[1..] == s.field + field;
    }
  }

  lemma {:induction false} RunField(field: string, rest: string, s: Scan)
    requires !s.quoted && s.field == "" && AtDelimiter(rest)
    ensures Run(SerializeField(field) + rest, s) == Run(rest, s.(field := field))
  {
    if NeedsQuotes(field) {
      var text := SerializeField(field) + rest;
      assert text[1..] == DoubleQuotes(field) + "\"" + rest;
      RunQuoted(field, rest, Step(text, s));
      assert "" + field == field;
    } else {
      RunBare(field, rest, s);
      assert "" + field == field;
    }
  }

  /** The scan once a line has been read up to its last field, which is still open. */
  ghost function Opened(s: Scan, line: seq<string>): Scan
    requires line != []
  {
    s.(row := s.row + line[..|line| - 1], field := line[|line| - 1])
  }

  /** The scan once a grid has been read up to the last field of its last line. */
  ghost function OpenedGrid(s: Scan, grid: Grid): Scan
    requires grid != [] && grid[|grid| - 1] != []
  {
    Opened(s.(rows := s.rows + grid[..|grid| - 1]), grid[|grid| - 1])
  }

  lemma OpenedCons(s: Scan, line: seq<string>)
    requires |line| > 1
    ensures Opened(s.(row := s.row + [line[0]]), line[1..]) == Opened(s, line)
  {
    assert s.row + [line[0]] + line[1..][..|line| - 2] == s.row + line[..|line| - 1];
  }

  lemma OpenedGridCons(s: Scan, grid: Grid)
    requires |grid| > 1 && grid[|grid| - 1] != []
    ensures OpenedGrid(s.(rows := s.rows + [grid[0]]), grid[1..]) == OpenedGrid(s, grid)
  {
    assert s.rows + [grid[0]] + grid[1..][..|grid| - 2] == s.rows + grid[..|grid| - 1];
  }

  /** The scan after a row separator. */
  ghost function Closed(s: Scan): Scan {
    s.(rows := s.rows + [s.row + [s.field]], row := [], field := "")
  }

  lemma ClosedOpened(s: Scan, line: seq<string>)
    requires line != [] && s.row == [] && s.field == ""
    ensures Closed(Opened(s, line)) == s.(rows := s.rows + [line])
  {
    assert [] + line[..|line| - 1] + [line[|line| - 1]] == line;
  }

  lemma ClosedOpenedGrid(grid: Grid)
    requires grid != [] && grid[|grid| - 1] != []
    ensures Closed(OpenedGrid(START, grid)) == Scan(grid, [], "", false)
  {
    var n := |grid| - 1;
    ClosedOpened(START.(rows := [] + grid[..n]), grid[n]);
    assert [] + grid[..n] + [grid[n]] == grid;
  }

  /** A field followed by a tab joins the open row. */
  lemma RunTabbed(field: string, after: string, s: Scan)
    requires !s.quoted && s.field == ""
    ensures Run(SerializeField(field) + ("\t" + after), s) == Run(after, s.(row := s.row + [field]))
  {
    var tail := "\t" + after;
    RunField(field, tail, s);
    assert tail[1..] == after;
  }

  lemma Regroup(a: string, b: string, c: string, d: string)
    ensures (a + b + c) + d == a + (b + (c + d))
  {
  }

  lemma SerializeLineCons(line: seq<string>, rest: string)
    requires |line| > 1
    ensures SerializeLine(line) + rest == SerializeField(line[0]) + ("\t" + (SerializeLine(line[1..]) + rest))
  {
    Regroup(SerializeField(line[0]), "\t", SerializeLine(line[1..]), rest);
  }

  /** A printed line is read back field by field, the last field still open. */
  lemma {:induction false} RunLine(line: seq<string>, rest: string, s: Scan)
    requires line != [] && !s.quoted && s.field == "" && AtDelimiter(rest)
    ensures Run(SerializeLine(line) + rest, s) == Run(rest, Opened(s, line))
    decreases |line|
  {
    if |line| == 1 {
      RunField(line[0], rest, s);
      assert s.row + line[..0] == s.row;
    } else {
      SerializeLineCons(line, rest);
      RunTabbed(line[0], SerializeLine(line[1..]) + rest, s);
      RunLine(line[1..], rest, s.(row := s.row + [line[0]]));
      OpenedCons(s, line);
    }
  }

  predicate NotAtLineFeed(rest: string) {
    rest == "" || rest[0] != '\n'
  }

  /** Printed text never starts with a raw line feed: such a field is quoted. */
  lemma FieldStart(field: string)
    ensures NotAtLineFeed(SerializeField(field))
  {
    if field != "" && field[0] == '\n' {
      assert IsSpecial(field[0]);
    }
  }

  lemma LineStart(line: seq<string>)
    ensures NotAtLineFeed(SerializeLine(line))
  {
    if line != [] {
      FieldStart(line[0]);
      if |line| > 1 {
        assert SerializeLine(line) == SerializeField(line[0]) + ("\t" + SerializeLine(line[1..]));
      }
    }
  }

  lemma GridStart(grid: Grid, rest: string)
    requires NotAtLineFeed(rest)
    ensures NotAtLineFeed(SerializeWith(grid, CR) + rest)
  {
    if grid == [] {
      assert SerializeWith(grid, CR) + rest == rest;
    } else {
      LineStart(grid[0]);
      if |grid| > 1 {
        var tail := SerializeWith(grid[1..], CR) + rest;
        assert SerializeWith(grid, CR) + rest == SerializeLine(grid[0]) + (CR + tail);
      }
    }
  }

  /** A row separator closes the open row, provided a lone CR is not followed by LF. */
  lemma RunSeparator(separator: string, rest: string, s: Scan)
    requires IsSeparator(separator) && !s.quoted
    requires separator == CR ==> NotAtLineFeed(rest)
    ensures Run(separator + rest, s) == Run(rest, Closed(s))
  {
    var text := separator + rest;
    assert text[|separator|..] == rest;
  }

  lemma RunFirstLine(line: seq<string>, separator: string, after: string, s: Scan)
    requires line != [] && !s.quoted && s.field == "" && s.row == []
    requires IsSeparator(separator)
    requires separator == CR ==> NotAtLineFeed(after)
    ensures Run(SerializeLine(line) + (separator + after), s) == Run(after, s.(rows := s.rows + [line]))
  {
    RunLine(line, separator + after, s);
    RunSeparator(separator, after, Opened(s, line));
    ClosedOpened(s, line);
  }

  lemma SerializeCons(grid: Grid, separator: string, rest: string)
    requires |grid| > 1
    ensures SerializeWith(grid, separator) + rest
         == SerializeLine(grid[0]) + (separator + (SerializeWith(grid[1..], separator) + rest))
  {
    Regroup(SerializeLine(grid[0]), separator, SerializeWith(grid[1..], separator), rest);
  }

  lemma {:induction false} RunGrid(grid: Grid, separator: string, rest: string, s: Scan)
    requires grid != [] && forall i :: 0 <= i < |grid| ==> grid[i] != []
    requires IsSeparator(separator) && AtDelimiter(rest)
    requires separator == CR ==> NotAtLineFeed(rest)
    requires !s.quoted && s.field == "" && s.row == []
    ensures Run(SerializeWith(grid, separator) + rest, s) == Run(rest, OpenedGrid(s, grid))
    decreases |grid|
  {
    if |grid| == 1 {
      RunLine(grid[0], rest, s);
      assert s.rows + grid[..0] == s.rows;
    } else {
      var after := SerializeWith(grid[1..], separator) + rest;
      var next := s.(rows := s.rows + [grid[0]]);
      if separator == CR { GridStart(grid[1..], rest); }
      RunFirstLine(grid[0], separator, after, s);
      SerializeCons(grid, separator, rest);
      RunGrid(grid[1..], separator, rest, next);
      OpenedGridCons(s, grid);
    }
  }

  /** Parsing printed text gives the grid back, up to a final lone empty field. */
  lemma RoundTrip(grid: Grid, separator: string)
    requires grid != [] && forall i :: 0 <= i < |grid| ==> grid[i] != []
    requires IsSeparator(separator)
    ensures Parse(SerializeWith(grid, separator)) == DropTrailingEmptyRow(grid)
  {
    var text := SerializeWith(grid, separator);
    RunGrid(grid, separator, "", START);
    assert text + "" == text;
    ClosedOpenedGrid(grid);
  }

  /** With one row separator appended, as spreadsheets do, the round trip is exact. */
  lemma RoundTripTerminated(grid: Grid, separator: string)
    requires grid != [] && forall i :: 0 <= i < |grid| ==> grid[i] != []
    requires IsSeparator(separator)
    ensures Parse(SerializeWith(grid, separator) + separator) == grid
  {
    RunGrid(grid, separator, separator, START);
    RunSeparator(separator, "", OpenedGrid(START, grid));
    assert separator + "" == separator;
    ClosedOpenedGrid(grid);
    assert [] + [""] == [""];
    assert (grid + [[""]])[..|grid|] == grid;
  }

  /** The exact condition under which copying loses nothing. */
  lemma RoundTripExactly(grid: Grid)
    requires grid != [] && forall i :: 0 <= i < |grid| ==> grid[i] != []
    ensures Parse(SerializeText(grid)) == grid <==> !(|grid| > 1 && grid[|grid| - 1] == [""])
  {
    RoundTrip(grid, CRLF);
  }

  /** LF, CR and CRLF rows parse the same. */
  lemma SeparatorIrrelevant(grid: Grid, a: string, b: string)
    requires grid != [] && forall i :: 0 <= i < |grid| ==> grid[i] != []
    requires IsSeparator(a) && IsSeparator(b)
    ensures Parse(SerializeWith(grid, a)) == Parse(SerializeWith(grid, b))
  {
    RoundTrip(grid, a);
    RoundTrip(grid, b);
  }

  // ------------------------------------------------------ the format itself

  /** No tab, line end or quote in the field. */
  predicate Plain(field: string) {
    forall i :: 0 <= i < |field| ==> field[i] !in "\t\n\r\""
  }

  function Joined(parts: seq<string>, separator: string): string {
    if parts == [] then "" else if |parts| == 1 then parts[0]
    else parts[0] + separator + Joined(parts[1..], separator)
  }

  /** Fields joined by tabs, rows by the separator. */
  function Tabbed(grid: Grid, separator: string): string {
    Joined(seq(|grid|, i requires 0 <= i < |grid| => Joined(grid[i], "\t")), separator)
  }

  lemma PlainNeedsNoQuotes(field: string)
    ensures Plain(field) <==> !NeedsQuotes(field)
  {
    forall i | 0 <= i < |field| ensures field[i] !in "\t\n\r\"" <==> !IsSpecial(field[i]) {
      assert "\t\n\r\"" == ['\t', '\n', '\r', '"'];
    }
  }

  lemma {:induction false} PlainLine(line: seq<string>)
    requires forall j :: 0 <= j < |line| ==> Plain(line[j])
    ensures SerializeLine(line) == Joined(line, "\t")
  {
    if line != [] {
      PlainNeedsNoQuotes(line[0]);
      PlainLine(line[1..]);
    }
  }

  lemma {:induction false} PlainPrint(grid: Grid, separator: string)
    requires forall i, j :: 0 <= i < |grid| && 0 <= j < |grid[i]| ==> Plain(grid[i][j])
    ensures SerializeWith(grid, separator) == Tabbed(grid, separator)
  {
    if grid != [] {
      var lines := seq(|grid|, i requires 0 <= i < |grid| => Joined(grid[i], "\t"));
      PlainLine(grid[0]);
      PlainPrint(grid[1..], separator);
      assert lines[1..] == seq(|grid[1..]|, i requires 0 <= i < |grid[1..]| => Joined(grid[1..][i], "\t"));
    }
  }

  /** Plain fields are printed as they are, between tabs and CRLF, and text of that form parses
      back into them whichever line end it uses; a final empty line is no row. */
  lemma PlainText(grid: Grid, separator: string)
    requires grid != [] && forall i :: 0 <= i < |grid| ==> grid[i] != []
    requires forall i, j :: 0 <= i < |grid| && 0 <= j < |grid[i]| ==> Plain(grid[i][j])
    requires separator in ["\n", "\r", "\r\n"]
    ensures SerializeText(grid) == Tabbed(grid, "\r\n")
    ensures var last := |grid| - 1;
      Parse(Tabbed(grid, separator)) == if last > 0 && grid[last] == [""] then grid[..last] else grid
  {
    PlainPrint(grid, "\r\n");
    PlainPrint(grid, separator);
    RoundTrip(grid, separator);
  }

  lemma {:induction false} DoublesConcat(a: string, b: string)
    ensures DoubleQuotes(a + b) == DoubleQuotes(a) + DoubleQuotes(b)
  {
    if a == "" {
      assert a + b == b;
    } else {
      assert (a + b)[1..] == a[1..] + b;
      DoublesConcat(a[1..], b);
    }
  }

  lemma {:induction false} DoublesNone(a: string)
    requires '"' !in a
    ensures DoubleQuotes(a) == a
  {
    if a != "" {
      assert a[0] in a && forall c :: c in a[1..] ==> c in a;
      DoublesNone(a[1..]);
    }
  }

  /** A field with a quote is printed between quotes with that quote doubled. */
  lemma PrintsQuote(a: string, b: string)
    requires '"' !in a && '"' !in b
    ensures SerializeField(a + "\"" + b) == "\"" + a + "\"\"" + b + "\""
  {
    var field := a + "\"" + b;
    assert field[|a|] == '"';
    assert NeedsQuotes(field) by { assert IsSpecial(field[|a|]); }
    assert DoubleQuotes(field) == a + "\"\"" + b by {
      DoublesConcat(a + "\"", b);
      DoublesConcat(a, "\"");
      DoublesNone(a);
      DoublesNone(b);
      assert DoubleQuotes("\"") == "\"\"";
    }
    var doubled := a + "\"\"" + b;
    assert "\"" + doubled + "\"" == "\"" + a + "\"\"" + b + "\"";
  }

  /** A field with a tab or a line end is printed between quotes as it is. */
  lemma PrintsDelimiter(a: string, i: nat)
    requires '"' !in a && i < |a| && (a[i] == '\t' || a[i] == '\n' || a[i] == '\r')
    ensures SerializeField(a) == "\"" + a + "\""
  {
    assert IsSpecial(a[i]);
    DoublesNone(a);
  }

  /** Until the next delimiter, a field already begun is read letter by letter. */
  lemma {:induction false} RunBegun(field: string, rest: string, s: Scan)
    requires !s.quoted && s.field != "" && forall i :: 0 <= i < |field| ==> field[i] !in "\t\n\r"
    ensures Run(field + rest, s) == Run(rest, s.(field := s.field + field))
    decreases |field|
  {
    if field == "" {
      assert field + rest == rest && s.field + field == s.field;
    } else {
      var text := field + rest;
      assert "\t\n\r" == ['\t', '\n', '\r'];
      assert field[0] !in "\t\n\r";
      assert text[0] == field[0] && text[1..] == field[1..] + rest;
      assert forall i :: 0 <= i < |field[1..]| ==> field[1..][i] == field[i + 1];
      RunBegun(field[1..], rest, Step(text, s));
      assert s.field + [field[0]] + field[1..] == s.field + field;
    }
  }

  /** A quote opens a quoted field only at its beginning; elsewhere it is a character. */
  lemma InnerQuotesStay(first: char, field: string)
    requires first !in "\t\n\r\"" && forall i :: 0 <= i < |field| ==> field[i] !in "\t\n\r"
    ensures Parse([first] + field) == [[[first] + field]]
  {
    assert "\t\n\r\"" == ['\t', '\n', '\r', '"'];
    var text := [first] + field;
    assert text[1..] == field && field + "" == field;
    RunBegun(field, "", Step(text, START));
    assert Step(text, START).field == [first];
    OneField(text, text);
  }

  lemma OneField(text: string, field: string)
    requires Run(text, START) == START.(field := field)
    ensures Parse(text) == [[field]]
  {
    var row: seq<string>, rows: Grid := [], [];
    assert row + [field] == [field];
    assert rows + [[field]] == [[field]];
  }

  lemma {:induction false} RunOpen(field: string, s: Scan)
    requires s.quoted && '"' !in field
    ensures Run(field, s) == s.(field := s.field + field)
    decreases |field|
  {
    if field == "" {
      assert s.field + field == s.field;
    } else {
      assert field[0] in field && forall c :: c in field[1..] ==> c in field;
      RunOpen(field[1..], Step(field, s));
      assert s.field + [field[0]] + field[1..] == s.field + field;
    }
  }

  /** A quoted field that is never closed takes the rest of the text, delimiters included. */
  lemma UnclosedTakesAll(field: string)
    requires '"' !in field
    ensures Parse("\"" + field) == [[field]]
  {
    var text := "\"" + field;
    assert text[1..] == field && "" + field == field;
    RunOpen(field, Step(text, START));
    var end := Run(text, START);
    assert end.row + [end.field] == [field];
    assert end.rows + [[field]] == [[field]];
  }
}
