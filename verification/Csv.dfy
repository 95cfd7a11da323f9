/** The quote-aware CSV reader (src/server/integrations.js) and a printer for it to undo. */
module Csv {
  import opened Whitespace

  type Row = seq<string>

  /** The reader's variables between two iterations of its loop. */
  datatype Reader = Reader(rows: seq<Row>, row: Row, field: string, inQuotes: bool)

  const START := Reader([], [], "", false)

  predicate NonBlank(row: Row) {
    exists i :: 0 <= i < |row| && HasText(row[i])
  }

  function NonBlankRows(rows: seq<Row>): seq<Row> {
    if rows == [] then []
    else if NonBlank(rows[0]) then [rows[0]] + NonBlankRows(rows[1..])
    else NonBlankRows(rows[1..])
  }

  /** The state after the first character of `t`, and how many characters were consumed: two for
      a doubled quote. */
  function Advance(r: Reader, t: string): (x: (Reader, nat))
    requires t != ""
    ensures 1 <= x.1 <= |t|
  {
    if r.inQuotes then
      if t[0] != '"' then (r.(field := r.field + [t[0]]), 1)
      else if |t| > 1 && t[1] == '"' then (r.(field := r.field + "\""), 2)
      else (r.(inQuotes := false), 1)
    else if t[0] == '"' then (r.(inQuotes := true), 1)
    else if t[0] == ',' then (r.(row := r.row + [r.field], field := ""), 1)
    else if t[0] == '\n' then (Reader(r.rows + [r.row + [r.field]], [], "", false), 1)
    else if t[0] == '\r' then (r, 1)
    else (r.(field := r.field + [t[0]]), 1)
  }

  /** Read all of `t` from a given state. */
  function Read(r: Reader, t: string): Reader
    decreases |t|
  {
    if t == "" then r else var (r', n) := Advance(r, t); Read(r', t[n..])
  }

  /** A last line without a line break still counts, unless there is nothing on it. */
  function Closed(r: Reader): seq<Row> {
    if r.field != "" || r.row != [] then r.rows + [r.row + [r.field]] else r.rows
  }

  function Parsed(text: string): seq<Row> {
    NonBlankRows(Closed(Read(START, text)))
  }

  method ParseCSV(text: string) returns (result: seq<Row>)
    ensures result == Parsed(text)
  {
    var rows: seq<Row>, row: Row, field: string, inQuotes := [], [], "", false;
    var i := 0;
    while i < |text|
      invariant 0 <= i <= |text|
      invariant Read(START, text) == Read(Reader(rows, row, field, inQuotes), text[i..])
    {
      var ch := text[i];
      assert text[i..][1..] == text[i + 1..];
      if inQuotes {
        if ch == '"' {
          if i + 1 < |text| && text[i + 1] == '"' {
            assert text[i..][2..] == text[i + 2..];
            field := field + "\"";
            i := i + 1;
          } else {
            inQuotes := false;
          }
        } else {
          field := field + [ch];
        }
      } else if ch == '"' {
        inQuotes := true;
      } else if ch == ',' {
        row := row + [field];
        field := "";
      } else if ch == '\n' {
        row := row + [field];
        rows := rows + [row];
        row := [];
        field := "";
      } else if ch != '\r' {
        field := field + [ch];
      }
      i := i + 1;
    }
    if field != "" || |row| > 0 {
      row := row + [field];
      rows := rows + [row];
    }
    result := NonBlankRows(rows);
  }

  // ---------------------------------------------------------------- printing

  /** A part of a cell, in quotes or bare. Section 2 of RFC 4180 knows cells of one part; the reader
      takes quotes anywhere in a cell. */
  datatype Part = Part(text: string, quoted: bool)

  datatype Cell = Cell(parts: seq<Part>)

  /** A part may stand bare only without quote, comma and line feed. */
  predicate PrintablePart(p: Part) {
    p.quoted || (p.text != "" && forall i :: 0 <= i < |p.text| ==> p.text[i] !in {'"', ',', '\n'})
  }

  /** Two quoted parts side by side would be one, with a quote in it. */
  predicate PrintableParts(ps: seq<Part>) {
    && (forall i :: 0 <= i < |ps| ==> PrintablePart(ps[i]))
    && (forall i :: 0 <= i < |ps| - 1 ==> !(ps[i].quoted && ps[i + 1].quoted))
  }

  predicate Printable(c: Cell) {
    PrintableParts(c.parts)
  }

  /** Outside quotes carriage returns do not count. */
  function Kept(s: string): string {
    if s == "" then "" else (if s[0] == '\r' then "" else [s[0]]) + Kept(s[1..])
  }

  function PartText(p: Part): string {
    if p.quoted then p.text else Kept(p.text)
  }

  function TextOf(ps: seq<Part>): string {
    if ps == [] then "" else PartText(ps[0]) + TextOf(ps[1..])
  }

  /** What a cell says. */
  function Text(c: Cell): string {
    TextOf(c.parts)
  }

  function Doubled(s: string): string {
    if s == "" then "" else (if s[0] == '"' then "\"\"" else [s[0]]) + Doubled(s[1..])
  }

  function PrintPart(p: Part): string {
    if p.quoted then "\"" + Doubled(p.text) + "\"" else p.text
  }

  function PrintParts(ps: seq<Part>): string {
    if ps == [] then "" else PrintPart(ps[0]) + PrintParts(ps[1..])
  }

  function PrintCell(c: Cell): string {
    PrintParts(c.parts)
  }

  function PrintRow(cells: seq<Cell>): string
    requires cells != []
  {
    PrintCell(cells[0]) + if |cells| == 1 then "" else "," + PrintRow(cells[1..])
  }

  /** A line of cells; `crlf` says how its line break is written. */
  datatype Line = Line(cells: seq<Cell>, crlf: bool)

  function Break(line: Line): string {
    if line.crlf then "\r\n" else "\n"
  }

  function Print(lines: seq<Line>, finalBreak: bool): string
    requires forall i :: 0 <= i < |lines| ==> lines[i].cells != []
  {
    if lines == [] then ""
    else if |lines| == 1 then PrintRow(lines[0].cells) + if finalBreak then Break(lines[0]) else ""
    else PrintRow(lines[0].cells) + Break(lines[0]) + Print(lines[1..], finalBreak)
  }

  function Texts(cells: seq<Cell>): (row: Row)
    ensures |row| == |cells|
    ensures forall i :: 0 <= i < |cells| ==> row[i] == Text(cells[i])
  {
    if cells == [] then [] else [Text(cells[0])] + Texts(cells[1..])
  }

  function Contents(lines: seq<Line>): seq<Row> {
    if lines == [] then [] else [Texts(lines[0].cells)] + Contents(lines[1..])
  }

  // ---------------------------------------------------------------- the round trip

  /** What may follow a cell: nothing, a comma or a line break. */
  predicate Ends(rest: string) {
    rest == "" || rest[0] in {',', '\r', '\n'}
  }

  /** Inside quotes: one plain character, one doubled quote, the closing quote. */
  lemma ReadQuotedStep(r: Reader, c: char, rest: string)
    requires r.inQuotes
    ensures c != '"' ==> Read(r, [c] + rest) == Read(r.(field := r.field + [c]), rest)
    ensures c == '"' ==> Read(r, "\"\"" + rest) == Read(r.(field := r.field + [c]), rest)
  {
    assert ([c] + rest)[1..] == rest;
    assert ("\"\"" + rest)[2..] == rest;
  }

  /** What may follow a closing quote. */
  predicate Closes(rest: string) {
    rest == "" || rest[0] != '"'
  }

  lemma ReadClosingQuote(r: Reader, rest: string)
    requires r.inQuotes && Closes(rest)
    ensures Read(r, "\"" + rest) == Read(r.(inQuotes := false), rest)
  {
    assert ("\"" + rest)[1..] == rest;
  }

  lemma DoubledFirst(s: string, tail: string)
    requires s != ""
    ensures Doubled(s) + tail == (if s[0] == '"' then "\"\"" else [s[0]]) + (Doubled(s[1..]) + tail)
  {
  }

  function Quoted(s: string, rest: string): string {
    Doubled(s) + ("\"" + rest)
  }

  lemma ReadQuotedFirst(r: Reader, s: string, rest: string)
    requires r.inQuotes && s != ""
    ensures Read(r, Quoted(s, rest)) == Read(WithText(r, [s[0]]), Quoted(s[1..], rest))
  {
    DoubledFirst(s, "\"" + rest);
    ReadQuotedStep(r, s[0], Quoted(s[1..], rest));
  }

  /** The state in which the whole text `s` has been added to the field. */
  function WithText(r: Reader, s: string): Reader {
    r.(field := r.field + s)
  }

  lemma WithTextSplits(r: Reader, s: string)
    ensures s == "" ==> WithText(r, s) == r
    ensures s != "" ==> WithText(WithText(r, [s[0]]), s[1..]) == WithText(r, s)
  {
    if s != "" { assert r.field + [s[0]] + s[1..] == r.field + s; }
  }

  lemma ReadQuotedEnd(r: Reader, rest: string)
    requires r.inQuotes && Closes(rest)
    ensures Read(r, Quoted("", rest)) == Read(r.(inQuotes := false), rest)
  {
    assert Quoted("", rest) == "\"" + rest;
    ReadClosingQuote(r, rest);
  }

  lemma {:induction false} ReadQuoted(r: Reader, s: string, rest: string)
    requires r.inQuotes && Closes(rest)
    ensures Read(r, Quoted(s, rest)) == Read(WithText(r, s).(inQuotes := false), rest)
    decreases |s|
  {
    WithTextSplits(r, s);
    if s == "" {
      ReadQuotedEnd(r, rest);
    } else {
      ReadQuotedFirst(r, s, rest);
      ReadQuoted(WithText(r, [s[0]]), s[1..], rest);
    }
  }

  lemma ReadBareFirst(r: Reader, c: char, rest: string)
    requires !r.inQuotes && c !in {'"', ',', '\n'}
    ensures Read(r, [c] + rest) == if c == '\r' then Read(r, rest) else Read(WithText(r, [c]), rest)
  {
    assert ([c] + rest)[1..] == rest;
  }

  lemma KeptFirst(r: Reader, s: string)
    requires s != ""
    ensures WithText(r, Kept(s)) == WithText(if s[0] == '\r' then r else WithText(r, [s[0]]), Kept(s[1..]))
  {
    if s[0] == '\r' {
      assert "" + Kept(s[1..]) == Kept(s[1..]);
    } else {
      TextsAdd(r, [s[0]], Kept(s[1..]));
    }
  }

  lemma {:induction false} ReadBare(r: Reader, s: string, rest: string)
    requires !r.inQuotes && forall i :: 0 <= i < |s| ==> s[i] !in {'"', ',', '\n'}
    ensures Read(r, s + rest) == Read(WithText(r, Kept(s)), rest)
    decreases |s|
  {
    if s == "" {
      assert s + rest == rest && r.field + "" == r.field;
    } else {
      assert s + rest == [s[0]] + (s[1..] + rest);
      ReadBareFirst(r, s[0], s[1..] + rest);
      KeptFirst(r, s);
      ReadBare(if s[0] == '\r' then r else WithText(r, [s[0]]), s[1..], rest);
    }
  }

  lemma ReadPart(r: Reader, p: Part, rest: string)
    requires !r.inQuotes && PrintablePart(p) && (p.quoted ==> Closes(rest))
    ensures Read(r, PrintPart(p) + rest) == Read(WithText(r, PartText(p)), rest)
  {
    if p.quoted {
      var t := PrintPart(p) + rest;
      assert t[1..] == Quoted(p.text, rest);
      ReadQuoted(r.(inQuotes := true), p.text, rest);
    } else {
      ReadBare(r, p.text, rest);
    }
  }

  /** What follows a quoted part in its cell, or after it, closes the quotes. */
  lemma PartsClose(ps: seq<Part>, rest: string)
    requires PrintableParts(ps) && ps != [] && ps[0].quoted && Ends(rest)
    ensures Closes(PrintParts(ps[1..]) + rest)
  {
    if |ps| == 1 {
      assert PrintParts(ps[1..]) + rest == rest;
    } else {
      assert !ps[1].quoted && ps[1].text != "";
      assert (PrintParts(ps[1..]) + rest)[0] == ps[1].text[0];
    }
  }

  lemma PartsSplit(ps: seq<Part>, rest: string)
    requires ps != []
    ensures PrintParts(ps) + rest == PrintPart(ps[0]) + (PrintParts(ps[1..]) + rest)
  {
  }

  lemma TextSplits(r: Reader, ps: seq<Part>)
    ensures ps == [] ==> WithText(r, TextOf(ps)) == r
    ensures ps != [] ==> WithText(WithText(r, PartText(ps[0])), TextOf(ps[1..])) == WithText(r, TextOf(ps))
  {
    if ps == [] {
      assert WithText(r, "") == r;
    } else {
      TextsAdd(r, PartText(ps[0]), TextOf(ps[1..]));
    }
  }

  lemma TextsAdd(r: Reader, s: string, t: string)
    ensures WithText(WithText(r, s), t) == WithText(r, s + t)
  {
    assert r.field + s + t == r.field + (s + t);
  }

  lemma RestIsPrintable(ps: seq<Part>)
    requires PrintableParts(ps) && ps != []
    ensures PrintablePart(ps[0]) && PrintableParts(ps[1..])
  {
  }

  lemma ReadFirstPart(r: Reader, ps: seq<Part>, rest: string)
    requires !r.inQuotes && PrintableParts(ps) && ps != [] && Ends(rest)
    ensures Read(r, PrintParts(ps) + rest) == Read(WithText(r, PartText(ps[0])), PrintParts(ps[1..]) + rest)
  {
    PartsSplit(ps, rest);
    RestIsPrintable(ps);
    if ps[0].quoted { PartsClose(ps, rest); }
    ReadPart(r, ps[0], PrintParts(ps[1..]) + rest);
  }

  lemma {:induction false} ReadParts(r: Reader, ps: seq<Part>, rest: string)
    requires !r.inQuotes && PrintableParts(ps) && Ends(rest)
    ensures Read(r, PrintParts(ps) + rest) == Read(WithText(r, TextOf(ps)), rest)
    decreases |ps|
  {
    TextSplits(r, ps);
    if ps == [] {
      assert PrintParts(ps) + rest == rest;
    } else {
      ReadFirstPart(r, ps, rest);
      RestIsPrintable(ps);
      ReadParts(WithText(r, PartText(ps[0])), ps[1..], rest);
    }
  }

  lemma ReadCell(r: Reader, c: Cell, rest: string)
    requires !r.inQuotes && r.field == "" && Printable(c) && Ends(rest)
    ensures Read(r, PrintCell(c) + rest) == Read(r.(field := Text(c)), rest)
  {
    ReadParts(r, c.parts, rest);
    FieldIsText(r, Text(c));
  }

  lemma FieldIsText(r: Reader, text: string)
    requires r.field == ""
    ensures WithText(r, text) == r.(field := text)
  {
    assert "" + text == text;
  }

  lemma ReadComma(r: Reader, rest: string)
    requires !r.inQuotes
    ensures Read(r, "," + rest) == Read(r.(row := r.row + [r.field], field := ""), rest)
  {
    assert ("," + rest)[1..] == rest;
  }

  lemma ReadBreak(r: Reader, line: Line, rest: string)
    requires !r.inQuotes
    ensures Read(r, Break(line) + rest) == Read(AtLineStart(r.rows + [r.row + [r.field]]), rest)
  {
    if line.crlf {
      assert (Break(line) + rest)[1..] == "\n" + rest;
    }
    assert ("\n" + rest)[1..] == rest;
  }

  function AtLineStart(rows: seq<Row>): Reader {
    Reader(rows, [], "", false)
  }

  function AllButLast(cells: seq<Cell>): Row
    requires cells != []
  {
    if |cells| == 1 then [] else [Text(cells[0])] + AllButLast(cells[1..])
  }

  /** The state behind a cell and its comma, and the state in the last cell of a row. */
  function AfterCell(r: Reader, c: Cell): Reader {
    r.(row := r.row + [Text(c)], field := "")
  }

  function AtLastCell(r: Reader, cells: seq<Cell>): Reader
    requires cells != []
  {
    r.(row := r.row + AllButLast(cells), field := Text(cells[|cells| - 1]))
  }

  lemma AtLastCellSplits(r: Reader, cells: seq<Cell>)
    requires |cells| > 1
    ensures AtLastCell(AfterCell(r, cells[0]), cells[1..]) == AtLastCell(r, cells)
  {
    assert r.row + [Text(cells[0])] + AllButLast(cells[1..]) == r.row + ([Text(cells[0])] + AllButLast(cells[1..]));
  }

  lemma ReadOnlyCell(r: Reader, cells: seq<Cell>, rest: string)
    requires |cells| == 1 && Printable(cells[0]) && !r.inQuotes && r.field == "" && Ends(rest)
    ensures Read(r, PrintRow(cells) + rest) == Read(AtLastCell(r, cells), rest)
  {
    assert PrintRow(cells) == PrintCell(cells[0]);
    ReadCell(r, cells[0], rest);
    assert r.row + [] == r.row;
  }

  lemma {:induction false} ReadRow(r: Reader, cells: seq<Cell>, rest: string)
    requires cells != [] && forall i :: 0 <= i < |cells| ==> Printable(cells[i])
    requires !r.inQuotes && r.field == "" && (rest == "" || rest[0] in {'\r', '\n'})
    ensures Read(r, PrintRow(cells) + rest) == Read(AtLastCell(r, cells), rest)
    decreases |cells|
  {
    if |cells| == 1 {
      ReadOnlyCell(r, cells, rest);
    } else {
      ReadFirstCell(r, cells, rest);
      AtLastCellSplits(r, cells);
      ReadRow(AfterCell(r, cells[0]), cells[1..], rest);
    }
  }

  lemma ReadFirstCell(r: Reader, cells: seq<Cell>, rest: string)
    requires |cells| > 1 && Printable(cells[0]) && !r.inQuotes && r.field == ""
    ensures Read(r, PrintRow(cells) + rest) == Read(AfterCell(r, cells[0]), PrintRow(cells[1..]) + rest)
  {
    var more := PrintRow(cells[1..]) + rest;
    RowSplits(cells, rest);
    ReadCell(r, cells[0], "," + more);
    ReadComma(r.(field := Text(cells[0])), more);
  }

  lemma RowSplits(cells: seq<Cell>, rest: string)
    requires |cells| > 1
    ensures PrintRow(cells) + rest == PrintCell(cells[0]) + ("," + (PrintRow(cells[1..]) + rest))
  {
  }

  lemma {:induction false} WholeRow(cells: seq<Cell>)
    requires cells != []
    ensures AllButLast(cells) + [Text(cells[|cells| - 1])] == Texts(cells)
  {
    if |cells| > 1 { WholeRow(cells[1..]); }
  }

  /** Reading one line and its break from the start of a line. */
  lemma ReadLine(rows: seq<Row>, line: Line, rest: string)
    requires line.cells != [] && forall i :: 0 <= i < |line.cells| ==> Printable(line.cells[i])
    ensures Read(AtLineStart(rows), PrintRow(line.cells) + (Break(line) + rest))
         == Read(AtLineStart(rows + [Texts(line.cells)]), rest)
  {
    var cells := line.cells;
    ReadRow(AtLineStart(rows), cells, Break(line) + rest);
    assert [] + AllButLast(cells) == AllButLast(cells);
    ReadBreak(Reader(rows, AllButLast(cells), Text(cells[|cells| - 1]), false), line, rest);
    WholeRow(cells);
  }

  /** The last line may end the text without a break. */
  lemma ReadLastLine(rows: seq<Row>, line: Line)
    requires line.cells != [] && forall i :: 0 <= i < |line.cells| ==> Printable(line.cells[i])
    ensures var got := Closed(Read(AtLineStart(rows), PrintRow(line.cells)));
      got == rows + [Texts(line.cells)] || (got == rows && !NonBlank(Texts(line.cells)))
  {
    var cells := line.cells;
    assert PrintRow(cells) + "" == PrintRow(cells);
    ReadRow(AtLineStart(rows), cells, "");
    assert [] + AllButLast(cells) == AllButLast(cells);
    WholeRow(cells);
    assert !HasText("");
  }

  predicate AllPrintable(lines: seq<Line>) {
    forall i :: 0 <= i < |lines| ==>
      lines[i].cells != [] && forall j :: 0 <= j < |lines[i].cells| ==> Printable(lines[i].cells[j])
  }

  lemma PrintSplits(lines: seq<Line>, finalBreak: bool)
    requires AllPrintable(lines) && lines != [] && (|lines| > 1 || finalBreak)
    ensures Print(lines, finalBreak) == PrintRow(lines[0].cells) + (Break(lines[0]) + Print(lines[1..], finalBreak))
  {
    if |lines| == 1 { assert lines[1..] == []; }
  }

  predicate NoBlankLine(lines: seq<Line>) {
    forall i :: 0 <= i < |lines| ==> NonBlank(Texts(lines[i].cells))
  }

  lemma ContentsFirst(rows: seq<Row>, lines: seq<Line>)
    requires lines != []
    ensures rows + [Texts(lines[0].cells)] + Contents(lines[1..]) == rows + Contents(lines)
  {
  }

  lemma {:induction false} NonBlankAppend(a: seq<Row>, b: seq<Row>)
    ensures NonBlankRows(a + b) == NonBlankRows(a) + NonBlankRows(b)
  {
    if a == [] {
      assert a + b == b;
    } else {
      assert (a + b)[1..] == a[1..] + b;
      NonBlankAppend(a[1..], b);
    }
  }

  /** Of the rows read, those stay that have a cell with a character other than white space, and no
      other. */
  lemma {:induction false} BlankRowsGo(rows: seq<Row>, row: Row)
    ensures row in NonBlankRows(rows)
       <==> row in rows && exists i, k :: 0 <= i < |row| && 0 <= k < |row[i]| && !IsSpace(row[i][k])
  {
    if rows != [] {
      BlankRowsGo(rows[1..], row);
      assert row in rows <==> row == rows[0] || row in rows[1..];
    }
    if NonBlank(row) {
      var i :| 0 <= i < |row| && HasText(row[i]);
      var k :| 0 <= k < |row[i]| && !IsSpace(row[i][k]);
    }
  }

  lemma BlankRowIsDropped(rows: seq<Row>, row: Row)
    requires !NonBlank(row)
    ensures NonBlankRows(rows + [row]) == NonBlankRows(rows)
  {
    NonBlankAppend(rows, [row]);
    assert [row][1..] == [] && NonBlankRows(rows) + [] == NonBlankRows(rows);
  }

  lemma ReadOnlyLine(rows: seq<Row>, line: Line)
    requires AllPrintable([line])
    ensures NonBlankRows(Closed(Read(AtLineStart(rows), Print([line], false)))) == NonBlankRows(rows + Contents([line]))
  {
    assert [line][0] == line;
    assert PrintRow(line.cells) + "" == PrintRow(line.cells);
    assert Contents([line]) == [Texts(line.cells)];
    ReadLastLine(rows, line);
    if !NonBlank(Texts(line.cells)) { BlankRowIsDropped(rows, Texts(line.cells)); }
  }

  lemma {:induction false} ReadLines(rows: seq<Row>, lines: seq<Line>, finalBreak: bool)
    requires AllPrintable(lines)
    ensures NonBlankRows(Closed(Read(AtLineStart(rows), Print(lines, finalBreak)))) == NonBlankRows(rows + Contents(lines))
    decreases |lines|
  {
    if lines == [] {
      assert rows + [] == rows;
    } else if |lines| == 1 && !finalBreak {
      assert lines == [lines[0]];
      ReadOnlyLine(rows, lines[0]);
    } else {
      ReadFirstLine(rows, lines, finalBreak);
      ReadLines(rows + [Texts(lines[0].cells)], lines[1..], finalBreak);
      ContentsFirst(rows, lines);
    }
  }

  lemma ReadFirstLine(rows: seq<Row>, lines: seq<Line>, finalBreak: bool)
    requires AllPrintable(lines) && lines != [] && (|lines| > 1 || finalBreak)
    ensures Read(AtLineStart(rows), Print(lines, finalBreak))
         == Read(AtLineStart(rows + [Texts(lines[0].cells)]), Print(lines[1..], finalBreak))
  {
    PrintSplits(lines, finalBreak);
    ReadLine(rows, lines[0], Print(lines[1..], finalBreak));
  }

  lemma {:induction false} NothingFiltered(lines: seq<Line>)
    requires NoBlankLine(lines)
    ensures NonBlankRows(Contents(lines)) == Contents(lines)
  {
    if lines != [] { NothingFiltered(lines[1..]); }
  }

  /** Parsing any printed table gives back its rows, less those without a non-blank cell: any
      mixture of quoted and bare parts within and between cells, of LF and CRLF, with carriage
      returns anywhere, with or without a final line break. */
  lemma ParsingUndoesPrinting(lines: seq<Line>, finalBreak: bool)
    requires AllPrintable(lines)
    ensures Parsed(Print(lines, finalBreak)) == NonBlankRows(Contents(lines))
  {
    ReadLines([], lines, finalBreak);
    assert [] + Contents(lines) == Contents(lines);
  }

  /** And so, where every row has a non-blank cell, exactly the rows. */
  lemma RoundTrip(lines: seq<Line>, finalBreak: bool)
    requires AllPrintable(lines) && NoBlankLine(lines)
    ensures Parsed(Print(lines, finalBreak)) == Contents(lines)
  {
    ParsingUndoesPrinting(lines, finalBreak);
    NothingFiltered(lines);
  }
}
