/**
  The chart's CSV: the text `plotCsv` of data/static/venture.js builds, and a
  reader for section 2 of RFC 4180 that takes LF as the line break.
 */
module Csv {
  import opened Options
  import opened Text

  // ------------------------------------------------------------------ writing

  predicate NeedsQuotes(cell: string) {
    '"' in cell || ',' in cell || '\n' in cell
  }

  /** text.replace(/"/g, "\"\"") */
  function Doubled(cell: string): string {
    if cell == "" then "" else (if cell[0] == '"' then "\"\"" else [cell[0]]) + Doubled(cell[1..])
  }

  function Quote(cell: string): string {
    if NeedsQuotes(cell) then "\"" + Doubled(cell) + "\"" else cell
  }

  function QuoteAll(row: seq<string>): seq<string> {
    seq(|row|, i requires 0 <= i < |row| => Quote(row[i]))
  }

  function Line(row: seq<string>): string {
    Join(QuoteAll(row), ",")
  }

  function Lines(rows: seq<seq<string>>): seq<string> {
    seq(|rows|, i requires 0 <= i < |rows| => Line(rows[i]))
  }

  function Write(rows: seq<seq<string>>): string {
    Join(Lines(rows), "\n") + "\n"
  }

  /** A chart's columns of text are as long as its labels. */
  predicate Square(labels: seq<string>, columns: seq<seq<string>>) {
    forall k | 0 <= k < |columns| :: |columns[k]| == |labels|
  }

  /** A point's label, then each series' text for it. */
  function RowAt(labels: seq<string>, columns: seq<seq<string>>, i: nat): seq<string>
    requires Square(labels, columns) && i < |labels|
  {
    [labels[i]] + seq(|columns|, k requires 0 <= k < |columns| => columns[k][i])
  }

  /** The chart's table under its header. */
  function Rows(names: seq<string>, labels: seq<string>, columns: seq<seq<string>>): seq<seq<string>>
    requires Square(labels, columns)
  {
    [["Point"] + names] + seq(|labels|, i requires 0 <= i < |labels| => RowAt(labels, columns, i))
  }

  /** The header, then for each point its label and every series' text for it. */
  lemma RowsAre(names: seq<string>, labels: seq<string>, columns: seq<seq<string>>, i: nat, k: nat)
    requires Square(labels, columns) && i < |labels| && k < |columns|
    ensures var rows := Rows(names, labels, columns);
            && |rows| == |labels| + 1 && rows[0] == ["Point"] + names
            && |rows[i + 1]| == |columns| + 1 && rows[i + 1][0] == labels[i] && rows[i + 1][k + 1] == columns[k][i]
  {
  }

  /** A cell is quoted exactly when it holds a quote, a comma or a line feed. */
  lemma QuotedWhenNeeded(cell: string)
    ensures Quote(cell) == cell <==> forall i | 0 <= i < |cell| :: cell[i] != '"' && cell[i] != ',' && cell[i] != '\n'
    ensures Quote(cell) == cell || |Quote(cell)| >= |cell| + 2
  {
    DoubledIsLonger(cell);
  }

  lemma {:induction false} DoubledIsLonger(cell: string)
    ensures |Doubled(cell)| >= |cell|
  {
    if cell != "" { DoubledIsLonger(cell[1..]); }
  }

  method PlotCsv(names: seq<string>, labels: seq<string>, columns: seq<seq<string>>) returns (text: string)
    requires Square(labels, columns)
    ensures text == Write(Rows(names, labels, columns))
  {
    ghost var rows := Rows(names, labels, columns);
    var lines := [Line(["Point"] + names)];
    for i := 0 to |labels|
      invariant |lines| == i + 1
      invariant forall k | 0 <= k <= i :: lines[k] == Line(rows[k])
    {
      assert rows[i + 1] == RowAt(labels, columns, i);
      lines := lines + [Line(RowAt(labels, columns, i))];
    }
    assert lines == Lines(rows);
    text := Join(lines, "\n") + "\n";
  }

  /** A chart's file reads back to its header and cells exactly when every row is Plain. */
  lemma PlotCsvReadsBack(names: seq<string>, labels: seq<string>, columns: seq<seq<string>>)
    requires Square(labels, columns)
    ensures var rows := Rows(names, labels, columns);
            Read(Write(rows)) == Some(rows) <==> forall row | row in rows :: Plain(row)
  {
    var rows := Rows(names, labels, columns);
    forall row | row in rows ensures row != [] {
      var i :| 0 <= i < |rows| && rows[i] == row;
    }
    ReadsBack(rows);
  }

  // ------------------------------------------------------------------ reading

  datatype Mode = Start | Bare | InQuotes | QuoteSeen | Malformed

  datatype Reader = Reader(mode: Mode, cell: string, row: seq<string>, rows: seq<seq<string>>)

  function EndCell(r: Reader): Reader {
    Reader(Start, "", r.row + [r.cell], r.rows)
  }

  function EndRow(r: Reader): Reader {
    Reader(Start, "", [], r.rows + [r.row + [r.cell]])
  }

  /** Rules 5 to 7 of the section: quotes only around a whole field, doubled inside it; a bare field
      holds neither quotes nor line-break characters. */
  function Feed(r: Reader, c: char): Reader {
    match r.mode
    case Malformed => r
    case InQuotes => if c == '"' then r.(mode := QuoteSeen) else r.(cell := r.cell + [c])
    case QuoteSeen =>
      if c == '"' then r.(mode := InQuotes, cell := r.cell + [c])
      else if c == ',' then EndCell(r) else if c == '\n' then EndRow(r) else r.(mode := Malformed)
    case _ =>
      if c == '"' then r.(mode := if r.mode.Start? then InQuotes else Malformed)
      else if c == ',' then EndCell(r) else if c == '\n' then EndRow(r)
      else if c == '\r' then r.(mode := Malformed)
      else r.(mode := Bare, cell := r.cell + [c])
  }

  function FeedAll(r: Reader, text: string): Reader
    decreases |text|
  {
    if text == "" then r else FeedAll(Feed(r, text[0]), text[1..])
  }

  /** The last record may or may not end in a line break. */
  function Read(text: string): Option<seq<seq<string>>> {
    var r := FeedAll(Reader(Start, "", [], []), text);
    if r.mode.Malformed? || r.mode.InQuotes? then None
    else if r.mode.Start? && r.row == [] then Some(r.rows)
    else Some(EndRow(r).rows)
  }

  // --------------------------------------------------------------- round trip

  /** A carriage return is safe only in a cell that is quoted for another reason. */
  predicate Plain(row: seq<string>) {
    forall cell | cell in row :: '\r' in cell ==> NeedsQuotes(cell)
  }

  lemma {:induction false} FeedConcat(r: Reader, a: string, b: string)
    ensures FeedAll(r, a + b) == FeedAll(FeedAll(r, a), b)
    decreases |a|
  {
    if a == "" {
      assert a + b == b;
    } else {
      assert (a + b)[1..] == a[1..] + b;
      FeedConcat(Feed(r, a[0]), a[1..], b);
    }
  }

  lemma {:induction false} MalformedStays(r: Reader, text: string)
    requires r.mode.Malformed?
    ensures FeedAll(r, text) == r
    decreases |text|
  {
    if text != "" { MalformedStays(r, text[1..]); }
  }

  lemma {:induction false} FeedDoubled(r: Reader, cell: string)
    requires r.mode.InQuotes?
    ensures FeedAll(r, Doubled(cell)) == r.(cell := r.cell + cell)
    decreases |cell|
  {
    if cell == "" {
      assert r.cell + cell == r.cell;
    } else {
      var unit := if cell[0] == '"' then "\"\"" else [cell[0]];
      FeedConcat(r, unit, Doubled(cell[1..]));
      var r1 := r.(cell := r.cell + [cell[0]]);
      assert FeedAll(r, unit) == r1 by {
        assert unit[1..] == if cell[0] == '"' then "\"" else "";
        if cell[0] == '"' { assert FeedAll(r, unit) == FeedAll(r.(mode := QuoteSeen), unit[1..]); }
      }
      FeedDoubled(r1, cell[1..]);
      assert r.cell + cell == r1.cell + cell[1..];
    }
  }

  lemma {:induction false} FeedBare(r: Reader, cell: string)
    requires (r.mode.Start? || r.mode.Bare?) && !NeedsQuotes(cell)
    ensures if '\r' in cell then FeedAll(r, cell).mode.Malformed?
            else FeedAll(r, cell) == r.(mode := if cell == "" then r.mode else Bare, cell := r.cell + cell)
    decreases |cell|
  {
    if cell == "" {
      assert r.cell + cell == r.cell;
    } else if cell[0] == '\r' {
      MalformedStays(Feed(r, cell[0]), cell[1..]);
    } else {
      var r1 := Feed(r, cell[0]);
      FeedBare(r1, cell[1..]);
      assert r.cell + cell == r1.cell + cell[1..];
    }
  }

  /** One written cell: read back, with the reader ready for a separator, or malformed. */
  lemma FeedCell(r: Reader, cell: string)
    requires r.mode.Start? && r.cell == ""
    ensures var r' := FeedAll(r, Quote(cell));
            if '\r' in cell && !NeedsQuotes(cell) then r'.mode.Malformed?
            else !r'.mode.Malformed? && !r'.mode.InQuotes? && r'.cell == cell && r'.row == r.row && r'.rows == r.rows
  {
    assert "" + cell == cell;
    if NeedsQuotes(cell) {
      var inside := r.(mode := InQuotes);
      var text := Doubled(cell) + "\"";
      assert Quote(cell) == "\"" + text && Quote(cell)[1..] == text;
      FeedConcat(inside, Doubled(cell), "\"");
      FeedDoubled(inside, cell);
      assert FeedAll(r, Quote(cell)) == FeedAll(inside.(cell := cell), "\"");
    } else {
      FeedBare(r, cell);
    }
  }

  /** A line of several cells: the first, a comma, the rest. */
  lemma LineSplits(row: seq<string>)
    requires |row| > 1
    ensures Line(row) + "\n" == Quote(row[0]) + ("," + (Line(row[1..]) + "\n"))
  {
    assert QuoteAll(row)[1..] == QuoteAll(row[1..]);
  }

  lemma PlainSplits(row: seq<string>)
    requires row != []
    ensures Plain(row) <==> Plain([row[0]]) && Plain(row[1..])
  {
    assert row[0] in row && row == [row[0]] + row[1..];
    assert forall cell | cell in row[1..] :: cell in row;
  }

  /** The last cell of a line and its line break. */
  lemma FeedLast(r: Reader, cell: string)
    requires r.mode.Start? && r.cell == ""
    ensures var r' := FeedAll(r, Quote(cell) + "\n");
            if Plain([cell]) then r' == Reader(Start, "", [], r.rows + [r.row + [cell]]) else r'.mode.Malformed?
  {
    FeedCell(r, cell);
    FeedConcat(r, Quote(cell), "\n");
    assert cell in [cell];
    if FeedAll(r, Quote(cell)).mode.Malformed? { MalformedStays(FeedAll(r, Quote(cell)), "\n"); }
  }

  /** A cell and the comma after it. */
  lemma FeedComma(r: Reader, cell: string, text: string)
    requires r.mode.Start? && r.cell == ""
    ensures var r' := FeedAll(r, Quote(cell) + ("," + text));
            if Plain([cell]) then r' == FeedAll(Reader(Start, "", r.row + [cell], r.rows), text) else r'.mode.Malformed?
  {
    FeedCell(r, cell);
    FeedConcat(r, Quote(cell), "," + text);
    assert cell in [cell] && ("," + text)[1..] == text;
    if FeedAll(r, Quote(cell)).mode.Malformed? { MalformedStays(FeedAll(r, Quote(cell)), "," + text); }
  }

  lemma {:induction false} FeedLine(r: Reader, row: seq<string>)
    requires r.mode.Start? && r.cell == "" && row != []
    ensures var r' := FeedAll(r, Line(row) + "\n");
            if Plain(row) then r' == Reader(Start, "", [], r.rows + [r.row + row]) else r'.mode.Malformed?
    decreases |row|
  {
    if |row| == 1 {
      FeedLast(r, row[0]);
      assert row == [row[0]];
    } else {
      var rest := row[1..];
      LineSplits(row);
      PlainSplits(row);
      FeedComma(r, row[0], Line(rest) + "\n");
      FeedLine(Reader(Start, "", r.row + [row[0]], r.rows), rest);
      assert (r.row + [row[0]]) + rest == r.row + row;
    }
  }

  lemma WriteSplits(rows: seq<seq<string>>)
    requires rows != []
    ensures Write(rows) == (Line(rows[0]) + "\n") + if |rows| == 1 then "" else Write(rows[1..])
  {
    assert Lines(rows)[1..] == Lines(rows[1..]);
  }

  predicate AllPlain(rows: seq<seq<string>>) {
    rows == [] || (Plain(rows[0]) && AllPlain(rows[1..]))
  }

  predicate NoneEmpty(rows: seq<seq<string>>) {
    rows == [] || (rows[0] != [] && NoneEmpty(rows[1..]))
  }

  lemma HeadOrRest(rows: seq<seq<string>>, row: seq<string>)
    requires rows != []
    ensures row in rows <==> row == rows[0] || row in rows[1..]
  {
    assert rows == [rows[0]] + rows[1..];
  }

  lemma {:induction false} AllPlainMeans(rows: seq<seq<string>>)
    ensures AllPlain(rows) <==> forall row | row in rows :: Plain(row)
  {
    if rows != [] {
      AllPlainMeans(rows[1..]);
      forall row ensures row in rows <==> row == rows[0] || row in rows[1..] { HeadOrRest(rows, row); }
      assert rows[0] in rows;
    }
  }

  lemma {:induction false} NoneEmptyMeans(rows: seq<seq<string>>)
    ensures NoneEmpty(rows) <==> forall row | row in rows :: row != []
  {
    if rows != [] {
      NoneEmptyMeans(rows[1..]);
      forall row ensures row in rows <==> row == rows[0] || row in rows[1..] { HeadOrRest(rows, row); }
      assert rows[0] in rows;
    }
  }

  lemma FeedFirst(r: Reader, row: seq<string>)
    requires r.mode.Start? && r.cell == "" && r.row == [] && row != []
    ensures var r' := FeedAll(r, Line(row) + "\n");
            if Plain(row) then r' == Reader(Start, "", [], r.rows + [row]) else r'.mode.Malformed?
  {
    FeedLine(r, row);
    assert [] + row == row;
  }

  /** The first line, and the rest after it. */
  lemma FeedFirstThen(r: Reader, rows: seq<seq<string>>)
    requires r.mode.Start? && r.cell == "" && r.row == [] && |rows| > 1 && rows[0] != []
    ensures var r' := FeedAll(r, Write(rows));
            if Plain(rows[0]) then r' == FeedAll(Reader(Start, "", [], r.rows + [rows[0]]), Write(rows[1..]))
            else r'.mode.Malformed?
  {
    var first := Line(rows[0]) + "\n";
    WriteSplits(rows);
    FeedFirst(r, rows[0]);
    FeedConcat(r, first, Write(rows[1..]));
    if !Plain(rows[0]) { MalformedStays(FeedAll(r, first), Write(rows[1..])); }
  }

  lemma HeadThenRest(before: seq<seq<string>>, rows: seq<seq<string>>)
    requires rows != []
    ensures (before + [rows[0]]) + rows[1..] == before + rows
    ensures |rows| == 1 ==> before + [rows[0]] == before + rows
  {
  }

  lemma {:induction false} FeedRows(r: Reader, rows: seq<seq<string>>)
    requires r.mode.Start? && r.cell == "" && r.row == [] && rows != []
    requires NoneEmpty(rows)
    ensures var r' := FeedAll(r, Write(rows));
            if AllPlain(rows) then r' == Reader(Start, "", [], r.rows + rows) else r'.mode.Malformed?
    decreases |rows|
  {
    assert AllPlain(rows) == (Plain(rows[0]) && AllPlain(rows[1..]));
    if |rows| == 1 {
      WriteSplits(rows);
      FeedFirst(r, rows[0]);
      HeadThenRest(r.rows, rows);
      assert rows[1..] == [];
    } else {
      FeedFirstThen(r, rows);
      FeedRows(Reader(Start, "", [], r.rows + [rows[0]]), rows[1..]);
      HeadThenRest(r.rows, rows);
    }
  }

  /** What is written reads back cell for cell exactly when no cell holds a carriage return without
      also holding a quote, a comma or a line feed; otherwise the text is refused. */
  lemma ReadsBack(rows: seq<seq<string>>)
    requires rows != [] && forall row | row in rows :: row != []
    ensures Read(Write(rows)) == Some(rows) <==> forall row | row in rows :: Plain(row)
    ensures Read(Write(rows)) == Some(rows) || Read(Write(rows)) == None
  {
    AllPlainMeans(rows);
    NoneEmptyMeans(rows);
    FeedRows(Reader(Start, "", [], []), rows);
    assert [] + rows == rows;
  }
}
