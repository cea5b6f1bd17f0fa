/**
  What a visitor reads in a sorted table of data/static/venture.js: the order of
  the texts under a heading, told from the cells, the numbers and the collation
  alone.
 */
module TableReading {
  import opened Options
  import opened StableSort
  import opened TableGroups
  import opened TableSort
  import opened TableView

  /** The row has a cell that starts at the column and says x. */
  ghost predicate TextAt(row: Row, column: nat, x: string) {
    exists k :: 0 <= k < |row.cells| && StartOf(row.cells, k) == column && row.cells[k].value == Some(x)
  }

  /** Cells start one after another, so every column falls in one of them or past the last. */
  lemma {:induction false} CellOf(cells: seq<Cell>, column: nat) returns (k: nat)
    ensures k <= |cells| && StartOf(cells, k) <= column
    ensures k < |cells| ==> column < StartOf(cells, k + 1)
  {
    if cells == [] || column <= cells[0].extraColumns {
      k := 0;
      if cells != [] { assert StartOf(cells, 1) == cells[0].extraColumns + 1 + StartOf(cells[1..], 0); }
    } else {
      var rest := CellOf(cells[1..], column - cells[0].extraColumns - 1);
      k := rest + 1;
      if k < |cells| { assert StartOf(cells, k + 1) == cells[0].extraColumns + 1 + StartOf(cells[1..], k); }
    }
  }

  lemma ValueIsText(row: Row, column: nat, x: string)
    ensures Value(row, column) == Some(x) <==> TextAt(row, column, x)
  {
    if Value(row, column) == Some(x) {
      var k := CellOf(row.cells, column);
      CellAtColumn(row.cells, k, column);
    }
    if TextAt(row, column, x) {
      var k :| 0 <= k < |row.cells| && StartOf(row.cells, k) == column && row.cells[k].value == Some(x);
      NextStart(row.cells, k);
      CellAtColumn(row.cells, k, column);
    }
  }

  lemma {:induction false} NextStart(cells: seq<Cell>, k: nat)
    requires k < |cells|
    ensures StartOf(cells, k + 1) == StartOf(cells, k) + cells[k].extraColumns + 1
  {
    if k > 0 { NextStart(cells[1..], k - 1); }
  }

  /** A heading stands over the cells that start where it does. */
  lemma {:induction false} HeadingStart(headings: seq<Heading>, cells: seq<Cell>, h: nat)
    requires h <= |headings| == |cells|
    requires forall k | 0 <= k < |cells| :: cells[k].extraColumns == headings[k].extraColumns
    ensures Column(headings, h) == StartOf(cells, h)
  {
    if h > 0 {
      HeadingStart(headings, cells, h - 1);
      NextStart(cells, h - 1);
    }
  }

  /** Whether a row says something under the column that the sort can read. */
  ghost predicate Reads(reading: Reading, numeric: bool, row: Row, column: nat) {
    exists x :: TextAt(row, column, x) && (numeric ==> reading.number(x).Some?)
  }

  /** What stands before what: texts that read come first, in the direction's order. */
  ghost predicate ReadsBefore(reading: Reading, numeric: bool, descending: bool, column: nat, a: Row, b: Row) {
    && (Reads(reading, numeric, b, column) ==> Reads(reading, numeric, a, column))
    && forall x, y | TextAt(a, column, x) && TextAt(b, column, y) ::
         if numeric then
           match (reading.number(x), reading.number(y))
           case (Some(p), Some(q)) => if descending then p >= q else p <= q
           case _ => true
         else if descending then reading.collate(x, y) >= 0 else reading.collate(x, y) <= 0
  }

  lemma NotAheadReads(order: Order, a: Row, b: Row)
    requires Collates(order.reading) && !RowAhead(order)(b, a)
    ensures ReadsBefore(order.reading, order.numeric, order.descending, order.column, a, b)
  {
    var column := order.column;
    if Reads(order.reading, order.numeric, b, column) {
      var y :| TextAt(b, column, y) && (order.numeric ==> order.reading.number(y).Some?);
      ValueIsText(b, column, y);
      var x := Value(a, column).value;
      ValueIsText(a, column, x);
    }
    forall x, y | TextAt(a, column, x) && TextAt(b, column, y)
      ensures KeyOf(order, a) == TextKey(order, x) && KeyOf(order, b) == TextKey(order, y)
    {
      ValueIsText(a, column, x);
      ValueIsText(b, column, y);
    }
    forall x, y { Opposite(order.reading, x, y); }
  }

  lemma Opposite(reading: Reading, x: string, y: string)
    requires Collates(reading)
    ensures reading.collate(x, y) < 0 <==> reading.collate(y, x) > 0
  {
  }

  function TextKey(order: Order, x: string): Key {
    if !order.numeric then Words(x)
    else if order.reading.number(x).Some? then Figure(order.reading.number(x).value) else Null
  }

  /** The order the rows are sorted by is what stands before what; so two rows tie when each stands before
      the other. */
  lemma AheadIsReading(order: Order, a: Row, b: Row)
    requires Collates(order.reading)
    ensures RowAhead(order)(b, a) <==>
            !ReadsBefore(order.reading, order.numeric, order.descending, order.column, a, b)
  {
    if RowAhead(order)(b, a) {
      var y := Value(b, order.column).value;
      ValueIsText(b, order.column, y);
      assert Reads(order.reading, order.numeric, b, order.column);
      if Reads(order.reading, order.numeric, a, order.column) {
        var x :| TextAt(a, order.column, x) && (order.numeric ==> order.reading.number(x).Some?);
        ValueIsText(a, order.column, x);
        Opposite(order.reading, x, y);
        Opposite(order.reading, y, x);
      }
    } else {
      NotAheadReads(order, a, b);
    }
  }

  /** In a sorted group, earlier rows read before later ones. */
  lemma GroupReadsInOrder(order: Order, rows: seq<Row>, i: nat, j: nat)
    requires Collates(order.reading) && i < j < |SortRows(order, rows)|
    ensures ReadsBefore(order.reading, order.numeric, order.descending, order.column,
                        SortRows(order, rows)[i], SortRows(order, rows)[j])
  {
    SortedGroup(order, rows);
    var s := SortRows(order, rows);
    assert !RowAhead(order)(s[j], s[i]);
    NotAheadReads(order, s[i], s[j]);
  }

  /** Numeric when said to be, or when there are values and at least four in five, rounded up, are numbers. */
  lemma NumericMeans(reading: Reading, sortType: string, rows: set<Row>, column: nat)
    ensures var present := set row | row in rows && Value(row, column) != None;
            var parsed := set row | row in present && reading.number(Value(row, column).value) != None;
            Numeric(reading, sortType, rows, column) <==>
              || sortType == "num"
              || (sortType == "auto" && present != {} && |parsed| >= -(-(|present| as real * 0.8)).Floor)
  {
    var present := set row | row in rows && Value(row, column) != None;
    var parsed := set row | row in present && reading.number(Value(row, column).value) != None;
    assert present == Valued(rows, column) && parsed == Figures(reading, rows, column);
    FourInFive(|parsed|, |present|);
  }

  /** Whether the column under heading h counts as numeric. */
  predicate ReadAsNumbers(table: Table, bodies: seq<seq<Row>>, h: nat)
    requires h < |table.headings|
  {
    Numeric(table.reading, table.headings[h].sortType, DataRows(bodies), Column(table.headings, h))
  }

  /** A first click sorts downwards when the heading says so, or says nothing over a column of numbers; any
      other turns the arrow round; and every other heading loses its arrow. */
  lemma ArrowAfterClick(table: Table, s: State, h: nat)
    requires Valid(table, s) && h < |table.headings|
    ensures var heading, arrows := table.headings[h], AfterSort(table, s, h).arrows;
            && |arrows| == |s.arrows|
            && (forall k | 0 <= k < |arrows| && k != h :: arrows[k] == None)
            && (s.arrows[h] == Some(Ascending) ==> arrows[h] == Some(Descending))
            && (s.arrows[h] == Some(Descending) ==> arrows[h] == Some(Ascending))
            && (s.arrows[h] == None && heading.sortDefault == Some("desc") ==> arrows[h] == Some(Descending))
            && (s.arrows[h] == None && heading.sortDefault == None ==>
                  arrows[h] == Some(if ReadAsNumbers(table, s.bodies, h) then Descending else Ascending))
            && (s.arrows[h] == None && heading.sortDefault.Some? && heading.sortDefault != Some("desc") ==>
                  arrows[h] == Some(Ascending))
  {
  }

  /** After a click on a heading, the rows of every group of every body read in the order of its arrow. */
  lemma ClickReadsInOrder(table: Table, s: State, h: nat, b: nat, k: nat, i: nat, j: nat)
    requires Valid(table, s) && Collates(table.reading) && h < |table.headings| && b < |s.bodies|
    requires var s' := AfterSort(table, s, h);
             k < |GroupsOf(s'.bodies[b])| && i < j < |GroupsOf(s'.bodies[b])[k].data|
    ensures var s' := AfterSort(table, s, h);
            var rows := GroupsOf(s'.bodies[b])[k].data;
            ReadsBefore(table.reading, ReadAsNumbers(table, s.bodies, h), s'.arrows[h] == Some(Descending),
                        Column(table.headings, h), rows[i], rows[j])
  {
    var order := Asked(table, s, h);
    SortBodyKeepsGroups(order, s.bodies[b]);
    GroupReadsInOrder(order, GroupsOf(s.bodies[b])[k].data, i, j);
  }
}
