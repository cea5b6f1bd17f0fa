/**
  The sortable table of data/static/venture.js as an object: its rows, the marks
  on them and on its headings, overwritten by each click, input and change event.
 */
module SortableTable {
  import opened Options
  import opened Text
  import opened TableGroups
  import opened TableSort
  import opened TableDealing
  import opened TableView

  // ----------------------------------------------------- counting as rows are read

  lemma DataNext(front: seq<seq<Row>>, rows: seq<Row>, row: Row)
    ensures DataRows(front + [rows + [row]])
         == DataRows(front + [rows]) + if row.Kind().Data? then {row} else {}
  {
    var was, now := front + [rows], front + [rows + [row]];
    assert was[|front|] == rows && now[|front|] == rows + [row];
    forall b, r | 0 <= b < |front| ensures r in was[b] <==> r in now[b] {}
    assert row in now[|front|];
    forall r | r in AllRows(was) ensures r in AllRows(now) {
      var b :| 0 <= b < |was| && r in was[b];
      assert r in now[b];
    }
    forall r | r in AllRows(now) && r != row ensures r in AllRows(was) {
      var b :| 0 <= b < |now| && r in now[b];
      assert r in was[b];
    }
  }

  lemma DataOpens(front: seq<seq<Row>>)
    ensures DataRows(front + [[]]) == DataRows(front)
  {
    forall r | r in AllRows(front + [[]]) ensures r in AllRows(front) {
      var b :| 0 <= b < |front + [[]]| && r in (front + [[]])[b];
      assert r in front[b];
    }
    forall r | r in AllRows(front) ensures r in AllRows(front + [[]]) {
      var b :| 0 <= b < |front| && r in front[b];
      assert r in (front + [[]])[b];
    }
  }

  /** The table down to row i of body b. */
  function Upto(bodies: seq<seq<Row>>, b: nat, i: nat): seq<seq<Row>>
    requires b < |bodies| && i <= |bodies[b]|
  {
    bodies[..b] + [bodies[b][..i]]
  }

  lemma UptoEnds(bodies: seq<seq<Row>>, b: nat)
    requires b < |bodies|
    ensures Upto(bodies, b, 0) == bodies[..b] + [[]] && Upto(bodies, b, |bodies[b]|) == bodies[..b + 1]
  {
    assert bodies[b][..0] == [] && bodies[b][..|bodies[b]|] == bodies[b];
  }

  lemma UptoNext(bodies: seq<seq<Row>>, b: nat, i: nat)
    requires b < |bodies| && i < |bodies[b]|
    ensures Upto(bodies, b, i + 1) == bodies[..b] + [bodies[b][..i] + [bodies[b][i]]]
  {
    assert bodies[b][..i + 1] == bodies[b][..i] + [bodies[b][i]];
  }

  ghost predicate Counted(reading: Reading, rows: set<Row>, column: nat, present: nat, parsed: nat) {
    present == |Valued(rows, column)| && parsed == |Figures(reading, rows, column)|
  }

  lemma OneMore(a: set<Row>, b: set<Row>, row: Row, yes: bool)
    requires row !in a && b == a + if yes then {row} else {}
    ensures |b| == |a| + if yes then 1 else 0
  {
  }

  lemma ValuedNext(rows: set<Row>, column: nat, row: Row)
    requires row !in rows
    ensures |Valued(rows + {row}, column)| == |Valued(rows, column)| + if HasValue(row, column) then 1 else 0
  {
    OneMore(Valued(rows, column), Valued(rows + {row}, column), row, HasValue(row, column));
  }

  lemma FiguresNext(reading: Reading, rows: set<Row>, column: nat, row: Row)
    requires row !in rows
    ensures |Figures(reading, rows + {row}, column)|
         == |Figures(reading, rows, column)| + if HasFigure(reading, row, column) then 1 else 0
  {
    OneMore(Figures(reading, rows, column), Figures(reading, rows + {row}, column), row,
            HasFigure(reading, row, column));
  }

  lemma Apart(bodies: seq<seq<Row>>, c: nat, b: nat, row: Row)
    requires RowsApart(bodies) && c < b < |bodies| && row in bodies[b]
    ensures row !in bodies[c]
  {
  }

  lemma NotReadYet(bodies: seq<seq<Row>>, b: nat, i: nat)
    requires RowsApart(bodies) && b < |bodies| && i < |bodies[b]|
    ensures bodies[b][i] !in DataRows(Upto(bodies, b, i))
  {
    var seen, row := Upto(bodies, b, i), bodies[b][i];
    forall c | 0 <= c < |seen| ensures row !in seen[c] {
      if c < b { Apart(bodies, c, b, row); }
    }
  }

  // ------------------------------------------------------------ the filter's pass

  function Close(needle: string, hidden: set<Row>, divider: Option<Row>, any: bool): set<Row> {
    if divider.None? then hidden
    else if needle != "" && !any then hidden + {divider.value} else hidden - {divider.value}
  }

  /** After the rows so far: every group but the last is closed. */
  ghost predicate Passed(needle: string, out: set<Row>, was: set<Row>, hidden: set<Row>, done: seq<Row>,
                         divider: Option<Row>, any: bool)
  {
    var gs := GroupsOf(done);
    var n := |gs| - 1;
    && divider == gs[n].divider && any == !NoneShows(needle, out, gs[n].data)
    && (forall row | row in done && row.Kind().Data? :: row in hidden <==> !Shows(needle, out, row))
    && (forall k | 0 <= k < n && gs[k].divider.Some? ::
          gs[k].divider.value in hidden <==> needle != "" && NoneShows(needle, out, gs[k].data))
    && (forall row | row !in done || row.Kind().Pinned? :: row in hidden <==> row in was)
  }

  lemma Closes(needle: string, out: set<Row>, was: set<Row>, hidden: set<Row>, done: seq<Row>,
               divider: Option<Row>, any: bool)
    requires Passed(needle, out, was, hidden, done, divider, any) && Distinct(done)
    ensures BodyFiltered(needle, out, Close(needle, hidden, divider, any), done)
    ensures forall row | row !in done || row.Kind().Pinned? ::
      row in Close(needle, hidden, divider, any) <==> row in was
  {
    var gs := GroupsOf(done);
    var n := |gs| - 1;
    if divider.Some? {
      DividerIsThere(done, n);
      forall k | 0 <= k < n && gs[k].divider.Some? ensures gs[k].divider.value != divider.value {
        DividersDiffer(done, k, n);
      }
    }
  }

  lemma PassesDivider(needle: string, out: set<Row>, was: set<Row>, hidden: set<Row>, done: seq<Row>, row: Row)
    requires BodyFiltered(needle, out, hidden, done) && row.Kind().Divider?
    requires forall r | r !in done || r.Kind().Pinned? :: r in hidden <==> r in was
    ensures Passed(needle, out, was, hidden, done + [row], Some(row), false)
  {
    GroupsOfAppend(done, row);
  }

  lemma PassesPinned(needle: string, out: set<Row>, was: set<Row>, hidden: set<Row>,
                     done: seq<Row>, row: Row, divider: Option<Row>, any: bool)
    requires Passed(needle, out, was, hidden, done, divider, any) && row !in done && row.Kind().Pinned?
    ensures Passed(needle, out, was, hidden, done + [row], divider, any)
  {
    GroupsOfAppend(done, row);
  }

  lemma AddsDataRow(gs: seq<Group>, row: Row)
    requires gs != [] && row.Kind().Data?
    ensures var now, n := AddRow(gs, row), |gs| - 1;
            && |now| == |gs| && now[..n] == gs[..n]
            && now[n].divider == gs[n].divider && now[n].data == gs[n].data + [row]
  {
  }

  lemma PassesData(needle: string, out: set<Row>, was: set<Row>, hidden: set<Row>, hidden': set<Row>,
                   done: seq<Row>, row: Row, divider: Option<Row>, any: bool)
    requires Passed(needle, out, was, hidden, done, divider, any) && row !in done && row.Kind().Data?
    requires hidden' == if Shows(needle, out, row) then hidden - {row} else hidden + {row}
    ensures Passed(needle, out, was, hidden', done + [row], divider, any || Shows(needle, out, row))
  {
    var gs := GroupsOf(done);
    var n := |gs| - 1;
    GroupsOfAppend(done, row);
    AddsDataRow(gs, row);
    var now := GroupsOf(done + [row]);
    assert NoneShows(needle, out, now[n].data) == (NoneShows(needle, out, gs[n].data) && !Shows(needle, out, row));
    forall k | 0 <= k < n && now[k].divider.Some?
      ensures now[k].divider.value in hidden' <==> needle != "" && NoneShows(needle, out, now[k].data)
    {
      assert now[..n][k] == gs[..n][k];
      DividerIsThere(done, k);
    }
  }

  lemma NextRow(rows: seq<Row>, i: nat)
    requires i < |rows| && Distinct(rows)
    ensures rows[..i + 1] == rows[..i] + [rows[i]] && rows[i] !in rows[..i] && Distinct(rows[..i])
  {
  }

  function ShownIn(needle: string, out: set<Row>, rows: seq<Row>): set<Row> {
    set row | row in rows && row.Kind().Data? && Shows(needle, out, row)
  }

  lemma ShownNext(needle: string, out: set<Row>, rows: seq<Row>, row: Row)
    requires row !in rows
    ensures |ShownIn(needle, out, rows + [row])|
         == |ShownIn(needle, out, rows)| + if row.Kind().Data? && Shows(needle, out, row) then 1 else 0
  {
    OneMore(ShownIn(needle, out, rows), ShownIn(needle, out, rows + [row]), row,
            row.Kind().Data? && Shows(needle, out, row));
  }

  lemma FilteredAlike(needle: string, out: set<Row>, a: set<Row>, b: set<Row>, rows: seq<Row>)
    requires BodyFiltered(needle, out, a, rows) && forall row | row in rows :: row in a <==> row in b
    ensures BodyFiltered(needle, out, b, rows)
  {
    var gs := GroupsOf(rows);
    forall k | 0 <= k < |gs| && gs[k].divider.Some?
      ensures gs[k].divider.value in b <==> needle != "" && NoneShows(needle, out, gs[k].data)
    {
      DividerIsThere(rows, k);
    }
  }

  lemma VisibleNext(needle: string, out: set<Row>, bodies: seq<seq<Row>>, b: nat)
    requires RowsApart(bodies) && b < |bodies|
    ensures |Visible(needle, out, bodies[..b + 1])|
         == |Visible(needle, out, bodies[..b])| + |ShownIn(needle, out, bodies[b])|
  {
    var before, now := Visible(needle, out, bodies[..b]), ShownIn(needle, out, bodies[b]);
    forall row | row in Visible(needle, out, bodies[..b + 1]) ensures row in before + now {
      var c :| 0 <= c < b + 1 && row in bodies[..b + 1][c];
      assert c < b ==> row in bodies[..b][c];
    }
    forall row | row in before ensures row in Visible(needle, out, bodies[..b + 1]) && row !in now {
      var c :| 0 <= c < b && row in bodies[..b][c];
      assert row in bodies[..b + 1][c] && row in bodies[c];
    }
    forall row | row in now ensures row in Visible(needle, out, bodies[..b + 1]) {
      assert row in bodies[..b + 1][b];
    }
    assert Visible(needle, out, bodies[..b + 1]) == before + now;
  }

  class Sheet {
    const table: Table
    var bodies: seq<seq<Row>>
    var arrows: seq<Option<Direction>>
    var hidden: set<Row>
    var out: set<Row>
    var needle: string
    var shown: Option<nat>

    ghost function Model(): State
      reads this
    {
      State(bodies, arrows, hidden, out, needle, shown)
    }

    constructor (table: Table, s: State)
      requires TableView.Valid(table, s)
      ensures this.table == table && Model() == s
    {
      this.table := table;
      bodies, arrows, hidden, out, needle, shown := s.bodies, s.arrows, s.hidden, s.out, s.needle, s.shown;
    }

    // -------------------------------------------------------------- sortTableBy

    /** cellText(cellAt(row, column)) */
    static method CellText(row: Row, column: nat) returns (value: Option<string>)
      ensures value == Value(row, column)
    {
      var position := 0;
      for i := 0 to |row.cells|
        invariant position <= column
        invariant CellAt(row.cells[i..], column - position) == CellAt(row.cells, column)
      {
        if position == column { return row.cells[i].value; }
        position := position + row.cells[i].extraColumns + 1;
        if position > column { return None; }
      }
      return None;
    }

    method ColumnOf(h: nat) returns (column: nat)
      requires h < |table.headings|
      ensures column == Column(table.headings, h)
    {
      column := 0;
      for i := 0 to h
        invariant column == Column(table.headings, i)
      {
        column := column + table.headings[i].extraColumns + 1;
      }
    }

    method ReadTable(column: nat)
      returns (groups: seq<seq<Group>>, keyed: seq<Entry>, present: nat, parsed: nat)
      requires RowsApart(bodies)
      ensures Read(bodies, groups, keyed)
      ensures Counted(table.reading, DataRows(bodies), column, present, parsed)
    {
      groups, keyed, present, parsed := [], [], 0, 0;
      for b := 0 to |bodies|
        invariant Read(bodies[..b], groups, keyed)
        invariant Counted(table.reading, DataRows(bodies[..b]), column, present, parsed)
      {
        groups, keyed, present, parsed := ReadBody(b, column, groups, keyed, present, parsed);
      }
      assert bodies[..|bodies|] == bodies;
    }

    method ReadBody(b: nat, column: nat,
                    groups0: seq<seq<Group>>, keyed0: seq<Entry>, present0: nat, parsed0: nat)
      returns (groups: seq<seq<Group>>, keyed: seq<Entry>, present: nat, parsed: nat)
      requires RowsApart(bodies) && b < |bodies| && Read(bodies[..b], groups0, keyed0)
      requires Counted(table.reading, DataRows(bodies[..b]), column, present0, parsed0)
      ensures Read(bodies[..b + 1], groups, keyed)
      ensures Counted(table.reading, DataRows(bodies[..b + 1]), column, present, parsed)
    {
      groups, keyed, present, parsed := groups0 + [[Head]], keyed0, present0, parsed0;
      ReadOpens(bodies[..b], groups0, keyed0);
      DataOpens(bodies[..b]);
      UptoEnds(bodies, b);
      for i := 0 to |bodies[b]|
        invariant Read(Upto(bodies, b, i), groups, keyed)
        invariant Counted(table.reading, DataRows(Upto(bodies, b, i)), column, present, parsed)
      {
        groups, keyed, present, parsed := ReadNext(b, i, column, groups, keyed, present, parsed);
      }
    }

    method ReadNext(b: nat, i: nat, column: nat,
                    groups0: seq<seq<Group>>, keyed0: seq<Entry>, present0: nat, parsed0: nat)
      returns (groups: seq<seq<Group>>, keyed: seq<Entry>, present: nat, parsed: nat)
      requires RowsApart(bodies) && b < |bodies| && i < |bodies[b]| && Read(Upto(bodies, b, i), groups0, keyed0)
      requires Counted(table.reading, DataRows(Upto(bodies, b, i)), column, present0, parsed0)
      ensures Read(Upto(bodies, b, i + 1), groups, keyed)
      ensures Counted(table.reading, DataRows(Upto(bodies, b, i + 1)), column, present, parsed)
    {
      NotReadYet(bodies, b, i);
      UptoNext(bodies, b, i);
      groups, keyed := ReadRow(bodies[b][i], b, groups0, keyed0, bodies[..b], bodies[b][..i]);
      present, parsed := CountRow(bodies[b][i], column, present0, parsed0, bodies[..b], bodies[b][..i]);
    }

    /** present++, and parsed++ when the value reads as a number. */
    method CountRow(row: Row, column: nat, present0: nat, parsed0: nat,
                    ghost front: seq<seq<Row>>, ghost rows: seq<Row>)
      returns (present: nat, parsed: nat)
      requires row !in DataRows(front + [rows])
      requires Counted(table.reading, DataRows(front + [rows]), column, present0, parsed0)
      ensures Counted(table.reading, DataRows(front + [rows + [row]]), column, present, parsed)
    {
      present, parsed := present0, parsed0;
      DataNext(front, rows, row);
      if !row.IsDivider() && !row.IsPinned() {
        ghost var read := DataRows(front + [rows]);
        ValuedNext(read, column, row);
        FiguresNext(table.reading, read, column, row);
        var value := CellText(row, column);
        if value.Some? {
          present := present + 1;
          parsed := parsed + if table.reading.number(value.value).Some? then 1 else 0;
        }
      } else {
        assert DataRows(front + [rows]) + {} == DataRows(front + [rows]);
      }
    }

    /** Re-appends every body's groups. */
    method Reappend(groups: seq<seq<Group>>, ghost order: Order)
      requires RowsApart(bodies) && |groups| == |bodies|
      requires forall b | 0 <= b < |bodies| :: groups[b] == SortGroups(order, GroupsOf(bodies[b]))
      modifies `bodies
      ensures bodies == SortBodies(order, old(bodies))
    {
      for b := 0 to |bodies|
        invariant |bodies| == |groups|
        invariant forall c | 0 <= c < b :: bodies[c] == SortBody(order, old(bodies)[c])
        invariant forall c | b <= c < |bodies| :: bodies[c] == old(bodies)[c]
      {
        SortBodyPermutes(order, bodies[b]);
        PermutedDistinct(bodies[b], SortBody(order, bodies[b]));
        var body := AppendGroups(bodies[b], groups[b]);
        bodies := bodies[b := body];
      }
    }

    method PointArrow(h: nat, direction: Direction)
      requires h < |arrows|
      modifies `arrows
      ensures arrows == Arrows(|old(arrows)|, h, direction)
    {
      for i := 0 to |arrows|
        invariant |arrows| == |old(arrows)|
        invariant forall j | 0 <= j < i && j != h :: arrows[j].None?
      {
        if i != h { arrows := arrows[i := None]; }
      }
      arrows := arrows[h := Some(direction)];
    }

    method SortBy(h: nat)
      requires TableView.Valid(table, Model()) && h < |table.headings| && Collates(table.reading)
      modifies this
      ensures Model() == AfterSort(table, old(Model()), h)
    {
      var heading, current := table.headings[h], arrows[h];
      var column := ColumnOf(h);
      var empty, keyed, present, parsed := ReadTable(column);
      var numeric := heading.sortType == "num"
        || (heading.sortType == "auto" && present > 0 && 5 * parsed >= 4 * present);
      var descending :=
        if current.Some? then current.value.Ascending?
        else heading.sortDefault == Some("desc") || (heading.sortDefault.None? && numeric);
      var order := Order(table.reading, column, numeric, descending);
      assert order == Asked(table, Model(), h);
      var sorted := SortEntries(order, keyed);
      EntriesStillFit(order, empty, keyed);
      var groups := DealOut(empty, sorted, keyed);
      forall b | 0 <= b < |bodies| ensures groups[b] == SortGroups(order, GroupsOf(bodies[b])) {
        DealtSorted(order, bodies, empty, keyed, groups, b);
      }
      Reappend(groups, order);
      PointArrow(h, if descending then Descending else Ascending);
    }

    method DealOut(empty: seq<seq<Group>>, sorted: seq<Entry>, ghost keyed: seq<Entry>)
      returns (groups: seq<seq<Group>>)
      requires Read(bodies, empty, keyed)
      requires forall e | e in sorted :: EntryFits(empty, e)
      ensures Dealt(empty, groups, sorted)
    {
      forall b, k | 0 <= b < |empty| && 0 <= k < |empty[b]| ensures empty[b][k].data == [] {
        assert BodyRead(bodies[b], empty[b], keyed, b);
      }
      groups := Deal(empty, sorted);
    }

    // ------------------------------------------------------- the filter, the picker

    /** One body under the filter, with the count of rows it shows added. */
    method FilterBody(b: nat, shown0: nat) returns (count: nat)
      requires b < |bodies| && Distinct(bodies[b])
      modifies `hidden
      ensures BodyFiltered(needle, out, hidden, bodies[b])
      ensures forall row | row !in bodies[b] || row.Kind().Pinned? :: row in hidden <==> row in old(hidden)
      ensures count == shown0 + |ShownIn(needle, out, bodies[b])|
    {
      var rows := bodies[b];
      var divider: Option<Row> := None;
      var any := false;
      count := shown0;
      for i := 0 to |rows|
        invariant Passed(needle, out, old(hidden), hidden, rows[..i], divider, any)
        invariant count == shown0 + |ShownIn(needle, out, rows[..i])|
      {
        divider, any, count := FilterRow(rows, i, divider, any, count, old(hidden));
      }
      assert rows[..|rows|] == rows;
      Closes(needle, out, old(hidden), hidden, rows, divider, any);
      hidden := Close(needle, hidden, divider, any);
    }

    /** One row of that: a divider closes the group before it, a data row shows or not. */
    method FilterRow(rows: seq<Row>, i: nat, divider0: Option<Row>, any0: bool, count0: nat, ghost was: set<Row>)
      returns (divider: Option<Row>, any: bool, count: nat)
      requires i < |rows| && Distinct(rows) && Passed(needle, out, was, hidden, rows[..i], divider0, any0)
      modifies `hidden
      ensures Passed(needle, out, was, hidden, rows[..i + 1], divider, any)
      ensures count - count0 == |ShownIn(needle, out, rows[..i + 1])| - |ShownIn(needle, out, rows[..i])|
    {
      var row := rows[i];
      ghost var done := rows[..i];
      NextRow(rows, i);
      divider, any, count := divider0, any0, count0;
      ShownNext(needle, out, done, row);
      if row.IsDivider() {
        Closes(needle, out, was, hidden, done, divider, any);
        hidden := Close(needle, hidden, divider, any);
        PassesDivider(needle, out, was, hidden, done, row);
        divider, any := Some(row), false;
      } else if row.IsPinned() {
        PassesPinned(needle, out, was, hidden, done, row, divider, any);
      } else {
        ghost var before := hidden;
        if row !in out && (needle == "" || HasSubstring(row.text, needle)) {
          hidden, count, any := hidden - {row}, count + 1, true;
        } else {
          hidden := hidden + {row};
        }
        PassesData(needle, out, was, before, hidden, done, row, divider0, any0);
      }
    }

    /** The input event: what is typed is read, every row shown or hidden, and the count written. */
    method Input()
      requires TableView.Valid(table, Model())
      modifies `hidden, `shown
      ensures Model() == AfterInput(old(Model()))
    {
      var count := 0;
      for b := 0 to |bodies|
        invariant hidden <= AllRows(bodies)
        invariant forall c | 0 <= c < b :: BodyFiltered(needle, out, hidden, bodies[c])
        invariant forall row | row in AllRows(bodies) && row.Kind().Pinned? :: row in hidden <==> row in old(hidden)
        invariant count == |Visible(needle, out, bodies[..b])|
      {
        ghost var before := hidden;
        count := FilterBody(b, count);
        VisibleNext(needle, out, bodies, b);
        forall c | 0 <= c < b ensures BodyFiltered(needle, out, hidden, bodies[c]) {
          FilteredAlike(needle, out, before, hidden, bodies[c]);
        }
      }
      assert bodies[..|bodies|] == bodies;
      FilterDetermines(old(Model()), hidden);
      shown := if needle == "" && out == {} then None else Some(count);
    }

    method Type(text: string)
      requires TableView.Valid(table, Model()) && table.filterBox
      modifies `needle, `hidden, `shown
      ensures Model() == Step(table, old(Model()), TableView.Type(text))
    {
      needle := text;
      Input();
    }

    /** dataRows(table) */
    method ListData() returns (rows: seq<Row>)
      ensures forall row :: row in rows <==> row in DataRows(bodies)
    {
      rows := [];
      for b := 0 to |bodies|
        invariant forall row :: row in rows <==> row in DataRows(bodies[..b])
      {
        ghost var front := bodies[..b];
        DataOpens(front);
        assert bodies[b][..0] == [];
        for i := 0 to |bodies[b]|
          invariant forall row :: row in rows <==> row in DataRows(front + [bodies[b][..i]])
        {
          var row := bodies[b][i];
          DataNext(front, bodies[b][..i], row);
          assert bodies[b][..i + 1] == bodies[b][..i] + [row];
          if !row.IsDivider() && !row.IsPinned() { rows := rows + [row]; }
        }
        assert bodies[b][..|bodies[b]|] == bodies[b] && bodies[..b + 1] == front + [bodies[b]];
      }
      assert bodies[..|bodies|] == bodies;
    }

    method Pick(group: string)
      requires TableView.Valid(table, Model())
      modifies `out, `hidden, `shown
      ensures Model() == Step(table, old(Model()), TableView.Pick(group))
    {
      var rows := ListData();
      for i := 0 to |rows|
        invariant shown == old(shown)
        invariant forall row :: row in out <==>
          if row in rows[..i] then group != "" && group !in row.groups else row in old(out)
        invariant forall row :: row in hidden <==>
          if row in rows[..i] then group != "" && group !in row.groups else row in old(hidden)
      {
        var row := rows[i];
        assert rows[..i + 1] == rows[..i] + [row];
        if group != "" && group !in row.groups {
          out, hidden := out + {row}, hidden + {row};
        } else {
          out, hidden := out - {row}, hidden - {row};
        }
      }
      assert rows[..|rows|] == rows;
      ghost var data, left := DataRows(bodies), LeftOut(group, bodies);
      assert out == (old(out) - data) + left && hidden == (old(hidden) - data) + left;
      assert Model() == old(Model()).(out := (old(out) - data) + left, hidden := (old(hidden) - data) + left);
      if table.filterBox { Input(); }
    }
  }
}
