/**
  The rows of a sortable table of data/static/venture.js: runs of data rows
  under dividers, and totals.
 */
module TableGroups {
  import opened Options

  datatype Kind = Divider | Pinned | Data

  /** A cell: its value (None when empty or a dash), the columns it spans, and scope="rowgroup". */
  datatype Cell = Cell(value: Option<string>, extraColumns: nat, rowgroup: bool)

  /** A row is told apart by its number.  `total` is a total's class name or data-sort-pin, `text` its
      lower-case text, `groups` what data-groups lists. */
  datatype Row = Row(id: nat, cells: seq<Cell>, total: bool, text: string, groups: set<string>)
  {
    predicate IsDivider() {
      cells == [] || (|cells| == 1 && cells[0].extraColumns > 0) || cells[0].rowgroup
    }

    predicate IsPinned() {
      total || (|cells| > 1 && cells[0].extraColumns > 0)
    }

    function Kind(): Kind {
      if IsDivider() then Divider else if IsPinned() then Pinned else Data
    }
  }

  /** A divider has no cells, or one that spans columns, or heads a row group; a total is any other row so
      classed, or whose first of several cells spans; the rest are data. */
  lemma KindMeans(row: Row)
    ensures row.Kind() == Divider <==>
              row.cells == [] || (|row.cells| == 1 && 1 + row.cells[0].extraColumns > 1) || row.cells[0].rowgroup
    ensures row.Kind() == Pinned <==>
              row.Kind() != Divider && (row.total || (|row.cells| >= 2 && 1 + row.cells[0].extraColumns > 1))
    ensures row.Kind() == Data <==> row.Kind() != Divider && row.Kind() != Pinned
  {
  }

  datatype Group = Group(divider: Option<Row>, data: seq<Row>, pinned: seq<Row>)

  /** The group a body starts in, before any divider. */
  const Head := Group(None, [], [])

  function AddRow(gs: seq<Group>, row: Row): (gs': seq<Group>)
    requires gs != []
    ensures gs' != []
  {
    var n := |gs| - 1;
    match row.Kind()
    case Divider => gs + [Group(Some(row), [], [])]
    case Pinned => gs[..n] + [gs[n].(pinned := gs[n].pinned + [row])]
    case Data => gs[..n] + [gs[n].(data := gs[n].data + [row])]
  }

  /** The groups a body's rows fall into, read from the top. */
  function GroupsOf(rows: seq<Row>): (gs: seq<Group>)
    ensures gs != []
  {
    if rows == [] then [Head] else AddRow(GroupsOf(rows[..|rows| - 1]), rows[|rows| - 1])
  }

  lemma GroupsOfAppend(rows: seq<Row>, row: Row)
    ensures GroupsOf(rows + [row]) == AddRow(GroupsOf(rows), row)
  {
    assert (rows + [row])[..|rows|] == rows;
  }

  function Top(g: Group): seq<Row> {
    if g.divider.Some? then [g.divider.value] else []
  }

  /** A group's rows as re-appended: its divider, its data rows, its totals. */
  function Flat(g: Group): seq<Row> {
    Top(g) + g.data + g.pinned
  }

  function FlatAll(gs: seq<Group>): seq<Row> {
    if gs == [] then [] else FlatAll(gs[..|gs| - 1]) + Flat(gs[|gs| - 1])
  }

  lemma FlatAllAppend(gs: seq<Group>, g: Group)
    ensures FlatAll(gs + [g]) == FlatAll(gs) + Flat(g)
  {
    assert (gs + [g])[..|gs|] == gs;
  }

  predicate OfKind(rows: seq<Row>, kind: Kind) {
    forall row | row in rows :: row.Kind() == kind
  }

  predicate WellFormedGroup(g: Group) {
    && (g.divider.Some? ==> g.divider.value.Kind().Divider?)
    && OfKind(g.data, Data) && OfKind(g.pinned, Pinned)
  }

  /** Groups as a body yields them: only the first has no divider, and rows are where they belong. */
  predicate WellFormed(gs: seq<Group>) {
    && gs != [] && gs[0].divider.None?
    && (forall k | 0 <= k < |gs| :: WellFormedGroup(gs[k]))
    && (forall k | 0 < k < |gs| :: gs[k].divider.Some?)
  }

  lemma {:induction false} GroupsWellFormed(rows: seq<Row>)
    ensures WellFormed(GroupsOf(rows))
  {
    if rows != [] { GroupsWellFormed(rows[..|rows| - 1]); }
  }

  function Lengthen(g: Group, run: seq<Row>, kind: Kind): Group {
    if kind == Data then g.(data := g.data + run) else g.(pinned := g.pinned + run)
  }

  lemma AddToLast(front: seq<Group>, g: Group, row: Row)
    requires !row.Kind().Divider?
    ensures AddRow(front + [g], row) == front + [Lengthen(g, [row], row.Kind())]
  {
    assert (front + [g])[..|front|] == front;
  }

  lemma LengthenTwice(g: Group, a: seq<Row>, b: seq<Row>, kind: Kind)
    ensures Lengthen(Lengthen(g, a, kind), b, kind) == Lengthen(g, a + b, kind)
  {
    assert (g.data + a) + b == g.data + (a + b) && (g.pinned + a) + b == g.pinned + (a + b);
  }

  lemma Snoc(rows: seq<Row>, run: seq<Row>)
    requires run != []
    ensures run == run[..|run| - 1] + [run[|run| - 1]]
    ensures rows + run == (rows + run[..|run| - 1]) + [run[|run| - 1]]
  {
  }

  /** One more row, read after others. */
  lemma GroupsOfOneMore(rows: seq<Row>, row: Row, front: seq<Group>, g: Group)
    requires !row.Kind().Divider? && GroupsOf(rows) == front + [g]
    ensures GroupsOf(rows + [row]) == front + [Lengthen(g, [row], row.Kind())]
  {
    GroupsOfAppend(rows, row);
    AddToLast(front, g, row);
  }

  /** Reading data rows, or totals, only lengthens the last group. */
  lemma {:induction false} GroupsOfRun(rows: seq<Row>, run: seq<Row>, kind: Kind, front: seq<Group>, g: Group)
    requires kind != Divider && OfKind(run, kind) && GroupsOf(rows) == front + [g]
    ensures GroupsOf(rows + run) == front + [Lengthen(g, run, kind)]
  {
    if run == [] {
      assert rows + run == rows && Lengthen(g, run, kind) == g;
    } else {
      var k := |run| - 1;
      var init, last := run[..k], run[k];
      assert last in run && forall row | row in init :: row in run;
      GroupsOfRun(rows, init, kind, front, g);
      GroupsOfOneMore(rows + init, last, front, Lengthen(g, init, kind));
      LengthenTwice(g, init, [last], kind);
      Snoc(rows, run);
    }
  }

  /** The last group of a body, read after all before it. */
  lemma GroupsOfLast(before: seq<Row>, front: seq<Group>, g: Group)
    requires WellFormedGroup(g)
    requires if g.divider.None? then before == [] && front == [] else GroupsOf(before) == front
    ensures GroupsOf(before + Flat(g)) == front + [g]
  {
    var top := before + Top(g);
    GroupsOfTop(before, front, g.divider, top);
    GroupsOfFoot(top, front, g);
    FlatSplits(before, g);
  }

  lemma FlatSplits(before: seq<Row>, g: Group)
    ensures before + Flat(g) == ((before + Top(g)) + g.data) + g.pinned
  {
  }

  lemma GroupsOfFoot(top: seq<Row>, front: seq<Group>, g: Group)
    requires OfKind(g.data, Data) && OfKind(g.pinned, Pinned)
    requires GroupsOf(top) == front + [Group(g.divider, [], [])]
    ensures GroupsOf((top + g.data) + g.pinned) == front + [g]
  {
    LengthenEmpty(g);
    GroupsOfRun(top, g.data, Data, front, Group(g.divider, [], []));
    GroupsOfRun(top + g.data, g.pinned, Pinned, front, Group(g.divider, g.data, []));
  }

  lemma LengthenEmpty(g: Group)
    ensures Lengthen(Group(g.divider, [], []), g.data, Data) == Group(g.divider, g.data, [])
    ensures Lengthen(Group(g.divider, g.data, []), g.pinned, Pinned) == g
  {
    assert [] + g.data == g.data && [] + g.pinned == g.pinned;
  }

  lemma GroupsOfTop(before: seq<Row>, front: seq<Group>, divider: Option<Row>, top: seq<Row>)
    requires divider.Some? ==> divider.value.Kind().Divider?
    requires if divider.None? then before == [] && front == [] else GroupsOf(before) == front
    requires top == before + Top(Group(divider, [], []))
    ensures GroupsOf(top) == front + [Group(divider, [], [])]
  {
    if divider.Some? { GroupsOfAppend(before, divider.value); }
  }

  /** Re-appended rows read back as the same groups: dividers keep their own rows under them and totals
      stay at the foot. */
  lemma {:induction false} GroupsOfFlat(gs: seq<Group>)
    requires WellFormed(gs)
    ensures GroupsOf(FlatAll(gs)) == gs
  {
    var n := |gs| - 1;
    assert gs == gs[..n] + [gs[n]];
    if n > 0 { GroupsOfFlat(gs[..n]); }
    GroupsOfLast(FlatAll(gs[..n]), gs[..n], gs[n]);
  }

  /** A body re-appended group by group is a permutation of itself. */
  lemma {:induction false} FlatIsPermutation(rows: seq<Row>)
    ensures multiset(FlatAll(GroupsOf(rows))) == multiset(rows)
  {
    if rows == [] {
      assert FlatAll([Head]) == FlatAll([]) + Flat(Head) by { FlatAllAppend([], Head); }
    } else {
      var init, last := rows[..|rows| - 1], rows[|rows| - 1];
      FlatIsPermutation(init);
      PermutationGrows(init, last);
      Snoc([], rows);
    }
  }

  lemma PermutationGrows(rows: seq<Row>, row: Row)
    requires multiset(FlatAll(GroupsOf(rows))) == multiset(rows)
    ensures multiset(FlatAll(GroupsOf(rows + [row]))) == multiset(rows + [row])
  {
    GroupsOfAppend(rows, row);
    AddRowAddsOne(GroupsOf(rows), row);
  }

  lemma FlatLengthened(g: Group, row: Row)
    requires !row.Kind().Divider?
    ensures multiset(Flat(Lengthen(g, [row], row.Kind()))) == multiset(Flat(g)) + multiset{row}
  {
  }

  lemma AddRowAddsOne(gs: seq<Group>, row: Row)
    requires gs != []
    ensures multiset(FlatAll(AddRow(gs, row))) == multiset(FlatAll(gs)) + multiset{row}
  {
    var n := |gs| - 1;
    if row.Kind().Divider? {
      FlatAllAppend(gs, Group(Some(row), [], []));
    } else {
      assert gs == gs[..n] + [gs[n]];
      AddToLast(gs[..n], gs[n], row);
      FlatAllAppend(gs[..n], gs[n]);
      FlatAllAppend(gs[..n], Lengthen(gs[n], [row], row.Kind()));
      FlatLengthened(gs[n], row);
    }
  }

  // ------------------------------------------------------------ tbody.appendChild

  function Without(body: seq<Row>, row: Row): seq<Row> {
    if body == [] then []
    else Without(body[..|body| - 1], row) + if body[|body| - 1] == row then [] else [body[|body| - 1]]
  }

  /** Appending a row that is already in the body moves it to the end. */
  function AppendChild(body: seq<Row>, row: Row): seq<Row> {
    Without(body, row) + [row]
  }

  predicate Distinct(rows: seq<Row>) {
    forall i, j | 0 <= i < j < |rows| :: rows[i] != rows[j]
  }

  /** The rows of a body that are not among those re-appended so far. */
  function Untouched(body: seq<Row>, done: seq<Row>): seq<Row> {
    if body == [] then []
    else Untouched(body[..|body| - 1], done) + if body[|body| - 1] in done then [] else [body[|body| - 1]]
  }

  lemma {:induction false} WithoutConcat(a: seq<Row>, b: seq<Row>, row: Row)
    ensures Without(a + b, row) == Without(a, row) + Without(b, row)
  {
    if b == [] {
      assert a + b == a;
    } else {
      WithoutConcat(a, b[..|b| - 1], row);
      assert (a + b)[..|a + b| - 1] == a + b[..|b| - 1];
    }
  }

  lemma {:induction false} WithoutAbsent(rows: seq<Row>, row: Row)
    requires row !in rows
    ensures Without(rows, row) == rows
  {
    if rows != [] {
      var init, last := rows[..|rows| - 1], rows[|rows| - 1];
      assert rows == init + [last] && last in rows;
      WithoutAbsent(init, row);
    }
  }

  lemma {:induction false} UntouchedNext(body: seq<Row>, done: seq<Row>, row: Row)
    ensures Without(Untouched(body, done), row) == Untouched(body, done + [row])
  {
    if body != [] {
      var n := |body| - 1;
      UntouchedNext(body[..n], done, row);
      if body[n] in done {
        assert Untouched(body[..n], done) + [] == Untouched(body[..n], done);
        assert Untouched(body[..n], done + [row]) + [] == Untouched(body[..n], done + [row]);
      } else {
        WithoutConcat(Untouched(body[..n], done), [body[n]], row);
        WithoutOne(body[n], row);
      }
    }
  }

  lemma WithoutOne(only: Row, row: Row)
    ensures Without([only], row) == if only == row then [] else [only]
  {
    assert [only][..0] == [];
  }

  /** Re-appending one more row of a body keeps the rest in place before those re-appended. */
  lemma AppendNext(body: seq<Row>, done: seq<Row>, row: Row)
    requires row !in done
    ensures AppendChild(Untouched(body, done) + done, row) == Untouched(body, done + [row]) + (done + [row])
  {
    WithoutConcat(Untouched(body, done), done, row);
    WithoutAbsent(done, row);
    UntouchedNext(body, done, row);
  }

  lemma {:induction false} UntouchedEnds(body: seq<Row>, done: seq<Row>)
    ensures (forall row | row in body :: row in done) ==> Untouched(body, done) == []
    ensures done == [] ==> Untouched(body, done) == body
  {
    if body != [] {
      var n := |body| - 1;
      assert body == body[..n] + [body[n]];
      UntouchedEnds(body[..n], done);
    }
  }
}
