/**
  A sortable table under its heading buttons, its filter box and its group
  picker (data/static/venture.js): what each event leaves, over any run of them.
 */
module TableView {
  import opened Options
  import opened Text
  import opened TableGroups
  import opened TableSort

  datatype Direction = Ascending | Descending

  /** A heading cell: data-sort-type and data-sort-default. */
  datatype Heading = Heading(extraColumns: nat, sortType: string, sortDefault: Option<string>)

  datatype Table = Table(headings: seq<Heading>, reading: Reading, filterBox: bool)

  /** `arrows` is aria-sort by heading; `hidden` and `out` the rows so marked; `needle` what is typed,
      trimmed and in lower case; `shown` the count beside the box, None when it is blank. */
  datatype State = State(
    bodies: seq<seq<Row>>, arrows: seq<Option<Direction>>,
    hidden: set<Row>, out: set<Row>, needle: string, shown: Option<nat>)

  datatype Event = Sort(heading: nat) | Type(text: string) | Pick(group: string)

  function AllRows(bodies: seq<seq<Row>>): set<Row> {
    set b, row | 0 <= b < |bodies| && row in bodies[b] :: row
  }

  function DataRows(bodies: seq<seq<Row>>): set<Row> {
    set row | row in AllRows(bodies) && row.Kind().Data?
  }

  /** Every row is one element of the page. */
  predicate RowsApart(bodies: seq<seq<Row>>) {
    && (forall b | 0 <= b < |bodies| :: Distinct(bodies[b]))
    && (forall b, c, row | 0 <= b < c < |bodies| && row in bodies[b] :: row !in bodies[c])
  }

  predicate Valid(table: Table, s: State) {
    && |s.arrows| == |table.headings| && RowsApart(s.bodies)
    && s.hidden <= AllRows(s.bodies) && s.out <= AllRows(s.bodies)
  }

  // ------------------------------------------------------------------ sorting

  function Column(headings: seq<Heading>, h: nat): nat
    requires h <= |headings|
  {
    if h == 0 then 0 else Column(headings, h - 1) + headings[h - 1].extraColumns + 1
  }

  predicate HasValue(row: Row, column: nat) {
    Value(row, column).Some?
  }

  predicate HasFigure(reading: Reading, row: Row, column: nat) {
    HasValue(row, column) && reading.number(Value(row, column).value).Some?
  }

  function Valued(rows: set<Row>, column: nat): set<Row> {
    set row | row in rows && HasValue(row, column)
  }

  function Figures(reading: Reading, rows: set<Row>, column: nat): set<Row> {
    set row | row in rows && HasFigure(reading, row, column)
  }

  /** Numeric when said to be, or when at least four values in five read as numbers. */
  predicate Numeric(reading: Reading, sortType: string, rows: set<Row>, column: nat) {
    || sortType == "num"
    || (sortType == "auto" && |Valued(rows, column)| > 0
        && 5 * |Figures(reading, rows, column)| >= 4 * |Valued(rows, column)|)
  }

  /** parsed >= Math.ceil(present * 0.8), in whole numbers. */
  lemma FourInFive(parsed: nat, present: nat)
    ensures 5 * parsed >= 4 * present <==> parsed >= -(-(present as real * 0.8)).Floor
  {
    var floor := (-(present as real * 0.8)).Floor;
    assert floor as real <= -(present as real * 0.8) < floor as real + 1.0;
  }

  function Next(arrow: Option<Direction>, sortDefault: Option<string>, numeric: bool): Direction {
    if (if arrow.Some? then arrow.value.Ascending? else sortDefault == Some("desc") || (sortDefault.None? && numeric))
    then Descending else Ascending
  }

  /** The order a click on heading h asks for. */
  function Asked(table: Table, s: State, h: nat): Order
    requires h < |table.headings| == |s.arrows|
  {
    var column := Column(table.headings, h);
    var numeric := Numeric(table.reading, table.headings[h].sortType, DataRows(s.bodies), column);
    Order(table.reading, column, numeric, Next(s.arrows[h], table.headings[h].sortDefault, numeric).Descending?)
  }

  function SortBodies(order: Order, bodies: seq<seq<Row>>): (sorted: seq<seq<Row>>)
    ensures |sorted| == |bodies|
  {
    seq(|bodies|, b requires 0 <= b < |bodies| => SortBody(order, bodies[b]))
  }

  function Arrows(n: nat, h: nat, direction: Direction): (arrows: seq<Option<Direction>>)
    ensures |arrows| == n
  {
    seq(n, i => if i == h then Some(direction) else None)
  }

  function AfterSort(table: Table, s: State, h: nat): State
    requires h < |table.headings| == |s.arrows|
  {
    var order := Asked(table, s, h);
    s.(bodies := SortBodies(order, s.bodies),
       arrows := Arrows(|s.arrows|, h, if order.descending then Descending else Ascending))
  }

  // ------------------------------------------------------- filtering, picking

  predicate Shows(needle: string, out: set<Row>, row: Row) {
    row !in out && (needle == "" || HasSubstring(row.text, needle))
  }

  predicate NoneShows(needle: string, out: set<Row>, rows: seq<Row>) {
    forall row | row in rows :: !Shows(needle, out, row)
  }

  /** Whether the filter leaves a row of a body hidden. */
  predicate Veiled(needle: string, out: set<Row>, hidden: set<Row>, rows: seq<Row>, row: Row) {
    match row.Kind()
    case Data => !Shows(needle, out, row)
    case Pinned => row in hidden
    case Divider =>
      needle != "" && exists k | 0 <= k < |GroupsOf(rows)| ::
        GroupsOf(rows)[k].divider == Some(row) && NoneShows(needle, out, GroupsOf(rows)[k].data)
  }

  function Veil(needle: string, out: set<Row>, hidden: set<Row>, bodies: seq<seq<Row>>): set<Row> {
    set b, row | 0 <= b < |bodies| && row in bodies[b] && Veiled(needle, out, hidden, bodies[b], row) :: row
  }

  function Visible(needle: string, out: set<Row>, bodies: seq<seq<Row>>): set<Row> {
    set row | row in DataRows(bodies) && Shows(needle, out, row)
  }

  /** The input event of the filter box. */
  function AfterInput(s: State): State {
    s.(hidden := Veil(s.needle, s.out, s.hidden, s.bodies),
       shown := if s.needle == "" && s.out == {} then None else Some(|Visible(s.needle, s.out, s.bodies)|))
  }

  /** The rows left out by a picked group: none when it is empty. */
  function LeftOut(group: string, bodies: seq<seq<Row>>): set<Row> {
    set row | row in DataRows(bodies) && group != "" && group !in row.groups
  }

  function AfterPick(table: Table, s: State, group: string): State {
    var data := DataRows(s.bodies);
    var left := LeftOut(group, s.bodies);
    var s1 := s.(out := (s.out - data) + left, hidden := (s.hidden - data) + left);
    if table.filterBox then AfterInput(s1) else s1
  }

  function Step(table: Table, s: State, e: Event): State
    requires |s.arrows| == |table.headings|
  {
    match e
    case Sort(h) => if h < |table.headings| then AfterSort(table, s, h) else s
    case Type(text) => if table.filterBox then AfterInput(s.(needle := text)) else s
    case Pick(group) => AfterPick(table, s, group)
  }

  function Run(table: Table, s: State, events: seq<Event>): (s': State)
    requires |s.arrows| == |table.headings|
    ensures |s'.arrows| == |table.headings|
  {
    if events == [] then s else Step(table, Run(table, s, events[..|events| - 1]), events[|events| - 1])
  }

  // ------------------------------------------------------- what always holds

  /** A body under the filter: data rows hidden when left out or not matching, dividers when text is
      typed and nothing under them shows. */
  predicate BodyFiltered(needle: string, out: set<Row>, hidden: set<Row>, rows: seq<Row>) {
    && (forall row | row in rows && row.Kind().Data? :: row in hidden <==> !Shows(needle, out, row))
    && (forall k | 0 <= k < |GroupsOf(rows)| && GroupsOf(rows)[k].divider.Some? ::
          GroupsOf(rows)[k].divider.value in hidden <==>
            needle != "" && NoneShows(needle, out, GroupsOf(rows)[k].data))
  }

  /** The whole table, with the count the number of data rows on view, blank beside a filter box exactly when
      nothing is typed and no row is left out. */
  predicate Filtered(table: Table, s: State) {
    && (forall b | 0 <= b < |s.bodies| :: BodyFiltered(s.needle, s.out, s.hidden, s.bodies[b]))
    && match s.shown
       case None => s.needle == "" && (table.filterBox ==> s.out == {})
       case Some(n) => n == |DataRows(s.bodies) - s.hidden| && (table.filterBox ==> s.needle != "" || s.out != {})
  }

  lemma {:induction false} CountedOnce(rows: seq<Row>, row: Row)
    requires Distinct(rows)
    ensures multiset(rows)[row] <= 1
  {
    if rows != [] {
      var n := |rows| - 1;
      CountedOnce(rows[..n], row);
      assert rows == rows[..n] + [rows[n]];
      if rows[n] == row { assert row !in rows[..n]; }
    }
  }

  lemma TwicePlaced(rows: seq<Row>, i: nat, j: nat)
    requires i < j < |rows| && rows[i] == rows[j]
    ensures multiset(rows)[rows[i]] > 1
  {
    assert rows == rows[..j] + rows[j..];
    assert rows[..j][i] in multiset(rows[..j]) && rows[j..][0] in multiset(rows[j..]);
  }

  lemma PermutedDistinct(a: seq<Row>, b: seq<Row>)
    requires multiset(a) == multiset(b) && Distinct(a)
    ensures Distinct(b)
  {
    forall i, j | 0 <= i < j < |b| ensures b[i] != b[j] {
      CountedOnce(a, b[i]);
      if b[i] == b[j] { TwicePlaced(b, i, j); }
    }
  }

  lemma SortKeepsRows(order: Order, bodies: seq<seq<Row>>)
    requires RowsApart(bodies)
    ensures AllRows(SortBodies(order, bodies)) == AllRows(bodies) && RowsApart(SortBodies(order, bodies))
  {
    var sorted := SortBodies(order, bodies);
    forall b, row | 0 <= b < |bodies| ensures row in sorted[b] <==> row in bodies[b] {
      SortBodyPermutes(order, bodies[b]);
      assert row in sorted[b] <==> row in multiset(sorted[b]);
    }
    forall b | 0 <= b < |bodies| ensures Distinct(sorted[b]) {
      SortBodyPermutes(order, bodies[b]);
      PermutedDistinct(bodies[b], sorted[b]);
    }
  }

  lemma {:induction false} DividerIsThere(rows: seq<Row>, k: nat)
    requires k < |GroupsOf(rows)| && GroupsOf(rows)[k].divider.Some?
    ensures GroupsOf(rows)[k].divider.value in rows && GroupsOf(rows)[k].divider.value.Kind().Divider?
  {
    GroupsWellFormed(rows);
    assert WellFormedGroup(GroupsOf(rows)[k]);
    if rows != [] {
      var init, last := rows[..|rows| - 1], rows[|rows| - 1];
      DividerKept(GroupsOf(init), last, k);
      if k < |GroupsOf(init)| && GroupsOf(init)[k].divider.Some? { DividerIsThere(init, k); }
    }
  }

  lemma DividerKept(gs: seq<Group>, row: Row, k: nat)
    requires gs != [] && k < |AddRow(gs, row)|
    ensures AddRow(gs, row)[k].divider == if k < |gs| then gs[k].divider else Some(row)
  {
  }

  lemma {:induction false} DividerHeads(rows: seq<Row>, i: nat) returns (k: nat)
    requires i < |rows| && rows[i].Kind().Divider?
    ensures k < |GroupsOf(rows)| && GroupsOf(rows)[k].divider == Some(rows[i])
  {
    var init, last := rows[..|rows| - 1], rows[|rows| - 1];
    if i == |init| {
      k := |GroupsOf(init)|;
    } else {
      k := DividerHeads(init, i);
    }
    AddRowLength(GroupsOf(init), last);
    DividerKept(GroupsOf(init), last, k);
  }

  lemma AddRowLength(gs: seq<Group>, row: Row)
    requires gs != []
    ensures |AddRow(gs, row)| == |gs| + if row.Kind().Divider? then 1 else 0
  {
  }

  lemma {:induction false} DividersDiffer(rows: seq<Row>, k: nat, l: nat)
    requires Distinct(rows) && k < l < |GroupsOf(rows)|
    requires GroupsOf(rows)[k].divider.Some?
    ensures GroupsOf(rows)[k].divider != GroupsOf(rows)[l].divider
  {
    if rows != [] {
      var init, last := rows[..|rows| - 1], rows[|rows| - 1];
      DividerKept(GroupsOf(init), last, k);
      DividerKept(GroupsOf(init), last, l);
      if l < |GroupsOf(init)| {
        DividersDiffer(init, k, l);
      } else {
        DividerIsThere(init, k);
        assert last !in init;
      }
    }
  }

  lemma VeilMember(needle: string, out: set<Row>, hidden: set<Row>, bodies: seq<seq<Row>>, b: nat, row: Row)
    requires RowsApart(bodies) && b < |bodies| && row in bodies[b]
    ensures row in Veil(needle, out, hidden, bodies) <==> Veiled(needle, out, hidden, bodies[b], row)
  {
  }

  lemma VeilDivider(needle: string, out: set<Row>, hidden: set<Row>, rows: seq<Row>, k: nat)
    requires Distinct(rows) && k < |GroupsOf(rows)| && GroupsOf(rows)[k].divider.Some?
    ensures Veiled(needle, out, hidden, rows, GroupsOf(rows)[k].divider.value) <==>
      needle != "" && NoneShows(needle, out, GroupsOf(rows)[k].data)
  {
    var gs := GroupsOf(rows);
    DividerIsThere(rows, k);
    forall l | 0 <= l < |gs| && l != k ensures gs[l].divider != gs[k].divider {
      if l < k {
        if gs[l].divider.Some? { DividersDiffer(rows, l, k); }
      } else {
        DividersDiffer(rows, k, l);
      }
    }
  }

  lemma VeilFilters(needle: string, out: set<Row>, hidden: set<Row>, bodies: seq<seq<Row>>, b: nat)
    requires RowsApart(bodies) && b < |bodies|
    ensures BodyFiltered(needle, out, Veil(needle, out, hidden, bodies), bodies[b])
  {
    var veil, gs := Veil(needle, out, hidden, bodies), GroupsOf(bodies[b]);
    forall row | row in bodies[b] && row.Kind().Data? ensures row in veil <==> !Shows(needle, out, row) {
      VeilMember(needle, out, hidden, bodies, b, row);
    }
    forall k | 0 <= k < |gs| && gs[k].divider.Some?
      ensures gs[k].divider.value in veil <==> needle != "" && NoneShows(needle, out, gs[k].data)
    {
      DividerIsThere(bodies[b], k);
      VeilMember(needle, out, hidden, bodies, b, gs[k].divider.value);
      VeilDivider(needle, out, hidden, bodies[b], k);
    }
  }

  /** What is on view after the filter is what shows. */
  lemma VisibleRows(needle: string, out: set<Row>, hidden: set<Row>, bodies: seq<seq<Row>>)
    requires forall b | 0 <= b < |bodies| :: BodyFiltered(needle, out, hidden, bodies[b])
    ensures DataRows(bodies) - hidden == Visible(needle, out, bodies)
  {
    forall row | row in DataRows(bodies) ensures row in hidden <==> !Shows(needle, out, row) {
      var b :| 0 <= b < |bodies| && row in bodies[b];
      assert BodyFiltered(needle, out, hidden, bodies[b]);
    }
  }

  lemma InputFilters(table: Table, s: State)
    requires RowsApart(s.bodies)
    ensures Filtered(table, AfterInput(s))
  {
    var s' := AfterInput(s);
    forall b | 0 <= b < |s.bodies| ensures BodyFiltered(s'.needle, s'.out, s'.hidden, s'.bodies[b]) {
      VeilFilters(s.needle, s.out, s.hidden, s.bodies, b);
    }
    VisibleRows(s.needle, s.out, s'.hidden, s.bodies);
  }

  /** A row is on view when no group leaves it out and what is typed, if anything, stands somewhere in its text. */
  lemma ShowsWhenItSays(needle: string, out: set<Row>, row: Row)
    ensures Shows(needle, out, row) <==> row !in out && (needle == "" || exists i: nat :: OccursAt(row.text, needle, i))
  {
    FoundWhereItOccurs(row.text, needle);
  }

  /** The count beside the box is the number of data rows that are not left out and say what is typed. */
  lemma CountIsWhatSays(s: State)
    ensures AfterInput(s).shown == if s.needle == "" && s.out == {} then None else Some(
              |set row | row in DataRows(s.bodies) && row !in s.out
                         && (s.needle == "" || exists i: nat :: OccursAt(row.text, s.needle, i))|)
  {
    var says := set row | row in DataRows(s.bodies) && row !in s.out
                          && (s.needle == "" || exists i: nat :: OccursAt(row.text, s.needle, i));
    forall row ensures row in says <==> row in Visible(s.needle, s.out, s.bodies) {
      ShowsWhenItSays(s.needle, s.out, row);
    }
    assert says == Visible(s.needle, s.out, s.bodies);
  }

  /** A hidden set is settled by what is typed and picked, but for the totals, which no filter touches. */
  lemma FilterDetermines(s: State, hidden: set<Row>)
    requires RowsApart(s.bodies) && hidden <= AllRows(s.bodies)
    requires forall b | 0 <= b < |s.bodies| :: BodyFiltered(s.needle, s.out, hidden, s.bodies[b])
    requires forall row | row in AllRows(s.bodies) && row.Kind().Pinned? :: row in hidden <==> row in s.hidden
    ensures hidden == AfterInput(s).hidden
  {
    var veil := Veil(s.needle, s.out, s.hidden, s.bodies);
    forall row | row in AllRows(s.bodies) ensures row in hidden <==> row in veil {
      var b :| 0 <= b < |s.bodies| && row in s.bodies[b];
      VeilMember(s.needle, s.out, s.hidden, s.bodies, b, row);
      VeilFilters(s.needle, s.out, s.hidden, s.bodies, b);
      assert BodyFiltered(s.needle, s.out, hidden, s.bodies[b]);
      if row.Kind().Divider? {
        var i :| 0 <= i < |s.bodies[b]| && s.bodies[b][i] == row;
        var k := DividerHeads(s.bodies[b], i);
        assert GroupsOf(s.bodies[b])[k].divider.value == row;
      }
    }
  }

  // ------------------------------------------------------------ over any run

  /** As the page is wired: without a box nothing is typed and nothing counted. */
  predicate Drawn(table: Table, s: State) {
    Valid(table, s) && (table.filterBox || (s.needle == "" && s.shown.None?))
  }

  lemma SortKeepsBody(order: Order, needle: string, out: set<Row>, hidden: set<Row>, rows: seq<Row>)
    requires BodyFiltered(needle, out, hidden, rows)
    ensures BodyFiltered(needle, out, hidden, SortBody(order, rows))
  {
    var gs, sorted := GroupsOf(rows), SortBody(order, rows);
    SortBodyKeepsGroups(order, rows);
    SortBodyPermutes(order, rows);
    forall row | row in sorted && row.Kind().Data? ensures row in hidden <==> !Shows(needle, out, row) {
      assert row in multiset(rows);
    }
    forall k | 0 <= k < |gs| && gs[k].divider.Some?
      ensures NoneShows(needle, out, SortGroups(order, gs)[k].data) == NoneShows(needle, out, gs[k].data)
    {
      SameMembers(needle, out, SortRows(order, gs[k].data), gs[k].data, order);
    }
  }

  lemma SameMembers(needle: string, out: set<Row>, sorted: seq<Row>, rows: seq<Row>, order: Order)
    requires sorted == SortRows(order, rows)
    ensures NoneShows(needle, out, sorted) == NoneShows(needle, out, rows)
  {
    SortRowsPermutes(order, rows);
    assert forall row :: row in sorted <==> row in multiset(sorted);
    assert forall row :: row in rows <==> row in multiset(rows);
  }

  /** A sort moves rows and leaves what is hidden right for where they now stand. */
  lemma SortKeepsFiltered(table: Table, s: State, h: nat)
    requires Valid(table, s) && h < |table.headings|
    ensures Valid(table, AfterSort(table, s, h))
    ensures DataRows(AfterSort(table, s, h).bodies) == DataRows(s.bodies)
    ensures Filtered(table, s) ==> Filtered(table, AfterSort(table, s, h))
  {
    var order := Asked(table, s, h);
    SortKeepsRows(order, s.bodies);
    if Filtered(table, s) {
      forall b | 0 <= b < |s.bodies|
        ensures BodyFiltered(s.needle, s.out, s.hidden, SortBodies(order, s.bodies)[b])
      {
        SortKeepsBody(order, s.needle, s.out, s.hidden, s.bodies[b]);
      }
    }
  }

  /** Typing and picking settle the filter whatever was hidden before. */
  lemma ControlsFilter(table: Table, s: State, e: Event)
    requires Drawn(table, s) && table.filterBox && !e.Sort?
    ensures Filtered(table, Step(table, s, e))
  {
    match e
    case Type(text) => InputFilters(table, s.(needle := text));
    case Pick(group) =>
      var data, left := DataRows(s.bodies), LeftOut(group, s.bodies);
      InputFilters(table, s.(out := (s.out - data) + left, hidden := (s.hidden - data) + left));
  }

  lemma PickWithoutBox(table: Table, s: State, group: string)
    requires Drawn(table, s) && !table.filterBox && Filtered(table, s)
    ensures Filtered(table, AfterPick(table, s, group))
  {
    var s' := AfterPick(table, s, group);
    forall b | 0 <= b < |s.bodies| ensures BodyFiltered(s'.needle, s'.out, s'.hidden, s.bodies[b]) {
      var rows := s.bodies[b];
      assert BodyFiltered(s.needle, s.out, s.hidden, rows);
      forall row | row in rows && row.Kind().Data? ensures row in s'.hidden <==> row in s'.out {
        assert row in DataRows(s.bodies);
      }
      forall k | 0 <= k < |GroupsOf(rows)| && GroupsOf(rows)[k].divider.Some?
        ensures GroupsOf(rows)[k].divider.value !in s'.hidden
      {
        DividerIsThere(rows, k);
      }
    }
  }

  lemma StepKeepsDrawn(table: Table, s: State, e: Event)
    requires Drawn(table, s)
    ensures Drawn(table, Step(table, s, e))
    ensures DataRows(Step(table, s, e).bodies) == DataRows(s.bodies)
  {
    if e.Sort? && e.heading < |table.headings| { SortKeepsFiltered(table, s, e.heading); }
  }

  lemma StepKeepsFiltered(table: Table, s: State, e: Event)
    requires Drawn(table, s) && Filtered(table, s)
    ensures Filtered(table, Step(table, s, e))
  {
    match e
    case Sort(h) => if h < |table.headings| { SortKeepsFiltered(table, s, h); }
    case Type(text) => if table.filterBox { ControlsFilter(table, s, e); }
    case Pick(group) =>
      if table.filterBox { ControlsFilter(table, s, e); } else { PickWithoutBox(table, s, group); }
  }

  /** Typing and picking come to the same in either order. */
  lemma TypingAndPickingCommute(table: Table, s: State, text: string, group: string)
    requires Drawn(table, s) && table.filterBox
    ensures Step(table, Step(table, s, Type(text)), Pick(group)) == Step(table, Step(table, s, Pick(group)), Type(text))
  {
    var a := Step(table, s, Type(text));
    var b := Step(table, s, Pick(group));
    var ab, ba := Step(table, a, Pick(group)), Step(table, b, Type(text));
    ControlsFilter(table, a, Pick(group));
    PinnedKept(s.(needle := text));
    var data, left := DataRows(s.bodies), LeftOut(group, s.bodies);
    var out := (s.out - data) + left;
    PinnedKept(a.(out := out, hidden := (a.hidden - data) + left));
    PinnedKept(s.(out := out, hidden := (s.hidden - data) + left));
    FilterDetermines(b.(needle := text), ab.hidden);
  }

  lemma PinnedKept(s: State)
    requires RowsApart(s.bodies)
    ensures forall row | row in AllRows(s.bodies) && row.Kind().Pinned? ::
      row in AfterInput(s).hidden <==> row in s.hidden
  {
    forall row | row in AllRows(s.bodies) && row.Kind().Pinned?
      ensures row in AfterInput(s).hidden <==> row in s.hidden
    {
      var b :| 0 <= b < |s.bodies| && row in s.bodies[b];
      VeilMember(s.needle, s.out, s.hidden, s.bodies, b, row);
    }
  }

  /** What was typed last. */
  function Typed(table: Table, needle: string, events: seq<Event>): string {
    if events == [] then needle
    else
      var last := events[|events| - 1];
      if last.Type? && table.filterBox then last.text else Typed(table, needle, events[..|events| - 1])
  }

  /** Whether the group picked last leaves a data row out. */
  predicate Outside(out: set<Row>, events: seq<Event>, row: Row) {
    if events == [] then row in out
    else
      var last := events[|events| - 1];
      if last.Pick? then last.group != "" && last.group !in row.groups else Outside(out, events[..|events| - 1], row)
  }

  lemma StepTypes(table: Table, s: State, e: Event)
    requires |s.arrows| == |table.headings|
    ensures Step(table, s, e).needle == if e.Type? && table.filterBox then e.text else s.needle
  {
  }

  lemma StepTracks(table: Table, s: State, e: Event, row: Row)
    requires |s.arrows| == |table.headings| && row in DataRows(s.bodies)
    ensures row in Step(table, s, e).out <==>
      if e.Pick? then e.group != "" && e.group !in row.groups else row in s.out
  {
  }

  lemma {:induction false} RunStaysFiltered(table: Table, s: State, events: seq<Event>)
    requires Drawn(table, s) && Filtered(table, s)
    ensures var s' := Run(table, s, events);
            && Drawn(table, s') && Filtered(table, s') && DataRows(s'.bodies) == DataRows(s.bodies)
            && s'.needle == Typed(table, s.needle, events)
  {
    if events != [] {
      var init, last := events[..|events| - 1], events[|events| - 1];
      var s1 := Run(table, s, init);
      RunStaysFiltered(table, s, init);
      StepKeepsDrawn(table, s1, last);
      StepKeepsFiltered(table, s1, last);
      StepTypes(table, s1, last);
    }
  }

  lemma {:induction false} RunTracks(table: Table, s: State, events: seq<Event>, row: Row)
    requires Drawn(table, s) && Filtered(table, s) && row in DataRows(s.bodies)
    ensures row in Run(table, s, events).out <==> Outside(s.out, events, row)
  {
    if events != [] {
      var init, last := events[..|events| - 1], events[|events| - 1];
      RunTracks(table, s, init, row);
      RunStaysFiltered(table, s, init);
      StepTracks(table, Run(table, s, init), last, row);
    }
  }

  /** Over any run of typing, picking and sorting, a data row is hidden exactly when the group last picked
      leaves it out or its text does not match what was last typed. */
  lemma HiddenExactlyWhen(table: Table, s: State, events: seq<Event>, row: Row)
    requires Drawn(table, s) && Filtered(table, s) && row in DataRows(s.bodies)
    ensures var needle := Typed(table, s.needle, events);
            row in Run(table, s, events).hidden <==>
              Outside(s.out, events, row) || !(needle == "" || exists i: nat :: OccursAt(row.text, needle, i))
    ensures Filtered(table, Run(table, s, events))
  {
    FoundWhereItOccurs(row.text, Typed(table, s.needle, events));
    RunTracks(table, s, events, row);
    RunStaysFiltered(table, s, events);
    var s' := Run(table, s, events);
    assert row in DataRows(s'.bodies);
    var b :| 0 <= b < |s'.bodies| && row in s'.bodies[b];
    assert BodyFiltered(s'.needle, s'.out, s'.hidden, s'.bodies[b]);
  }

  /** And a divider is hidden exactly when something is typed and every data row under it is hidden. */
  lemma DividerHiddenExactlyWhen(table: Table, s: State, events: seq<Event>, b: nat, k: nat)
    requires Drawn(table, s) && Filtered(table, s)
    requires var s' := Run(table, s, events);
             b < |s'.bodies| && k < |GroupsOf(s'.bodies[b])| && GroupsOf(s'.bodies[b])[k].divider.Some?
    ensures var s' := Run(table, s, events);
            var g := GroupsOf(s'.bodies[b])[k];
            g.divider.value in s'.hidden <==>
              Typed(table, s.needle, events) != "" && forall i | 0 <= i < |g.data| :: g.data[i] in s'.hidden
  {
    RunStaysFiltered(table, s, events);
    var s' := Run(table, s, events);
    var g := GroupsOf(s'.bodies[b])[k];
    assert BodyFiltered(s'.needle, s'.out, s'.hidden, s'.bodies[b]);
    forall i | 0 <= i < |g.data| ensures g.data[i] in s'.hidden <==> !Shows(s'.needle, s'.out, g.data[i]) {
      DataIsThere(s'.bodies[b], k, g.data[i]);
    }
  }

  lemma {:induction false} DataIsThere(rows: seq<Row>, k: nat, row: Row)
    requires k < |GroupsOf(rows)| && row in GroupsOf(rows)[k].data
    ensures row in rows && row.Kind().Data?
  {
    GroupsWellFormed(rows);
    assert WellFormedGroup(GroupsOf(rows)[k]);
    if rows != [] {
      var init, last := rows[..|rows| - 1], rows[|rows| - 1];
      DataKept(GroupsOf(init), last, k, row);
      if k < |GroupsOf(init)| && row in GroupsOf(init)[k].data { DataIsThere(init, k, row); }
    }
  }

  lemma DataKept(gs: seq<Group>, last: Row, k: nat, row: Row)
    requires gs != [] && k < |AddRow(gs, last)| && row in AddRow(gs, last)[k].data
    ensures row == last || (k < |gs| && row in gs[k].data)
  {
  }

  // ------------------------------------------------------------------- clicks

  function Clicks(table: Table, s: State, h: nat, n: nat): (s': State)
    requires h < |table.headings| == |s.arrows|
    ensures |s'.arrows| == |table.headings|
  {
    if n == 0 then s else AfterSort(table, Clicks(table, s, h, n - 1), h)
  }

  function Turned(order: Order, n: nat): Order {
    order.(descending := order.descending == (n % 2 == 1))
  }

  lemma SortBodiesTwice(order: Order, bodies: seq<seq<Row>>, descending: bool)
    requires Collates(order.reading)
    ensures SortBodies(order, SortBodies(order.(descending := descending), bodies)) == SortBodies(order, bodies)
  {
    forall b | 0 <= b < |bodies|
      ensures SortBody(order, SortBody(order.(descending := descending), bodies[b])) == SortBody(order, bodies[b])
    {
      LastSortDecides(order, bodies[b], descending);
    }
  }

  /** One more click on the heading that was clicked last. */
  lemma ClickAgain(table: Table, s: State, h: nat, before: State, order: Order)
    requires Valid(table, s) && Collates(table.reading) && h < |table.headings|
    requires order == Asked(table, s, h).(descending := order.descending)
    requires before == s.(bodies := SortBodies(order, s.bodies),
                          arrows := Arrows(|s.arrows|, h, if order.descending then Descending else Ascending))
    ensures var next := order.(descending := !order.descending);
      AfterSort(table, before, h) == s.(bodies := SortBodies(next, s.bodies),
        arrows := Arrows(|s.arrows|, h, if next.descending then Descending else Ascending))
  {
    var next := order.(descending := !order.descending);
    SortKeepsRows(order, s.bodies);
    assert DataRows(before.bodies) == DataRows(s.bodies);
    assert Asked(table, before, h) == next;
    assert order == next.(descending := order.descending);
    SortBodiesTwice(next, s.bodies, order.descending);
  }

  lemma TurnedNext(order: Order, n: nat)
    ensures Turned(order, 1) == order
    ensures Turned(order, n + 1) == Turned(order, n).(descending := !Turned(order, n).descending)
  {
  }

  /** Each click on a heading turns the direction round, and leaves the rows as one click in that direction
      would have: after three the table stands as it did after one. */
  lemma {:induction false} ClicksAlternate(table: Table, s: State, h: nat, n: nat)
    requires Valid(table, s) && Collates(table.reading) && h < |table.headings| && n > 0
    ensures var order := Turned(Asked(table, s, h), n);
      Clicks(table, s, h, n) == s.(bodies := SortBodies(order, s.bodies),
        arrows := Arrows(|s.arrows|, h, if order.descending then Descending else Ascending))
  {
    var first := Asked(table, s, h);
    TurnedNext(first, n - 1);
    if n == 1 {
      assert Clicks(table, s, h, 0) == s;
    } else {
      ClicksAlternate(table, s, h, n - 1);
      ClickAgain(table, s, h, Clicks(table, s, h, n - 1), Turned(first, n - 1));
    }
  }

  lemma ThreeClicksAreOne(table: Table, s: State, h: nat)
    requires Valid(table, s) && Collates(table.reading) && h < |table.headings|
    ensures Clicks(table, s, h, 3) == Clicks(table, s, h, 1)
  {
    ClicksAlternate(table, s, h, 1);
    ClicksAlternate(table, s, h, 3);
  }
}
