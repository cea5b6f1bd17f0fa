/**
  Sorting a table by a column: `sortTableBy` of data/static/venture.js.  All the
  data rows of a table are sorted in one list, dealt back to their groups, and
  re-appended; what comes out is each group sorted alone.
 */
module TableSort {
  import opened Options
  import opened StableSort
  import opened TableGroups

  /** How values are read and compared: sortNumber (None for NaN), and the sign of localeCompare. */
  datatype Reading = Reading(number: string -> Option<real>, collate: (string, string) -> int)

  /** localeCompare is a total preorder. */
  ghost predicate Collates(reading: Reading) {
    && (forall a, b :: reading.collate(a, b) < 0 <==> reading.collate(b, a) > 0)
    && (forall a, b, c :: reading.collate(a, b) <= 0 && reading.collate(b, c) <= 0 ==> reading.collate(a, c) <= 0)
  }

  datatype Order = Order(reading: Reading, column: nat, numeric: bool, descending: bool)

  datatype Key = Null | Figure(figure: real) | Words(words: string)

  /** The cell that starts at a column; none when a wider one covers it. */
  function CellAt(cells: seq<Cell>, column: nat): Option<Cell> {
    if cells == [] then None
    else if column == 0 then Some(cells[0])
    else if column <= cells[0].extraColumns then None
    else CellAt(cells[1..], column - cells[0].extraColumns - 1)
  }

  /** The column a cell starts at. */
  function StartOf(cells: seq<Cell>, k: nat): nat
    requires k <= |cells|
  {
    if k == 0 then 0 else cells[0].extraColumns + 1 + StartOf(cells[1..], k - 1)
  }

  /** A column finds the cell that starts there, and nothing when it falls inside a cell or past the last. */
  lemma {:induction false} CellAtColumn(cells: seq<Cell>, k: nat, column: nat)
    requires k <= |cells| && StartOf(cells, k) <= column
    requires k < |cells| ==> column < StartOf(cells, k + 1)
    ensures CellAt(cells, column) == if k < |cells| && column == StartOf(cells, k) then Some(cells[k]) else None
    decreases k
  {
    if k > 0 {
      if k < |cells| { assert StartOf(cells, k + 1) == cells[0].extraColumns + 1 + StartOf(cells[1..], k); }
      CellAtColumn(cells[1..], k - 1, column - cells[0].extraColumns - 1);
    }
  }

  function Value(row: Row, column: nat): Option<string> {
    var cell := CellAt(row.cells, column);
    if cell.Some? then cell.value.value else None
  }

  function KeyOf(order: Order, row: Row): Key {
    var value := Value(row, order.column);
    if value.None? then Null
    else if !order.numeric then Words(value.value)
    else
      var number := order.reading.number(value.value);
      if number.Some? then Figure(number.value) else Null
  }

  /** a's key comes first: a missing one comes last whatever the direction. */
  predicate Ahead(order: Order, a: Key, b: Key) {
    match (a, b)
    case (Null, _) => false
    case (_, Null) => true
    case (Figure(x), Figure(y)) => if order.descending then y < x else x < y
    case (Words(x), Words(y)) =>
      if order.descending then order.reading.collate(x, y) > 0 else order.reading.collate(x, y) < 0
    case _ => false
  }

  function RowAhead(order: Order): (Row, Row) -> bool {
    (a: Row, b: Row) => Ahead(order, KeyOf(order, a), KeyOf(order, b))
  }

  lemma RowsStrictWeak(order: Order)
    requires Collates(order.reading)
    ensures StrictWeak(RowAhead(order))
  {
    var ahead := RowAhead(order);
    forall a, b | ahead(a, b) ensures !ahead(b, a) {}
    forall a, b, c | !ahead(b, a) && !ahead(c, b) ensures !ahead(c, a) {
      NotAheadChains(order, KeyOf(order, a), KeyOf(order, b), KeyOf(order, c));
    }
  }

  predicate KeyFits(order: Order, key: Key) {
    key.Null? || key.Figure? == order.numeric
  }

  lemma NotAheadChains(order: Order, a: Key, b: Key, c: Key)
    requires Collates(order.reading) && KeyFits(order, a) && KeyFits(order, b) && KeyFits(order, c)
    requires !Ahead(order, b, a) && !Ahead(order, c, b)
    ensures !Ahead(order, c, a)
  {
    if a.Words? && b.Words? && c.Words? {
      var collate := order.reading.collate;
      var x, y, z := a.words, b.words, c.words;
      assert collate(x, y) < 0 <==> collate(y, x) > 0;
      assert collate(y, z) < 0 <==> collate(z, y) > 0;
      assert collate(x, z) < 0 <==> collate(z, x) > 0;
    }
  }

  function SortRows(order: Order, rows: seq<Row>): seq<Row> {
    SortBy(RowAhead(order), rows)
  }

  // ---------------------------------------------------------- one group's order

  lemma SortRowsPermutes(order: Order, rows: seq<Row>)
    ensures multiset(SortRows(order, rows)) == multiset(rows)
  {
    SortPermutes(RowAhead(order), rows);
  }

  /** Every group comes out a permutation, in order, ties as they were. */
  lemma SortedGroup(order: Order, rows: seq<Row>)
    requires Collates(order.reading)
    ensures multiset(SortRows(order, rows)) == multiset(rows) && |SortRows(order, rows)| == |rows|
    ensures Ordered(RowAhead(order), SortRows(order, rows))
    ensures SameTies(RowAhead(order), SortRows(order, rows), rows)
  {
    RowsStrictWeak(order);
    SortPermutes(RowAhead(order), rows);
    SortOrders(RowAhead(order), rows);
    SortIsStable(RowAhead(order), rows);
  }

  /** Rows without a key come last in either direction. */
  lemma MissingLast(order: Order, rows: seq<Row>, i: nat, j: nat)
    requires Collates(order.reading) && i < j < |SortRows(order, rows)|
    ensures KeyOf(order, SortRows(order, rows)[i]).Null? ==> KeyOf(order, SortRows(order, rows)[j]).Null?
  {
    SortedGroup(order, rows);
    var s := SortRows(order, rows);
    assert !RowAhead(order)(s[j], s[i]);
  }

  lemma {:induction false} TiesEitherWay(order: Order, rows: seq<Row>, p: Row)
    requires Collates(order.reading)
    ensures Ties(RowAhead(order), rows, p) == Ties(RowAhead(order.(descending := !order.descending)), rows, p)
  {
    if rows != [] {
      var n := |rows| - 1;
      TiesEitherWay(order, rows[..n], p);
      var back := order.(descending := !order.descending);
      assert KeyOf(order, rows[n]) == KeyOf(back, rows[n]) && KeyOf(order, p) == KeyOf(back, p);
    }
  }

  /** A sort undoes the one before it on the same column: only the last direction shows. */
  lemma LastDirectionDecides(order: Order, rows: seq<Row>)
    requires Collates(order.reading)
    ensures SortRows(order, SortRows(order.(descending := !order.descending), rows)) == SortRows(order, rows)
  {
    var back := order.(descending := !order.descending);
    var ahead := RowAhead(order);
    var once, twice := SortRows(order, rows), SortRows(order, SortRows(back, rows));
    RowsStrictWeak(order);
    SortedGroup(order, rows);
    SortedGroup(back, rows);
    SortedGroup(order, SortRows(back, rows));
    forall p ensures Ties(ahead, twice, p) == Ties(ahead, once, p) {
      assert Ties(ahead, twice, p) == Ties(ahead, SortRows(back, rows), p);
      TiesEitherWay(order, SortRows(back, rows), p);
      assert Ties(RowAhead(back), SortRows(back, rows), p) == Ties(RowAhead(back), rows, p);
      TiesEitherWay(order, rows, p);
      assert Ties(ahead, once, p) == Ties(ahead, rows, p);
    }
    OnlyOneArrangement(ahead, twice, once);
  }

  /** Sorting the same way again changes nothing. */
  lemma SortedStays(order: Order, rows: seq<Row>)
    requires Collates(order.reading)
    ensures SortRows(order, SortRows(order, rows)) == SortRows(order, rows)
  {
    var s := SortRows(order, rows);
    RowsStrictWeak(order);
    SortedGroup(order, rows);
    SortedGroup(order, s);
    OnlyOneArrangement(RowAhead(order), SortRows(order, s), s);
  }

  // -------------------------------------------------------------- the one list

  /** A data row in the list to sort: where it was read, and the group it goes back to. */
  datatype Entry = Entry(row: Row, index: nat, body: nat, section: nat)

  /** The comparison handed to Array.prototype.sort. */
  function Compare(order: Order, a: Entry, b: Entry): int {
    var x, y := KeyOf(order, a.row), KeyOf(order, b.row);
    if x.Null? != y.Null? then if x.Null? then 1 else -1
    else
      var sign :=
        match (x, y)
        case (Figure(p), Figure(q)) => if p < q then -1 else if q < p then 1 else 0
        case (Words(p), Words(q)) => order.reading.collate(p, q)
        case _ => 0;
      if sign == 0 then a.index - b.index else if order.descending then -sign else sign
  }

  function EntryAhead(order: Order): (Entry, Entry) -> bool {
    (a: Entry, b: Entry) => Ahead(order, KeyOf(order, a.row), KeyOf(order, b.row))
  }

  function CompareLess(order: Order): (Entry, Entry) -> bool {
    (a: Entry, b: Entry) => Compare(order, a, b) < 0
  }

  function SortEntries(order: Order, entries: seq<Entry>): seq<Entry> {
    SortBy(EntryAhead(order), entries)
  }

  lemma EntriesStrictWeak(order: Order)
    requires Collates(order.reading)
    ensures StrictWeak(EntryAhead(order))
  {
    RowsStrictWeak(order);
    forall a, b | EntryAhead(order)(a, b) ensures !EntryAhead(order)(b, a) {
      assert RowAhead(order)(a.row, b.row);
    }
    forall a, b, c | !EntryAhead(order)(b, a) && !EntryAhead(order)(c, b) ensures !EntryAhead(order)(c, a) {
      assert !RowAhead(order)(b.row, a.row) && !RowAhead(order)(c.row, b.row);
    }
  }

  /** Entries read one after another. */
  predicate Listed(entries: seq<Entry>) {
    forall i, j | 0 <= i < j < |entries| :: entries[i].index < entries[j].index
  }

  lemma CompareMeans(order: Order, a: Entry, b: Entry)
    requires Collates(order.reading)
    ensures CompareLess(order)(a, b)
      <==> EntryAhead(order)(a, b) || (!EntryAhead(order)(b, a) && a.index < b.index)
  {
    var x, y := KeyOf(order, a.row), KeyOf(order, b.row);
    assert EntryAhead(order)(a, b) == Ahead(order, x, y) && EntryAhead(order)(b, a) == Ahead(order, y, x);
    if x.Words? && y.Words? {
      var collate := order.reading.collate;
      assert collate(x.words, y.words) < 0 <==> collate(y.words, x.words) > 0;
      assert collate(y.words, x.words) < 0 <==> collate(x.words, y.words) > 0;
    }
  }

  lemma {:induction false} InsertStrictly(order: Order, s: seq<Entry>, e: Entry)
    requires Collates(order.reading) && StrictWeak(EntryAhead(order))
    requires Strictly(CompareLess(order), s) && Ordered(EntryAhead(order), s)
    requires forall y | y in s :: y.index < e.index
    ensures Strictly(CompareLess(order), Insert(EntryAhead(order), s, e))
  {
    var ahead, n := EntryAhead(order), |s| - 1;
    if s == [] || !ahead(e, s[n]) {
      BehindAll(ahead, s, e);
      forall y | y in s ensures CompareLess(order)(y, e) { CompareMeans(order, y, e); }
      StrictlySnoc(CompareLess(order), s, e);
    } else {
      InsertStrictly(order, s[..n], e);
      InsertPermutes(ahead, s[..n], e);
      forall y | y in Insert(ahead, s[..n], e) ensures CompareLess(order)(y, s[n]) {
        assert y in multiset(s[..n]) + multiset{e};
        CompareMeans(order, y, s[n]);
      }
      StrictlySnoc(CompareLess(order), Insert(ahead, s[..n], e), s[n]);
    }
  }

  lemma {:induction false} SortsStrictly(order: Order, entries: seq<Entry>)
    requires Collates(order.reading) && Listed(entries)
    ensures Strictly(CompareLess(order), SortEntries(order, entries))
  {
    if entries != [] {
      var n := |entries| - 1;
      SortsStrictly(order, entries[..n]);
      EntriesStrictWeak(order);
      SortOrders(EntryAhead(order), entries[..n]);
      SortPermutes(EntryAhead(order), entries[..n]);
      forall y | y in SortEntries(order, entries[..n]) ensures y.index < entries[n].index {
        assert y in multiset(entries[..n]);
      }
      InsertStrictly(order, SortEntries(order, entries[..n]), entries[n]);
    }
  }

  /** Whatever algorithm the engine sorts by, that comparison leaves it one answer. */
  lemma EngineSort(order: Order, entries: seq<Entry>, sorted: seq<Entry>)
    requires Collates(order.reading) && Listed(entries)
    requires multiset(sorted) == multiset(entries)
    ensures Strictly(CompareLess(order), sorted) <==> sorted == SortEntries(order, entries)
  {
    SortsStrictly(order, entries);
    SortPermutes(EntryAhead(order), entries);
    if Strictly(CompareLess(order), sorted) {
      var less := CompareLess(order);
      forall x, y | less(x, y) ensures !less(y, x) {
        CompareMeans(order, x, y);
        CompareMeans(order, y, x);
      }
      OnlyStrictArrangement(less, sorted, SortEntries(order, entries));
    }
  }

  // ------------------------------------------------------------ back to groups

  predicate Of(e: Entry, body: nat, section: nat) {
    e.body == body && e.section == section
  }

  /** The rows of one group among the entries, in their order. */
  function Section(entries: seq<Entry>, body: nat, section: nat): seq<Row> {
    if entries == [] then []
    else
      var n := |entries| - 1;
      var rest := Section(entries[..n], body, section);
      if Of(entries[n], body, section) then rest + [entries[n].row] else rest
  }

  lemma SectionSnoc(entries: seq<Entry>, e: Entry, body: nat, section: nat)
    ensures var rest := Section(entries, body, section);
            Section(entries + [e], body, section) == if Of(e, body, section) then rest + [e.row] else rest
  {
    assert (entries + [e])[..|entries|] == entries;
  }

  lemma {:induction false} SectionBehind(order: Order, entries: seq<Entry>, e: Entry, body: nat, section: nat)
    requires forall y | y in entries :: !EntryAhead(order)(e, y)
    ensures forall row | row in Section(entries, body, section) :: !RowAhead(order)(e.row, row)
  {
    if entries != [] {
      var n := |entries| - 1;
      SectionBehind(order, entries[..n], e, body, section);
      assert !EntryAhead(order)(e, entries[n]);
    }
  }

  lemma {:induction false} SectionOfInsert(order: Order, s: seq<Entry>, e: Entry, body: nat, section: nat)
    requires StrictWeak(EntryAhead(order)) && Ordered(EntryAhead(order), s)
    ensures Section(Insert(EntryAhead(order), s, e), body, section)
         == if Of(e, body, section) then Insert(RowAhead(order), Section(s, body, section), e.row)
            else Section(s, body, section)
  {
    var ahead, n := EntryAhead(order), |s| - 1;
    if s == [] || !ahead(e, s[n]) {
      BehindAll(ahead, s, e);
      SectionBehind(order, s, e, body, section);
      SectionSnoc(s, e, body, section);
    } else {
      SectionOfInsert(order, s[..n], e, body, section);
      SectionSnoc(Insert(ahead, s[..n], e), s[n], body, section);
      InsertSnoc(RowAhead(order), Section(s[..n], body, section), s[n].row, e.row);
    }
  }

  lemma SortedEntriesInsert(order: Order, init: seq<Entry>, e: Entry, body: nat, section: nat)
    requires Collates(order.reading)
    ensures var s := SortEntries(order, init);
            Section(Insert(EntryAhead(order), s, e), body, section)
            == if Of(e, body, section) then Insert(RowAhead(order), Section(s, body, section), e.row)
               else Section(s, body, section)
  {
    EntriesStrictWeak(order);
    SortOrders(EntryAhead(order), init);
    SectionOfInsert(order, SortEntries(order, init), e, body, section);
  }

  /** Sorting all the rows and then picking out a group is sorting the group. */
  lemma {:induction false} SectionOfSorted(order: Order, entries: seq<Entry>, body: nat, section: nat)
    requires Collates(order.reading)
    ensures Section(SortEntries(order, entries), body, section) == SortRows(order, Section(entries, body, section))
  {
    if entries != [] {
      var init, e := entries[..|entries| - 1], entries[|entries| - 1];
      assert entries == init + [e];
      SectionOfSorted(order, init, body, section);
      SectionSnoc(init, e, body, section);
      SortBySnoc(EntryAhead(order), init, e);
      SortedEntriesInsert(order, init, e, body, section);
      SortBySnoc(RowAhead(order), Section(init, body, section), e.row);
    }
  }

  // ------------------------------------------------------------------ a body

  function SortGroups(order: Order, gs: seq<Group>): (sorted: seq<Group>)
    ensures |sorted| == |gs|
  {
    seq(|gs|, k requires 0 <= k < |gs| => gs[k].(data := SortRows(order, gs[k].data)))
  }

  /** A body with each of its groups sorted alone. */
  function SortBody(order: Order, rows: seq<Row>): seq<Row> {
    FlatAll(SortGroups(order, GroupsOf(rows)))
  }

  lemma SortKeepsKind(order: Order, rows: seq<Row>)
    requires OfKind(rows, Data)
    ensures OfKind(SortRows(order, rows), Data)
  {
    SortPermutes(RowAhead(order), rows);
    forall row | row in SortRows(order, rows) ensures row.Kind() == Data {
      assert row in multiset(rows);
    }
  }

  /** The sorted body has the same groups, in the same order, under the same dividers and with the same
      totals in the same order, each with its own data rows sorted. */
  lemma SortBodyKeepsGroups(order: Order, rows: seq<Row>)
    ensures GroupsOf(SortBody(order, rows)) == SortGroups(order, GroupsOf(rows))
  {
    var gs := GroupsOf(rows);
    GroupsWellFormed(rows);
    forall k | 0 <= k < |gs| ensures WellFormedGroup(SortGroups(order, gs)[k]) {
      SortKeepsKind(order, gs[k].data);
    }
    GroupsOfFlat(SortGroups(order, gs));
  }

  lemma {:induction false} GroupwisePermutes(gs: seq<Group>, hs: seq<Group>)
    requires |gs| == |hs|
    requires forall k | 0 <= k < |gs| :: multiset(Flat(gs[k])) == multiset(Flat(hs[k]))
    ensures multiset(FlatAll(gs)) == multiset(FlatAll(hs))
  {
    if gs != [] {
      var n := |gs| - 1;
      GroupwisePermutes(gs[..n], hs[..n]);
    }
  }

  lemma SortGroupPermutes(order: Order, g: Group)
    ensures multiset(Flat(g.(data := SortRows(order, g.data)))) == multiset(Flat(g))
  {
    SortPermutes(RowAhead(order), g.data);
  }

  /** No row is lost, doubled or brought in. */
  lemma SortBodyPermutes(order: Order, rows: seq<Row>)
    ensures multiset(SortBody(order, rows)) == multiset(rows)
  {
    var gs := GroupsOf(rows);
    forall k | 0 <= k < |gs| ensures multiset(Flat(SortGroups(order, gs)[k])) == multiset(Flat(gs[k])) {
      SortGroupPermutes(order, gs[k]);
    }
    GroupwisePermutes(SortGroups(order, gs), gs);
    FlatIsPermutation(rows);
  }

  /** Sorting a body twice by one column leaves what the second sort alone would. */
  lemma LastSortDecides(order: Order, rows: seq<Row>, descending: bool)
    requires Collates(order.reading)
    ensures SortBody(order, SortBody(order.(descending := descending), rows)) == SortBody(order, rows)
  {
    var first := order.(descending := descending);
    var gs := GroupsOf(rows);
    SortBodyKeepsGroups(first, rows);
    forall k | 0 <= k < |gs|
      ensures SortRows(order, SortRows(first, gs[k].data)) == SortRows(order, gs[k].data)
    {
      if descending == order.descending {
        assert first == order;
        SortedStays(order, gs[k].data);
      } else {
        LastDirectionDecides(order, gs[k].data);
      }
    }
    assert SortGroups(order, SortGroups(first, gs)) == SortGroups(order, gs);
  }
}
