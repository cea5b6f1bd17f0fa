/**
  The steps of `sortTableBy` in data/static/venture.js: reading the bodies into
  one list, dealing it back to the groups, and re-appending the rows.
 */
module TableDealing {
  import opened StableSort
  import opened TableGroups
  import opened TableSort

  /** Groups as read, before any data row is dealt to them. */
  function Emptied(gs: seq<Group>): (r: seq<Group>)
    ensures |r| == |gs|
  {
    seq(|gs|, k requires 0 <= k < |gs| => gs[k].(data := []))
  }

  ghost predicate EntryFits(groups: seq<seq<Group>>, e: Entry) {
    e.body < |groups| && e.section < |groups[e.body]|
  }

  /** Body b has been read: `gs` holds its dividers and totals, `keyed` its data rows by group. */
  ghost predicate BodyRead(rows: seq<Row>, gs: seq<Group>, keyed: seq<Entry>, b: nat) {
    && gs == Emptied(GroupsOf(rows))
    && (forall k | 0 <= k < |gs| :: Section(keyed, b, k) == GroupsOf(rows)[k].data)
  }

  predicate Numbered(keyed: seq<Entry>) {
    forall i | 0 <= i < |keyed| :: keyed[i].index == i
  }

  ghost predicate Read(bodies: seq<seq<Row>>, groups: seq<seq<Group>>, keyed: seq<Entry>) {
    && |groups| == |bodies| && Numbered(keyed) && (forall e | e in keyed :: EntryFits(groups, e))
    && (forall b | 0 <= b < |bodies| :: BodyRead(bodies[b], groups[b], keyed, b))
  }

  lemma {:induction false} SectionEmpty(keyed: seq<Entry>, b: nat, k: nat)
    requires forall e | e in keyed :: !Of(e, b, k)
    ensures Section(keyed, b, k) == []
  {
    if keyed != [] {
      assert keyed[|keyed| - 1] in keyed;
      SectionEmpty(keyed[..|keyed| - 1], b, k);
    }
  }

  /** A body is opened. */
  lemma ReadOpens(front: seq<seq<Row>>, groups: seq<seq<Group>>, keyed: seq<Entry>)
    requires Read(front, groups, keyed)
    ensures Read(front + [[]], groups + [[Head]], keyed)
  {
    var b := |front|;
    assert Emptied(GroupsOf([])) == [Head];
    forall e | e in keyed ensures !Of(e, b, 0) && EntryFits(groups + [[Head]], e) {
      assert EntryFits(groups, e);
    }
    SectionEmpty(keyed, b, 0);
    assert BodyRead([], [Head], keyed, b);
    forall c | 0 <= c < b ensures BodyRead((front + [[]])[c], (groups + [[Head]])[c], keyed, c) {
      assert BodyRead(front[c], groups[c], keyed, c);
    }
  }

  lemma EmptiedAdds(gs: seq<Group>, row: Row)
    requires gs != []
    ensures Emptied(AddRow(gs, row)) == if row.Kind().Data? then Emptied(gs) else AddRow(Emptied(gs), row)
  {
    var n := |gs| - 1;
    assert forall k | 0 <= k < n :: gs[..n][k] == gs[k];
  }

  lemma AddsData(gs: seq<Group>, row: Row, k: nat)
    requires gs != [] && k < |AddRow(gs, row)|
    ensures AddRow(gs, row)[k].data
         == if k == |gs| then []
            else if row.Kind().Data? && k == |gs| - 1 then gs[k].data + [row] else gs[k].data
  {
  }

  /** A row that is not data: its group is opened, or lengthened by a total. */
  lemma BodyReadsOther(rows: seq<Row>, row: Row, gs: seq<Group>, keyed: seq<Entry>, b: nat)
    requires BodyRead(rows, gs, keyed, b) && !row.Kind().Data?
    requires forall e | e in keyed && e.body == b :: e.section < |gs|
    ensures BodyRead(rows + [row], AddRow(gs, row), keyed, b)
  {
    GroupsOfAppend(rows, row);
    EmptiedAdds(GroupsOf(rows), row);
    SectionEmpty(keyed, b, |gs|);
    forall k | 0 <= k < |AddRow(gs, row)| ensures Section(keyed, b, k) == GroupsOf(rows + [row])[k].data {
      AddsData(GroupsOf(rows), row, k);
      if k < |gs| { assert Section(keyed, b, k) == GroupsOf(rows)[k].data; }
    }
  }

  /** A data row goes to the list, marked with its group. */
  lemma BodyReadsData(rows: seq<Row>, row: Row, gs: seq<Group>, keyed: seq<Entry>, e: Entry, b: nat)
    requires BodyRead(rows, gs, keyed, b) && row.Kind().Data?
    requires e.row == row && Of(e, b, |gs| - 1)
    ensures BodyRead(rows + [row], gs, keyed + [e], b)
  {
    GroupsOfAppend(rows, row);
    EmptiedAdds(GroupsOf(rows), row);
    forall k | 0 <= k < |gs| ensures Section(keyed + [e], b, k) == GroupsOf(rows + [row])[k].data {
      AddsData(GroupsOf(rows), row, k);
      SectionSnoc(keyed, e, b, k);
      assert Section(keyed, b, k) == GroupsOf(rows)[k].data;
    }
  }

  lemma OtherBodyStays(rows: seq<Row>, gs: seq<Group>, keyed: seq<Entry>, e: Entry, b: nat)
    requires BodyRead(rows, gs, keyed, b) && e.body != b
    ensures BodyRead(rows, gs, keyed + [e], b)
  {
    forall k | 0 <= k < |gs| ensures Section(keyed + [e], b, k) == GroupsOf(rows)[k].data {
      SectionSnoc(keyed, e, b, k);
    }
  }

  /** One body of several is read one row further. */
  ghost predicate OneRowOn(was: seq<seq<Row>>, now: seq<seq<Row>>, b: nat, row: Row) {
    && |was| == |now| == b + 1 && now[b] == was[b] + [row]
    && forall c | 0 <= c < b :: now[c] == was[c]
  }

  lemma ReadsOther(was: seq<seq<Row>>, now: seq<seq<Row>>, b: nat, row: Row,
                   groups: seq<seq<Group>>, keyed: seq<Entry>)
    requires OneRowOn(was, now, b, row) && Read(was, groups, keyed) && !row.Kind().Data? && groups[b] != []
    ensures Read(now, groups[b := AddRow(groups[b], row)], keyed)
  {
    var more := AddRow(groups[b], row);
    assert BodyRead(was[b], groups[b], keyed, b);
    forall e | e in keyed ensures EntryFits(groups, e) && EntryFits(groups[b := more], e) {
      assert EntryFits(groups, e);
    }
    BodyReadsOther(was[b], row, groups[b], keyed, b);
    forall c | 0 <= c < b ensures BodyRead(now[c], groups[b := more][c], keyed, c) {
      assert BodyRead(was[c], groups[c], keyed, c);
    }
  }

  lemma ReadsData(was: seq<seq<Row>>, now: seq<seq<Row>>, b: nat, row: Row,
                  groups: seq<seq<Group>>, keyed: seq<Entry>, e: Entry)
    requires OneRowOn(was, now, b, row) && Read(was, groups, keyed) && row.Kind().Data? && groups[b] != []
    requires e == Entry(row, |keyed|, b, |groups[b]| - 1)
    ensures Read(now, groups, keyed + [e])
  {
    assert BodyRead(was[b], groups[b], keyed, b);
    BodyReadsData(was[b], row, groups[b], keyed, e, b);
    forall c | 0 <= c < b ensures BodyRead(now[c], groups[c], keyed + [e], c) {
      assert BodyRead(was[c], groups[c], keyed, c);
      OtherBodyStays(was[c], groups[c], keyed, e, c);
    }
    EntryAdded(groups, keyed, e);
  }

  lemma EntryAdded(groups: seq<seq<Group>>, keyed: seq<Entry>, e: Entry)
    requires Numbered(keyed) && e.index == |keyed|
    ensures Numbered(keyed + [e])
    ensures (forall f | f in keyed :: EntryFits(groups, f)) && EntryFits(groups, e) ==>
              forall f | f in keyed + [e] :: EntryFits(groups, f)
  {
  }

  method ReadRow(row: Row, b: nat, groups: seq<seq<Group>>, keyed: seq<Entry>,
                 ghost front: seq<seq<Row>>, ghost rows: seq<Row>)
    returns (groups': seq<seq<Group>>, keyed': seq<Entry>)
    requires b == |front| && Read(front + [rows], groups, keyed)
    ensures Read(front + [rows + [row]], groups', keyed')
  {
    ghost var was, now := front + [rows], front + [rows + [row]];
    assert BodyRead(was[b], groups[b], keyed, b);
    assert OneRowOn(was, now, b, row);
    if row.IsDivider() || row.IsPinned() {
      ReadsOther(was, now, b, row, groups, keyed);
      groups', keyed' := groups[b := AddRow(groups[b], row)], keyed;
    } else {
      var e := Entry(row, |keyed|, b, |groups[b]| - 1);
      ReadsData(was, now, b, row, groups, keyed, e);
      groups', keyed' := groups, keyed + [e];
    }
  }

  // ------------------------------------------------------------------ dealing

  ghost predicate Dealt(empty: seq<seq<Group>>, groups: seq<seq<Group>>, entries: seq<Entry>) {
    && |groups| == |empty| && (forall b | 0 <= b < |empty| :: |groups[b]| == |empty[b]|)
    && (forall b, k | 0 <= b < |empty| && 0 <= k < |empty[b]| ::
          groups[b][k] == empty[b][k].(data := Section(entries, b, k)))
  }

  /** entry.group.rows.push(entry), for every entry. */
  method Deal(empty: seq<seq<Group>>, entries: seq<Entry>) returns (groups: seq<seq<Group>>)
    requires forall b, k | 0 <= b < |empty| && 0 <= k < |empty[b]| :: empty[b][k].data == []
    requires forall e | e in entries :: EntryFits(empty, e)
    ensures Dealt(empty, groups, entries)
  {
    groups := empty;
    for i := 0 to |entries|
      invariant Dealt(empty, groups, entries[..i])
    {
      var e := entries[i];
      assert EntryFits(empty, e);
      var g := groups[e.body][e.section];
      ghost var before := groups;
      groups := groups[e.body := groups[e.body][e.section := g.(data := g.data + [e.row])]];
      DealtStep(empty, before, groups, entries[..i], e);
      assert entries[..i + 1] == entries[..i] + [e];
    }
    assert entries[..|entries|] == entries;
  }

  lemma DealtStep(empty: seq<seq<Group>>, groups: seq<seq<Group>>, groups': seq<seq<Group>>,
                  entries: seq<Entry>, e: Entry)
    requires Dealt(empty, groups, entries) && EntryFits(empty, e)
    requires groups' == groups[e.body := groups[e.body][e.section :=
      groups[e.body][e.section].(data := groups[e.body][e.section].data + [e.row])]]
    ensures Dealt(empty, groups', entries + [e])
  {
    forall b, k | 0 <= b < |empty| && 0 <= k < |empty[b]|
      ensures groups'[b][k] == empty[b][k].(data := Section(entries + [e], b, k))
    {
      SectionSnoc(entries, e, b, k);
      assert groups[b][k] == empty[b][k].(data := Section(entries, b, k));
    }
  }

  lemma EntriesStillFit(order: Order, groups: seq<seq<Group>>, keyed: seq<Entry>)
    requires forall e | e in keyed :: EntryFits(groups, e)
    ensures forall e | e in SortEntries(order, keyed) :: EntryFits(groups, e)
  {
    SortPermutes(EntryAhead(order), keyed);
    forall e | e in SortEntries(order, keyed) ensures EntryFits(groups, e) {
      assert e in multiset(keyed);
    }
  }

  /** Reading, sorting the one list and dealing it out again sorts each group alone. */
  lemma DealtSorted(order: Order, bodies: seq<seq<Row>>, empty: seq<seq<Group>>, keyed: seq<Entry>,
                    groups: seq<seq<Group>>, b: nat)
    requires Collates(order.reading) && b < |bodies|
    requires Read(bodies, empty, keyed) && Dealt(empty, groups, SortEntries(order, keyed))
    ensures groups[b] == SortGroups(order, GroupsOf(bodies[b]))
  {
    var gs := GroupsOf(bodies[b]);
    forall k | 0 <= k < |gs| ensures groups[b][k] == SortGroups(order, gs)[k] {
      SectionOfSorted(order, keyed, b, k);
      assert BodyRead(bodies[b], empty[b], keyed, b);
      assert Section(keyed, b, k) == gs[k].data;
      assert empty[b][k] == gs[k].(data := []);
    }
  }

  // -------------------------------------------------------------- re-appending

  /** Appends a run of the body's rows to it, one by one. */
  method AppendRows(body: seq<Row>, run: seq<Row>, ghost original: seq<Row>, ghost done: seq<Row>)
    returns (body': seq<Row>)
    requires body == Untouched(original, done) + done && Distinct(done + run)
    ensures body' == Untouched(original, done + run) + (done + run)
  {
    body' := body;
    assert done + [] == done && run[..0] == [];
    for i := 0 to |run|
      invariant body' == Untouched(original, done + run[..i]) + (done + run[..i])
    {
      assert run[i] !in done + run[..i] by {
        assert forall j | 0 <= j < |done| + i :: (done + run)[j] == (done + run[..i])[j];
        assert (done + run)[|done| + i] == run[i];
      }
      AppendNext(original, done + run[..i], run[i]);
      body' := AppendChild(body', run[i]);
      assert done + run[..i + 1] == (done + run[..i]) + [run[i]];
    }
    assert run[..|run|] == run;
  }

  lemma {:induction false} FlatPrefix(gs: seq<Group>, k: nat)
    requires k <= |gs|
    ensures FlatAll(gs[..k]) <= FlatAll(gs)
  {
    if k < |gs| {
      var n := |gs| - 1;
      FlatPrefix(gs[..n], k);
      assert gs[..n][..k] == gs[..k];
    } else {
      assert gs[..k] == gs;
    }
  }

  lemma DistinctPrefix(prefix: seq<Row>, rows: seq<Row>)
    requires prefix <= rows && Distinct(rows)
    ensures Distinct(prefix)
  {
  }

  /** Re-appends one group: its divider, its data rows, its totals. */
  method AppendGroup(body: seq<Row>, g: Group, ghost original: seq<Row>, ghost done: seq<Row>)
    returns (body': seq<Row>)
    requires body == Untouched(original, done) + done && Distinct(done + Flat(g))
    ensures body' == Untouched(original, done + Flat(g)) + (done + Flat(g))
  {
    FlatSplits(done, g);
    ghost var top := done + Top(g);
    DistinctPrefix(top + g.data, done + Flat(g));
    DistinctPrefix(top, done + Flat(g));
    body' := AppendRows(body, Top(g), original, done);
    body' := AppendRows(body', g.data, original, top);
    body' := AppendRows(body', g.pinned, original, top + g.data);
  }

  /** Re-appends a whole body's groups: what is left is just them, in that order. */
  method AppendGroups(rows: seq<Row>, gs: seq<Group>) returns (body: seq<Row>)
    requires multiset(FlatAll(gs)) == multiset(rows) && Distinct(FlatAll(gs))
    ensures body == FlatAll(gs)
  {
    body := rows;
    UntouchedEnds(rows, []);
    assert body == Untouched(rows, []) + [];
    for k := 0 to |gs|
      invariant body == Untouched(rows, FlatAll(gs[..k])) + FlatAll(gs[..k])
    {
      FlatNext(gs, k);
      body := AppendGroup(body, gs[k], rows, FlatAll(gs[..k]));
    }
    assert gs[..|gs|] == gs;
    AllTouched(rows, FlatAll(gs));
  }

  lemma AllTouched(rows: seq<Row>, flat: seq<Row>)
    requires multiset(flat) == multiset(rows)
    ensures Untouched(rows, flat) + flat == flat
  {
    forall row | row in rows ensures row in flat {
      assert row in multiset(rows);
    }
    UntouchedEnds(rows, flat);
  }

  lemma TakeNext(gs: seq<Group>, k: nat)
    requires k < |gs|
    ensures gs[..k + 1] == gs[..k] + [gs[k]]
  {
  }

  lemma FlatTakeNext(gs: seq<Group>, k: nat)
    requires k < |gs|
    ensures FlatAll(gs[..k + 1]) == FlatAll(gs[..k]) + Flat(gs[k])
  {
    TakeNext(gs, k);
    FlatAllAppend(gs[..k], gs[k]);
  }

  lemma FlatNext(gs: seq<Group>, k: nat)
    requires k < |gs| && Distinct(FlatAll(gs))
    ensures FlatAll(gs[..k + 1]) == FlatAll(gs[..k]) + Flat(gs[k])
    ensures Distinct(FlatAll(gs[..k]) + Flat(gs[k]))
  {
    FlatPrefix(gs, k + 1);
    DistinctPrefix(FlatAll(gs[..k + 1]), FlatAll(gs));
    FlatTakeNext(gs, k);
  }
}
