/**
  The dashboard grid editor of data/static/venture.js: cards dragged, resized
  and swapped on a grid of columns and at most 60 rows, each gesture sent to the
  server, which may refuse it later.  The slots the pointer is over are given.
 */
module Grid {
  import opened Options

  const MAX_ROWS := 60
  const MAX_RESIZE := 8

  datatype Box = Box(col: int, row: int, width: int, height: int)

  datatype Mode = Move | Resize

  datatype Verdict = Free | Swap(partner: nat) | Refused

  datatype Drag = Drag(card: nat, mode: Mode, before: Box, area: Box, verdict: Verdict, moved: bool)

  /** A request in flight, and what is put back if it is refused. */
  datatype Sent = Sent(card: nat, before: Box, partner: Option<nat>, partnerBefore: Box, open: bool)

  datatype State = State(columns: int, boxes: seq<Box>, drag: Option<Drag>, sends: seq<Sent>)

  datatype Event =
    | Begin(card: nat, mode: Mode)
    | Update(col: int, row: int, far: bool)   // the slots under the pointer or corner; beyond two pixels?
    | Finish(cancelled: bool)
    | Settle(send: nat, refused: bool)

  function Clamp(value: int, low: int, high: int): int {
    var least := if high < value then high else value;
    if low > least then low else least
  }

  predicate Overlap(a: Box, b: Box) {
    a.col < b.col + b.width && b.col < a.col + a.width && a.row < b.row + b.height && b.row < a.row + a.height
  }

  predicate Fits(columns: int, a: Box) {
    && a.col >= 1 && a.row >= 1 && a.width >= 1 && a.height >= 1
    && a.col + a.width - 1 <= columns && a.row + a.height - 1 <= MAX_ROWS
  }

  predicate ValidLayout(columns: int, boxes: seq<Box>) {
    && (forall i | 0 <= i < |boxes| :: Fits(columns, boxes[i]))
    && (forall i, j | 0 <= i < j < |boxes| :: !Overlap(boxes[i], boxes[j]))
  }

  /** Cell (col, row) of the grid is under a box. */
  predicate Covers(a: Box, col: int, row: int) {
    a.col <= col < a.col + a.width && a.row <= row < a.row + a.height
  }

  /** Two boxes overlap exactly when some cell is under both. */
  lemma OverlapIsSharedCell(a: Box, b: Box)
    requires a.width >= 1 && a.height >= 1 && b.width >= 1 && b.height >= 1
    ensures Overlap(a, b) <==> exists col, row :: Covers(a, col, row) && Covers(b, col, row)
  {
    if Overlap(a, b) {
      var col, row := if a.col < b.col then b.col else a.col, if a.row < b.row then b.row else a.row;
      assert Covers(a, col, row) && Covers(b, col, row);
    }
  }

  /** A box fits exactly when it has a cell and all its cells are inside the columns and the sixty rows. */
  lemma FitsIsInside(columns: int, a: Box)
    ensures Fits(columns, a) <==>
              && a.width >= 1 && a.height >= 1
              && forall col, row | Covers(a, col, row) :: 1 <= col <= columns && 1 <= row <= 60
  {
    if a.width >= 1 && a.height >= 1 {
      assert Covers(a, a.col, a.row) && Covers(a, a.col + a.width - 1, a.row + a.height - 1);
    }
  }

  /** occupants(area, except), from card i on. */
  function Occupants(boxes: seq<Box>, area: Box, except: nat, i: nat): seq<nat>
    requires i <= |boxes|
    decreases |boxes| - i
  {
    if i == |boxes| then []
    else (if i != except && Overlap(area, boxes[i]) then [i] else []) + Occupants(boxes, area, except, i + 1)
  }

  lemma {:induction false} OccupantsAre(boxes: seq<Box>, area: Box, except: nat, i: nat)
    requires i <= |boxes|
    ensures forall j :: j in Occupants(boxes, area, except, i)
                        <==> i <= j < |boxes| && j != except && Overlap(area, boxes[j])
    decreases |boxes| - i
  {
    if i < |boxes| { OccupantsAre(boxes, area, except, i + 1); }
  }

  /** Every other card is clear of a place. */
  predicate Clear(boxes: seq<Box>, area: Box, card: nat) {
    forall j | 0 <= j < |boxes| && j != card :: !Overlap(area, boxes[j])
  }

  // ------------------------------------------------------------------ the steps

  function AreaAt(columns: int, d: Drag, col: int, row: int): Box {
    match d.mode
    case Move =>
      Box(Clamp(col, 1, columns - d.before.width + 1), Clamp(row, 1, MAX_ROWS - d.before.height + 1),
          d.before.width, d.before.height)
    case Resize =>
      Box(d.before.col, d.before.row,
          Clamp(col - d.before.col + 1, 1, columns - d.before.col + 1), Clamp(row - d.before.row + 1, 1, MAX_RESIZE))
  }

  function Judge(columns: int, boxes: seq<Box>, d: Drag, area: Box): (verdict: Verdict)
    ensures verdict.Free? ==> Fits(columns, area) && Clear(boxes, area, d.card)
    ensures verdict.Swap? ==> d.mode.Move? && verdict.partner < |boxes| && verdict.partner != d.card
                              && boxes[verdict.partner].width == area.width
                              && boxes[verdict.partner].height == area.height
  {
    var taken := Occupants(boxes, area, d.card, 0);
    OccupantsAre(boxes, area, d.card, 0);
    if !Fits(columns, area) then Refused
    else if taken == [] then Free
    else if d.mode.Move? && |taken| == 1 then
      assert taken[0] in taken;
      if boxes[taken[0]].width == area.width && boxes[taken[0]].height == area.height then Swap(taken[0]) else Refused
    else Refused
  }

  lemma {:induction false} OccupantsAscend(boxes: seq<Box>, area: Box, except: nat, i: nat)
    requires i <= |boxes|
    ensures forall a | 0 <= a < |Occupants(boxes, area, except, i)| :: i <= Occupants(boxes, area, except, i)[a]
    ensures forall a, b | 0 <= a < b < |Occupants(boxes, area, except, i)| ::
              Occupants(boxes, area, except, i)[a] < Occupants(boxes, area, except, i)[b]
    decreases |boxes| - i
  {
    if i < |boxes| { OccupantsAscend(boxes, area, except, i + 1); }
  }

  lemma TwoOccupants(boxes: seq<Box>, area: Box, except: nat)
    ensures var taken := Occupants(boxes, area, except, 0);
            |taken| > 1 ==> taken[0] < taken[1] && taken[0] in taken && taken[1] in taken
  {
    OccupantsAscend(boxes, area, except, 0);
  }

  /** Card p is the one other card under the area. */
  predicate OnlyUnder(boxes: seq<Box>, area: Box, card: nat, p: nat) {
    && p < |boxes| && p != card && Overlap(area, boxes[p])
    && forall j | 0 <= j < |boxes| && j != card && j != p :: !Overlap(area, boxes[j])
  }

  lemma OneOccupant(boxes: seq<Box>, area: Box, card: nat, p: nat)
    ensures Occupants(boxes, area, card, 0) == [p] <==> OnlyUnder(boxes, area, card, p)
  {
    var taken := Occupants(boxes, area, card, 0);
    OccupantsAre(boxes, area, card, 0);
    TwoOccupants(boxes, area, card);
    if taken == [p] {
      assert p in taken;
    }
    if OnlyUnder(boxes, area, card, p) {
      assert p in taken;
      assert forall j | j in taken :: j == p;
      assert taken[0] in taken;
    }
  }

  /** Free exactly when the area fits and is clear of every other card; a swap exactly when it fits, a card is
      being moved, and the one other card under it has its size; refused otherwise. */
  lemma VerdictMeans(columns: int, boxes: seq<Box>, d: Drag, area: Box, p: nat)
    ensures Judge(columns, boxes, d, area) == Free <==>
              Fits(columns, area) && forall j | 0 <= j < |boxes| && j != d.card :: !Overlap(area, boxes[j])
    ensures Judge(columns, boxes, d, area) == Swap(p) <==>
              && Fits(columns, area) && d.mode == Move && OnlyUnder(boxes, area, d.card, p)
              && boxes[p].width == area.width && boxes[p].height == area.height
    ensures Judge(columns, boxes, d, area) == Refused <==>
              && Judge(columns, boxes, d, area) != Free
              && forall q: nat :: Judge(columns, boxes, d, area) != Swap(q)
  {
    var taken := Occupants(boxes, area, d.card, 0);
    OccupantsAre(boxes, area, d.card, 0);
    OneOccupant(boxes, area, d.card, p);
    if taken == [] {
      forall j | 0 <= j < |boxes| && j != d.card ensures !Overlap(area, boxes[j]) { assert j !in taken; }
    } else {
      assert taken[0] in taken;
      if |taken| == 1 { assert taken == [taken[0]]; }
    }
    var verdict := Judge(columns, boxes, d, area);
    assert verdict.Swap? ==> verdict == Swap(verdict.partner);
  }

  // ------------------------------------------------------------- the area carried

  /** The nearest number between two limits: the lower one when they cross. */
  lemma ClampIsNearest(value: int, low: int, high: int)
    ensures low <= high ==> low <= Clamp(value, low, high) <= high
    ensures low <= value <= high ==> Clamp(value, low, high) == value
    ensures value < low || high < low ==> Clamp(value, low, high) == low
    ensures low <= high < value ==> Clamp(value, low, high) == high
  {
  }

  /** A card carried keeps its size, stays inside the grid, and is where the pointer is when it can be. */
  lemma CarriedArea(columns: int, d: Drag, col: int, row: int)
    requires Fits(columns, d.before) && d.mode == Move
    ensures var area := AreaAt(columns, d, col, row);
            && Fits(columns, area) && area.width == d.before.width && area.height == d.before.height
            && (Fits(columns, d.before.(col := col, row := row)) ==> area.col == col && area.row == row)
            && (col < 1 ==> area.col == 1) && (row < 1 ==> area.row == 1)
            && (col + area.width - 1 > columns ==> area.col + area.width - 1 == columns)
            && (row + area.height - 1 > MAX_ROWS ==> area.row + area.height - 1 == MAX_ROWS)
  {
  }

  /** A card resized keeps its corner, reaches the cell under the pointer when it can, is never narrower than
      one cell nor wider than the grid, and never taller than eight. */
  lemma ResizedArea(columns: int, d: Drag, col: int, row: int)
    requires Fits(columns, d.before) && d.mode == Resize
    ensures var area := AreaAt(columns, d, col, row);
            && area.col == d.before.col && area.row == d.before.row
            && 1 <= area.width && area.col + area.width - 1 <= columns && 1 <= area.height <= 8
            && (d.before.col <= col <= columns ==> area.col + area.width - 1 == col)
            && (d.before.row <= row < d.before.row + 8 ==> area.row + area.height - 1 == row)
            && (col < d.before.col ==> area.width == 1) && (row < d.before.row ==> area.height == 1)
            && (col > columns ==> area.col + area.width - 1 == columns)
            && (row >= d.before.row + 8 ==> area.height == 8)
  {
  }

  predicate InRange(s: State) {
    && (s.drag.Some? ==> s.drag.value.card < |s.boxes|
                         && (s.drag.value.verdict.Swap? ==> s.drag.value.verdict.partner < |s.boxes|))
    && (forall k | 0 <= k < |s.sends| ::
          s.sends[k].card < |s.boxes| && (s.sends[k].partner.Some? ==> s.sends[k].partner.value < |s.boxes|))
  }

  /** Events the page lets through: no second drag, one answer a request. */
  predicate Enabled(s: State, e: Event) {
    InRange(s) &&
    match e
    case Begin(card, _) => s.drag.None? && card < |s.boxes|
    case Update(_, _, _) => s.drag.Some?
    case Finish(_) => s.drag.Some?
    case Settle(k, _) => k < |s.sends| && s.sends[k].open
  }

  function UpdateStep(s: State, col: int, row: int, far: bool): (s': State)
    requires InRange(s) && s.drag.Some?
    ensures InRange(s')
  {
    var d := s.drag.value;
    var area := AreaAt(s.columns, d, col, row);
    var boxes := if d.mode.Resize? then s.boxes[d.card := area] else s.boxes;
    s.(boxes := boxes,
       drag := Some(d.(moved := d.moved || far, area := area, verdict := Judge(s.columns, boxes, d, area))))
  }

  function FinishStep(s: State, cancelled: bool): (s': State)
    requires InRange(s) && s.drag.Some?
    ensures InRange(s')
  {
    var d := s.drag.value;
    var s1 := s.(drag := None);
    if cancelled || !d.moved || d.verdict.Refused? then s1.(boxes := s.boxes[d.card := d.before])
    else if d.verdict.Swap? then
      var p := d.verdict.partner;
      s1.(boxes := s.boxes[d.card := s.boxes[p]][p := d.before],
          sends := s.sends + [Sent(d.card, d.before, Some(p), s.boxes[p], true)])
    else
      s1.(boxes := s.boxes[d.card := d.area],
          sends := s.sends + [Sent(d.card, d.before, None, d.before, true)])
  }

  /** What a refusal puts back. */
  function PutBack(boxes: seq<Box>, m: Sent): (back: seq<Box>)
    requires m.card < |boxes| && (m.partner.Some? ==> m.partner.value < |boxes|)
    ensures |back| == |boxes|
  {
    var b := boxes[m.card := m.before];
    if m.partner.Some? then b[m.partner.value := m.partnerBefore] else b
  }

  function Step(s: State, e: Event): (s': State)
    requires Enabled(s, e)
    ensures InRange(s')
  {
    match e
    case Begin(card, mode) => s.(drag := Some(Drag(card, mode, s.boxes[card], s.boxes[card], Free, false)))
    case Update(col, row, far) => UpdateStep(s, col, row, far)
    case Finish(cancelled) => FinishStep(s, cancelled)
    case Settle(k, refused) =>
      s.(boxes := if refused then PutBack(s.boxes, s.sends[k]) else s.boxes,
         sends := s.sends[k := s.sends[k].(open := false)])
  }

  // ---------------------------------------------------------- what always holds

  /** The layout with the card in hand back where it was picked up. */
  function AtRest(s: State): seq<Box>
    requires InRange(s)
  {
    if s.drag.Some? then s.boxes[s.drag.value.card := s.drag.value.before] else s.boxes
  }

  predicate SentFits(columns: int, m: Sent) {
    Fits(columns, m.before) && (m.partner.Some? ==> m.partner.value != m.card && Fits(columns, m.partnerBefore))
  }

  predicate DragFits(columns: int, d: Drag) {
    && (d.verdict.Free? && d.moved ==> Fits(columns, d.area))
    && (d.verdict.Swap? ==> d.mode.Move? && d.verdict.partner != d.card)
  }

  /** Every card at rest, every place a card may drop on or go back to, is inside the columns and rows. */
  predicate Sound(s: State) {
    && InRange(s)
    && (forall i | 0 <= i < |s.boxes| :: Fits(s.columns, AtRest(s)[i]))
    && (s.drag.Some? ==> DragFits(s.columns, s.drag.value))
    && (forall k | 0 <= k < |s.sends| :: SentFits(s.columns, s.sends[k]))
  }

  /** Whatever the visitor does and however and whenever the server answers. */
  lemma StepKeepsSound(s: State, e: Event)
    requires Sound(s) && Enabled(s, e)
    ensures Sound(Step(s, e))
  {
    match e {
      case Begin(card, _) => assert AtRest(Step(s, e)) == AtRest(s);
      case Update(col, row, far) => UpdateKeepsSound(s, col, row, far);
      case Finish(cancelled) => FinishKeepsSound(s, cancelled);
      case Settle(k, refused) => SettleKeepsSound(s, k, refused);
    }
  }

  lemma UpdateKeepsSound(s: State, col: int, row: int, far: bool)
    requires Sound(s) && s.drag.Some?
    ensures Sound(UpdateStep(s, col, row, far)) && AtRest(UpdateStep(s, col, row, far)) == AtRest(s)
  {
    assert AtRest(UpdateStep(s, col, row, far)) == AtRest(s);
  }

  /** A drop is one card placed, or two cards trading places. */
  lemma FinishPlaces(s: State, cancelled: bool)
    requires Sound(s) && s.drag.Some?
    ensures var d, rest, boxes := s.drag.value, AtRest(s), FinishStep(s, cancelled).boxes;
            if cancelled || !d.moved || d.verdict.Refused? then boxes == rest
            else if d.verdict.Swap?
            then boxes == rest[d.card := rest[d.verdict.partner]][d.verdict.partner := rest[d.card]]
            else boxes == rest[d.card := d.area]
  {
  }

  lemma FinishKeepsSound(s: State, cancelled: bool)
    requires Sound(s) && s.drag.Some?
    ensures Sound(FinishStep(s, cancelled))
  {
    FinishPlaces(s, cancelled);
    var d, rest := s.drag.value, AtRest(s);
    assert rest[d.card] == d.before && Fits(s.columns, d.before);
    if d.verdict.Swap? {
      assert rest[d.verdict.partner] == s.boxes[d.verdict.partner];
      assert Fits(s.columns, rest[d.verdict.partner]);
    }
  }

  /** The cards a refusal puts back: not the one in hand, which stays where it was picked up. */
  predicate GoesBack(m: Sent, card: nat, held: Option<nat>) {
    (card == m.card || Some(card) == m.partner) && Some(card) != held
  }

  function PlaceOf(m: Sent, card: nat): Box {
    if Some(card) == m.partner then m.partnerBefore else m.before
  }

  function Held(s: State): Option<nat> {
    if s.drag.Some? then Some(s.drag.value.card) else None
  }

  lemma RestAfterRefusal(s: State, k: nat, j: nat)
    requires Sound(s) && k < |s.sends| && s.sends[k].open && j < |s.boxes|
    ensures AtRest(Step(s, Settle(k, true)))[j]
         == if GoesBack(s.sends[k], j, Held(s)) then PlaceOf(s.sends[k], j) else AtRest(s)[j]
  {
  }

  lemma SettleKeepsSound(s: State, k: nat, refused: bool)
    requires Sound(s) && Enabled(s, Settle(k, refused))
    ensures Sound(Step(s, Settle(k, refused)))
  {
    var s' := Step(s, Settle(k, refused));
    assert SentFits(s.columns, s.sends[k]);
    if refused {
      forall j | 0 <= j < |s.boxes| ensures Fits(s.columns, AtRest(s')[j]) { RestAfterRefusal(s, k, j); }
    } else {
      assert AtRest(s') == AtRest(s);
    }
  }

  // -------------------------------------------------------------- the verdict

  /** The verdict is the truth about the layout: free means clear of every other card, swap means a
      card of the same size. */
  predicate VerdictHolds(s: State) {
    InRange(s) && (s.drag.Some? ==>
      var d, rest := s.drag.value, AtRest(s);
      match d.verdict
      case Refused => true
      case Free => d.moved ==> Clear(rest, d.area, d.card)
      case Swap(p) => rest[p].width == d.before.width && rest[p].height == d.before.height)
  }

  /** Every pointer move judges afresh. */
  lemma UpdateJudges(s: State, col: int, row: int, far: bool)
    requires Sound(s) && s.drag.Some?
    ensures VerdictHolds(UpdateStep(s, col, row, far))
  {
    assert AtRest(UpdateStep(s, col, row, far)) == AtRest(s);
  }

  /** The verdict stays true until a refusal comes with a card in hand; then a free place stays free
      exactly when no card goes back onto it, and a swap stays one exactly when its partner does not go
      back to another size. */
  lemma VerdictSurvives(s: State, e: Event)
    requires Sound(s) && Enabled(s, e) && VerdictHolds(s)
    ensures !(e.Settle? && e.refused && s.drag.Some?) ==> VerdictHolds(Step(s, e))
    ensures e.Settle? && e.refused && s.drag.Some? ==>
              var d, m := s.drag.value, s.sends[e.send];
              VerdictHolds(Step(s, e)) <==>
                match d.verdict
                case Refused => true
                case Free => d.moved ==>
                  forall c | 0 <= c < |s.boxes| && GoesBack(m, c, Held(s)) :: !Overlap(d.area, PlaceOf(m, c))
                case Swap(p) => GoesBack(m, p, Held(s)) ==>
                  PlaceOf(m, p).width == d.before.width && PlaceOf(m, p).height == d.before.height
  {
    match e {
      case Begin(_, _) =>
      case Update(col, row, far) => UpdateJudges(s, col, row, far);
      case Finish(_) =>
      case Settle(k, refused) => if refused && s.drag.Some? { RefusalJudged(s, k); }
    }
  }

  lemma RefusalJudged(s: State, k: nat)
    requires Sound(s) && Enabled(s, Settle(k, true)) && VerdictHolds(s) && s.drag.Some?
    ensures var s', d, m := Step(s, Settle(k, true)), s.drag.value, s.sends[k];
            VerdictHolds(s') <==>
              match d.verdict
              case Refused => true
              case Free => d.moved ==>
                forall c | 0 <= c < |s.boxes| && GoesBack(m, c, Held(s)) :: !Overlap(d.area, PlaceOf(m, c))
              case Swap(p) => GoesBack(m, p, Held(s)) ==>
                PlaceOf(m, p).width == d.before.width && PlaceOf(m, p).height == d.before.height
  {
    var s', d, m := Step(s, Settle(k, true)), s.drag.value, s.sends[k];
    forall j | 0 <= j < |s.boxes|
      ensures AtRest(s')[j] == if GoesBack(m, j, Held(s)) then PlaceOf(m, j) else AtRest(s)[j]
    {
      RestAfterRefusal(s, k, j);
    }
    if d.verdict.Free? && d.moved && VerdictHolds(s') {
      forall c | 0 <= c < |s.boxes| && GoesBack(m, c, Held(s)) ensures !Overlap(d.area, PlaceOf(m, c)) {
        assert !Overlap(d.area, AtRest(s')[c]);
      }
    }
  }

  // --------------------------------------------------------------- the layout

  lemma OverlapSymmetric(a: Box, b: Box)
    ensures Overlap(a, b) == Overlap(b, a)
  {
  }

  lemma Apart(columns: int, boxes: seq<Box>, i: nat, j: nat)
    requires ValidLayout(columns, boxes) && i < |boxes| && j < |boxes| && i != j
    ensures !Overlap(boxes[i], boxes[j])
  {
    if j < i { assert !Overlap(boxes[j], boxes[i]); }
  }

  lemma Spoilt(columns: int, boxes: seq<Box>, i: nat, j: nat)
    requires i < |boxes| && j < |boxes| && i != j && Overlap(boxes[i], boxes[j])
    ensures !ValidLayout(columns, boxes)
  {
    OverlapSymmetric(boxes[i], boxes[j]);
  }

  /** Moving one card to a place keeps a layout valid exactly when the place is clear. */
  lemma PlaceKeepsLayout(columns: int, boxes: seq<Box>, card: nat, area: Box)
    requires ValidLayout(columns, boxes) && card < |boxes| && Fits(columns, area)
    ensures ValidLayout(columns, boxes[card := area]) <==> Clear(boxes, area, card)
  {
    var b := boxes[card := area];
    if ValidLayout(columns, b) {
      forall j | 0 <= j < |boxes| && j != card ensures !Overlap(area, boxes[j]) { Apart(columns, b, card, j); }
    }
  }

  /** Two cards may always trade places, whatever their sizes: each takes the other's. */
  lemma SwapKeepsLayout(columns: int, boxes: seq<Box>, a: nat, p: nat)
    requires ValidLayout(columns, boxes) && a < |boxes| && p < |boxes| && a != p
    ensures ValidLayout(columns, boxes[a := boxes[p]][p := boxes[a]])
  {
    var b := boxes[a := boxes[p]][p := boxes[a]];
    forall i, j | 0 <= i < j < |b| ensures !Overlap(b[i], b[j]) {
      var x, y := if i == a then p else if i == p then a else i, if j == a then p else if j == p then a else j;
      assert b[i] == boxes[x] && b[j] == boxes[y] && x != y;
      Apart(columns, boxes, x, y);
    }
  }

  /** The two places of a swap are apart. */
  predicate SentApart(m: Sent) {
    m.partner.Some? ==> !Overlap(m.before, m.partnerBefore)
  }

  /** The cards at rest are inside the grid and apart. */
  predicate Laid(s: State) {
    InRange(s) && ValidLayout(s.columns, AtRest(s))
  }

  predicate Good(s: State) {
    Sound(s) && Laid(s) && forall k | 0 <= k < |s.sends| :: SentApart(s.sends[k])
  }

  /** No card that stays stands where one that goes back came from. */
  predicate RoomToGoBack(rest: seq<Box>, m: Sent, held: Option<nat>) {
    forall c, j | 0 <= c < |rest| && 0 <= j < |rest| && GoesBack(m, c, held) && !GoesBack(m, j, held) ::
      !Overlap(PlaceOf(m, c), rest[j])
  }

  /** What decides whether an event spoils the layout: for a refusal, room for the cards that go back; for
      a drop on a place judged free, that it is still clear; nothing else can. */
  predicate Harmless(s: State, e: Event) {
    InRange(s) &&
    match e
    case Settle(k, refused) => refused && k < |s.sends| ==> RoomToGoBack(AtRest(s), s.sends[k], Held(s))
    case Finish(cancelled) =>
      s.drag.Some? && !cancelled && s.drag.value.moved && s.drag.value.verdict.Free? ==>
        Clear(AtRest(s), s.drag.value.area, s.drag.value.card)
    case _ => true
  }

  /** A drop judged on the layout as it is spoils nothing. */
  lemma TrueVerdictIsHarmless(s: State, cancelled: bool)
    requires InRange(s) && VerdictHolds(s)
    ensures Harmless(s, Finish(cancelled))
  {
  }

  /** A refusal in any state, with a card in hand or not: the layout at rest stays valid exactly when there
      is room for the cards that go back. */
  lemma LateRefusal(s: State, k: nat)
    requires Good(s) && Enabled(s, Settle(k, true))
    ensures Laid(Step(s, Settle(k, true))) <==>
            RoomToGoBack(AtRest(s), s.sends[k], Held(s))
  {
    var s', m, rest := Step(s, Settle(k, true)), s.sends[k], AtRest(s);
    SettleKeepsSound(s, k, true);
    var after := AtRest(s');
    forall j | 0 <= j < |rest| ensures after[j] == if GoesBack(m, j, Held(s)) then PlaceOf(m, j) else rest[j] {
      RestAfterRefusal(s, k, j);
    }
    if RoomToGoBack(rest, m, Held(s)) {
      forall i, j | 0 <= i < j < |after| ensures !Overlap(after[i], after[j]) {
        BothPlaced(s, k, i, j);
      }
    } else {
      var c, j :| 0 <= c < |rest| && 0 <= j < |rest| && GoesBack(m, c, Held(s)) && !GoesBack(m, j, Held(s))
        && Overlap(PlaceOf(m, c), rest[j]);
      Spoilt(s.columns, after, c, j);
    }
  }

  /** Two cards after a refusal there is room for. */
  lemma BothPlaced(s: State, k: nat, i: nat, j: nat)
    requires Good(s) && Enabled(s, Settle(k, true)) && i < j < |s.boxes|
    requires RoomToGoBack(AtRest(s), s.sends[k], Held(s))
    ensures var after := AtRest(Step(s, Settle(k, true))); !Overlap(after[i], after[j])
  {
    var m, rest := s.sends[k], AtRest(s);
    RestAfterRefusal(s, k, i);
    RestAfterRefusal(s, k, j);
    if GoesBack(m, i, Held(s)) {
      if GoesBack(m, j, Held(s)) {
        assert SentApart(m);
        OverlapSymmetric(m.before, m.partnerBefore);
      }
    } else if GoesBack(m, j, Held(s)) {
      OverlapSymmetric(PlaceOf(m, j), rest[i]);
    }
  }

  /** An event keeps the layout at rest valid exactly when it is harmless. */
  lemma StepKeepsGood(s: State, e: Event)
    requires Good(s) && Enabled(s, e)
    ensures Sound(Step(s, e))
    ensures Good(Step(s, e)) <==> Harmless(s, e)
    ensures Laid(Step(s, e)) <==> Harmless(s, e)
  {
    StepKeepsSound(s, e);
    match e {
      case Begin(_, _) => assert AtRest(Step(s, e)) == AtRest(s);
      case Update(col, row, far) => UpdateKeepsSound(s, col, row, far);
      case Finish(cancelled) => FinishKeepsGood(s, cancelled);
      case Settle(k, refused) =>
        assert forall i | 0 <= i < |s.sends| :: SentApart(Step(s, e).sends[i]) == SentApart(s.sends[i]);
        if refused { LateRefusal(s, k); }
    }
  }

  lemma FinishKeepsGood(s: State, cancelled: bool)
    requires Good(s) && s.drag.Some?
    ensures Sound(FinishStep(s, cancelled))
    ensures Good(FinishStep(s, cancelled)) <==> Harmless(s, Finish(cancelled))
    ensures Laid(FinishStep(s, cancelled)) <==> Harmless(s, Finish(cancelled))
  {
    var d, rest, s' := s.drag.value, AtRest(s), FinishStep(s, cancelled);
    FinishKeepsSound(s, cancelled);
    FinishPlaces(s, cancelled);
    if !cancelled && d.moved && d.verdict.Swap? {
      var p := d.verdict.partner;
      SwapKeepsLayout(s.columns, rest, d.card, p);
      Apart(s.columns, rest, d.card, p);
      assert SentApart(s'.sends[|s.sends|]);
    } else if !cancelled && d.moved && d.verdict.Free? {
      PlaceKeepsLayout(s.columns, rest, d.card, d.area);
    }
  }

  // -------------------------------------------------------------- over any run

  ghost predicate IsPath(ss: seq<State>, es: seq<Event>) {
    && |ss| == |es| + 1
    && forall i | 0 <= i < |es| :: Enabled(ss[i], es[i]) && ss[i + 1] == Step(ss[i], es[i])
  }

  ghost predicate IsRun(ss: seq<State>, es: seq<Event>) {
    IsPath(ss, es) && Good(ss[0]) && ss[0].drag.None?
  }

  lemma {:induction false} RunIsSound(ss: seq<State>, es: seq<Event>, i: nat)
    requires IsPath(ss, es) && Sound(ss[0]) && i < |ss|
    ensures Sound(ss[i]) && ss[i].columns == ss[0].columns && |ss[i].boxes| == |ss[0].boxes|
  {
    if i > 0 {
      RunIsSound(ss, es, i - 1);
      StepKeepsSound(ss[i - 1], es[i - 1]);
    }
  }

  ghost predicate LaidUpTo(ss: seq<State>, i: nat)
    requires i < |ss|
  {
    forall j | 0 <= j <= i :: Laid(ss[j])
  }

  ghost predicate HarmlessBefore(ss: seq<State>, es: seq<Event>, i: nat)
    requires i <= |es| < |ss|
  {
    forall j | 0 <= j < i :: Harmless(ss[j], es[j])
  }

  lemma OneFurther(ss: seq<State>, es: seq<Event>, i: nat)
    requires 0 < i <= |es| < |ss|
    ensures LaidUpTo(ss, i) <==> LaidUpTo(ss, i - 1) && Laid(ss[i])
    ensures HarmlessBefore(ss, es, i) <==> HarmlessBefore(ss, es, i - 1) && Harmless(ss[i - 1], es[i - 1])
  {
  }

  /** In every run the cards at rest have stayed inside the grid and apart exactly when every refusal found
      room and every drop on a place judged free found it still clear. */
  lemma {:induction false} LayoutStaysValid(ss: seq<State>, es: seq<Event>, i: nat)
    requires IsRun(ss, es) && i < |ss|
    ensures LaidUpTo(ss, i) <==> HarmlessBefore(ss, es, i)
    ensures HarmlessBefore(ss, es, i) ==> Good(ss[i])
  {
    if i > 0 {
      LayoutStaysValid(ss, es, i - 1);
      OneFurther(ss, es, i);
      if HarmlessBefore(ss, es, i - 1) { StepKeepsGood(ss[i - 1], es[i - 1]); }
    }
  }

  /** So refusals alone decide: while each finds room and leaves the verdict on a card in hand true, the
      layout is valid whatever the visitor does. */
  lemma {:induction false} RefusalsDecide(ss: seq<State>, es: seq<Event>, i: nat)
    requires IsRun(ss, es) && i < |ss|
    requires forall j | 0 <= j < |es| && es[j].Settle? && es[j].refused ::
      Harmless(ss[j], es[j]) && VerdictHolds(ss[j + 1])
    ensures Good(ss[i]) && VerdictHolds(ss[i])
  {
    if i > 0 {
      var s, e := ss[i - 1], es[i - 1];
      RefusalsDecide(ss, es, i - 1);
      if e.Finish? { TrueVerdictIsHarmless(s, e.cancelled); }
      VerdictSurvives(s, e);
      StepKeepsGood(s, e);
    }
  }

  // --------------------------------------------------- refused before another begins

  predicate Touches(s: State, e: Event, card: nat) {
    e.Settle? && e.refused && e.send < |s.sends| && GoesBack(s.sends[e.send], card, None)
  }

  function PlaceBack(s: State, e: Event, card: nat): Box
    requires Touches(s, e, card)
  {
    PlaceOf(s.sends[e.send], card)
  }

  /** Answer i, after the first event, is the last refusal before n that puts a card back. */
  ghost predicate LastBack(ss: seq<State>, es: seq<Event>, card: nat, i: nat, n: nat)
    requires |ss| == |es| + 1 && n <= |es|
  {
    && 1 <= i < n && Touches(ss[i], es[i], card)
    && forall k | i < k < n :: !Touches(ss[k], es[k], card)
  }

  /** What one answer does to one card, with none in hand. */
  lemma OneAnswer(s: State, e: Event, card: nat)
    requires Sound(s) && s.drag.None? && e.Settle? && Enabled(s, e) && card < |s.boxes|
    ensures |Step(s, e).boxes| == |s.boxes| && Step(s, e).drag.None? && |Step(s, e).sends| == |s.sends|
    ensures Step(s, e).boxes[card] == if Touches(s, e, card) then PlaceOf(s.sends[e.send], card) else s.boxes[card]
  {
    if e.refused { RestAfterRefusal(s, e.send, card); }
  }

  /** Answers begin no gesture and send nothing. */
  lemma {:induction false} AnswersOnly(ss: seq<State>, es: seq<Event>, n: nat)
    requires IsPath(ss, es) && Sound(ss[0]) && 1 <= n <= |es| && ss[1].drag.None?
    requires forall i | 1 <= i < n :: es[i].Settle?
    ensures Sound(ss[n]) && |ss[n].boxes| == |ss[0].boxes| && ss[n].drag.None? && |ss[n].sends| == |ss[1].sends|
    ensures forall k | 0 <= k < |ss[1].sends| :: ss[n].sends[k].(open := true) == ss[1].sends[k].(open := true)
  {
    RunIsSound(ss, es, n);
    if n > 1 { AnswersOnly(ss, es, n - 1); }
  }

  lemma {:induction false} NotTouched(ss: seq<State>, es: seq<Event>, card: nat, i: nat, n: nat)
    requires IsPath(ss, es) && Sound(ss[0]) && 1 <= i <= n <= |es| && card < |ss[0].boxes| && ss[1].drag.None?
    requires forall k | 1 <= k < n :: es[k].Settle?
    requires forall k | i <= k < n :: !Touches(ss[k], es[k], card)
    ensures |ss[n].boxes| == |ss[i].boxes| == |ss[0].boxes| && ss[n].boxes[card] == ss[i].boxes[card]
  {
    AnswersOnly(ss, es, n);
    if i < n {
      NotTouched(ss, es, card, i, n - 1);
      AnswersOnly(ss, es, n - 1);
      OneAnswer(ss[n - 1], es[n - 1], card);
    }
  }

  /** After some answers a card stands where the last refusal that put it back put it. */
  lemma WhereAnswersLeave(ss: seq<State>, es: seq<Event>, card: nat, i: nat, n: nat)
    requires IsPath(ss, es) && Sound(ss[0]) && 1 <= n <= |es| && card < |ss[0].boxes| && ss[1].drag.None?
    requires (forall k | 1 <= k < n :: es[k].Settle?) && LastBack(ss, es, card, i, n)
    ensures |ss[n].boxes| == |ss[0].boxes| && ss[n].boxes[card] == PlaceBack(ss[i], es[i], card)
  {
    AnswersOnly(ss, es, i);
    OneAnswer(ss[i], es[i], card);
    NotTouched(ss, es, card, i + 1, n);
  }

  /** The answers in between leave every card but the gesture's own where it stood before the gesture: the
      last refusal that puts one back, if any, puts it back there. */
  ghost predicate OthersBackInPlace(ss: seq<State>, es: seq<Event>, own: Sent)
    requires |ss| == |es| + 1 && InRange(ss[0])
  {
    forall card, i: nat | 0 <= card < |ss[0].boxes| && !GoesBack(own, card, None) && LastBack(ss, es, card, i, |es|) ::
      PlaceBack(ss[i], es[i], card) == AtRest(ss[0])[card]
  }

  lemma {:induction false} LastTouch(ss: seq<State>, es: seq<Event>, card: nat, n: nat) returns (i: nat)
    requires |ss| == |es| + 1 && n <= |es| && exists k :: 1 <= k < n && Touches(ss[k], es[k], card)
    ensures LastBack(ss, es, card, i, n)
  {
    if Touches(ss[n - 1], es[n - 1], card) { i := n - 1; } else { i := LastTouch(ss, es, card, n - 1); }
  }

  /** A gesture that sent a request, then answers only, its own not among them. */
  ghost predicate AwaitsAnswer(ss: seq<State>, es: seq<Event>) {
    && IsPath(ss, es) && es != [] && Sound(ss[0]) && es[0] == Finish(false) && |ss[1].sends| > |ss[0].sends|
    && (forall i | 1 <= i < |es| :: es[i].Settle?) && Enabled(ss[|es|], Settle(|ss[0].sends|, true))
  }

  lemma CardRestored(ss: seq<State>, es: seq<Event>, card: nat)
    requires AwaitsAnswer(ss, es) && card < |ss[0].boxes|
    ensures var own, after := ss[1].sends[|ss[0].sends|], Step(ss[|es|], Settle(|ss[0].sends|, true)).boxes;
            && |after| == |ss[0].boxes|
            && (after[card] == AtRest(ss[0])[card] <==>
                GoesBack(own, card, None) || forall i: nat | LastBack(ss, es, card, i, |es|) ::
                  PlaceBack(ss[i], es[i], card) == AtRest(ss[0])[card])
  {
    var k, n := |ss[0].sends|, |es|;
    AnswersOnly(ss, es, n);
    OneAnswer(ss[n], Settle(k, true), card);
    OwnPlace(ss[0], card);
    forall i: nat | LastBack(ss, es, card, i, n) ensures ss[n].boxes[card] == PlaceBack(ss[i], es[i], card) {
      WhereAnswersLeave(ss, es, card, i, n);
    }
    if exists i :: 1 <= i < n && Touches(ss[i], es[i], card) {
      var i := LastTouch(ss, es, card, n);
    } else {
      NotTouched(ss, es, card, 1, n);
    }
  }

  /** A gesture refused before another begins leaves the layout exactly as it found it if and only if the
      answers in between leave every other card where it stood. */
  lemma RefusalRestores(ss: seq<State>, es: seq<Event>)
    requires AwaitsAnswer(ss, es)
    ensures Step(ss[|es|], Settle(|ss[0].sends|, true)).boxes == AtRest(ss[0])
            <==> OthersBackInPlace(ss, es, ss[1].sends[|ss[0].sends|])
  {
    var after := Step(ss[|es|], Settle(|ss[0].sends|, true)).boxes;
    AnswersOnly(ss, es, |es|);
    forall card | 0 <= card < |ss[0].boxes|
      ensures after[card] == AtRest(ss[0])[card] <==>
              GoesBack(ss[1].sends[|ss[0].sends|], card, None) || forall i: nat | LastBack(ss, es, card, i, |es|) ::
                PlaceBack(ss[i], es[i], card) == AtRest(ss[0])[card]
    {
      CardRestored(ss, es, card);
    }
  }

  /** With no other refusal in between it always does, and so keeps a valid layout. */
  lemma FirstRefusalRestores(ss: seq<State>, es: seq<Event>)
    requires AwaitsAnswer(ss, es) && forall i | 1 <= i < |es| :: !es[i].refused
    ensures Step(ss[|es|], Settle(|ss[0].sends|, true)).boxes == AtRest(ss[0])
    ensures Laid(ss[0]) ==> Laid(Step(ss[|es|], Settle(|ss[0].sends|, true)))
  {
    RefusalRestores(ss, es);
    AnswersOnly(ss, es, |es|);
    RunIsSound(ss, es, |es|);
  }

  /** A gesture's request names the cards it moved and the places they had. */
  lemma OwnPlace(s: State, card: nat)
    requires Sound(s) && s.drag.Some? && card < |s.boxes| && |FinishStep(s, false).sends| > |s.sends|
    ensures var own := FinishStep(s, false).sends[|s.sends|];
            if GoesBack(own, card, None) then PlaceOf(own, card) == AtRest(s)[card]
            else FinishStep(s, false).boxes[card] == AtRest(s)[card]
  {
    FinishPlaces(s, false);
  }

  // ----------------------------------------------------------- how it goes wrong

  lemma {:induction false} NoOccupants(boxes: seq<Box>, area: Box, except: nat, i: nat)
    requires i <= |boxes| && Clear(boxes, area, except)
    ensures Occupants(boxes, area, except, i) == []
    decreases |boxes| - i
  {
    if i < |boxes| { NoOccupants(boxes, area, except, i + 1); }
  }

  /** A card is picked up and carried to a slot, not yet let go. */
  predicate Lifted(s: State, card: nat, col: int, row: int, s': State) {
    && Enabled(s, Begin(card, Move))
    && var s1 := Step(s, Begin(card, Move));
    Enabled(s1, Update(col, row, true)) && s' == Step(s1, Update(col, row, true))
  }

  lemma LiftedOver(s: State, card: nat, col: int, row: int) returns (s': State)
    requires InRange(s) && s.drag.None? && card < |s.boxes|
    requires var to := s.boxes[card].(col := col, row := row); Fits(s.columns, to) && Clear(s.boxes, to, card)
    ensures Lifted(s, card, col, row, s')
    ensures s' == s.(drag := Some(Drag(card, Move, s.boxes[card], s.boxes[card].(col := col, row := row), Free, true)))
  {
    NoOccupants(s.boxes, s.boxes[card].(col := col, row := row), card, 0);
    s' := Step(Step(s, Begin(card, Move)), Update(col, row, true));
  }

  /** And let go there. */
  lemma DroppedOn(s: State, card: nat, col: int, row: int) returns (s1: State, s2: State)
    requires InRange(s) && s.drag.None? && card < |s.boxes|
    requires var to := s.boxes[card].(col := col, row := row); Fits(s.columns, to) && Clear(s.boxes, to, card)
    ensures Lifted(s, card, col, row, s1) && Enabled(s1, Finish(false)) && s2 == Step(s1, Finish(false))
    ensures s2 == State(s.columns, s.boxes[card := s.boxes[card].(col := col, row := row)], None,
                        s.sends + [Sent(card, s.boxes[card], None, s.boxes[card], true)])
  {
    s1 := LiftedOver(s, card, col, row);
    s2 := Step(s1, Finish(false));
  }

  /** A card lifted onto the one other card under it, of its own size, and let go, trades places with it, and
      the request names both and where they stood. */
  lemma LiftedOntoSwaps(s: State, card: nat, p: nat)
    requires Good(s) && s.drag.None? && card < |s.boxes| && p < |s.boxes| && p != card
    requires s.boxes[p].width == s.boxes[card].width && s.boxes[p].height == s.boxes[card].height
    ensures var s1 := Step(s, Begin(card, Move));
            var s2 := Step(s1, Update(s.boxes[p].col, s.boxes[p].row, true));
            && s2.drag.value.verdict == Swap(p)
            && Step(s2, Finish(false)) ==
                 s.(boxes := s.boxes[card := s.boxes[p]][p := s.boxes[card]],
                    sends := s.sends + [Sent(card, s.boxes[card], Some(p), s.boxes[p], true)])
  {
    var s1 := Step(s, Begin(card, Move));
    var d, area := s1.drag.value, s.boxes[p];
    CarriedArea(s.columns, d, area.col, area.row);
    assert AreaAt(s.columns, d, area.col, area.row) == area;
    forall j | 0 <= j < |s.boxes| && j != card && j != p ensures !Overlap(area, s.boxes[j]) {
      Apart(s.columns, s.boxes, p, j);
    }
    assert OnlyUnder(s.boxes, area, card, p);
    VerdictMeans(s.columns, s.boxes, d, area, p);
  }

  /** Meanwhile a card being resized shows the area asked for, and no card moves while one is carried. */
  lemma ShownMeanwhile(s: State, col: int, row: int, far: bool)
    requires InRange(s) && s.drag.Some?
    ensures var s', d := UpdateStep(s, col, row, far), s.drag.value;
            && s'.drag.value.area == AreaAt(s.columns, d, col, row)
            && s'.boxes == if d.mode == Resize then s.boxes[d.card := AreaAt(s.columns, d, col, row)] else s.boxes
  {
  }

  /** A whole gesture's pointer moves. */
  function Moves(s: State, moves: seq<(int, int, bool)>): (s': State)
    requires InRange(s) && s.drag.Some?
    ensures InRange(s') && s'.drag.Some?
  {
    if moves == [] then s
    else
      var last := moves[|moves| - 1];
      UpdateStep(Moves(s, moves[..|moves| - 1]), last.0, last.1, last.2)
  }

  /** A drag has moved once the pointer was more than two pixels off in any of its moves; and no pointer move
      sends anything, or changes where the cards rest. */
  lemma {:induction false} MovedMeans(s: State, moves: seq<(int, int, bool)>)
    requires InRange(s) && s.drag.Some?
    ensures var d, d' := s.drag.value, Moves(s, moves).drag.value;
            && d'.card == d.card && d'.mode == d.mode && d'.before == d.before
            && (d'.moved <==> d.moved || exists i | 0 <= i < |moves| :: moves[i].2)
    ensures Moves(s, moves).sends == s.sends && AtRest(Moves(s, moves)) == AtRest(s)
  {
    if moves != [] {
      var n := |moves| - 1;
      MovedMeans(s, moves[..n]);
      assert forall i | 0 <= i < n :: moves[..n][i] == moves[i];
      var before := Moves(s, moves[..n]);
      assert AtRest(UpdateStep(before, moves[n].0, moves[n].1, moves[n].2)) == AtRest(before);
    }
  }

  /** A drag that never moved puts its card back and sends nothing, wherever the card was shown meanwhile. */
  lemma {:induction false} ClickOnly(s: State, card: nat, mode: Mode, moves: seq<(int, int, bool)>)
    requires InRange(s) && s.drag.None? && card < |s.boxes|
    requires forall i | 0 <= i < |moves| :: !moves[i].2
    ensures Step(Moves(Step(s, Begin(card, mode)), moves), Finish(false)) == s
  {
    var s1 := Step(s, Begin(card, mode));
    MovedMeans(s1, moves);
    ColumnsStay(s1, moves);
    assert AtRest(s1) == s.boxes;
  }

  lemma {:induction false} ColumnsStay(s: State, moves: seq<(int, int, bool)>)
    requires InRange(s) && s.drag.Some?
    ensures Moves(s, moves).columns == s.columns
  {
    if moves != [] { ColumnsStay(s, moves[..|moves| - 1]); }
  }

  /** Each request is answered once. */
  lemma AnsweredOnce(s: State, e: Event, k: nat)
    requires Enabled(s, e) && k < |s.sends|
    ensures k < |Step(s, e).sends|
    ensures Step(s, e).sends[k].open <==> s.sends[k].open && !(e.Settle? && e.send == k)
  {
  }

  /** One card moves right, another takes its place, and the first move is refused: no room to go back. */
  lemma LateRefusalOverlaps() returns (s0: State, s1: State, s2: State, s3: State, s4: State)
    ensures Good(s0) && s0.drag.None?
    ensures Lifted(s0, 0, 2, 1, s1) && Enabled(s1, Finish(false)) && s2 == Step(s1, Finish(false))
    ensures Lifted(s2, 1, 1, 1, s3) && Enabled(s3, Finish(false)) && s4 == Step(s3, Finish(false))
    ensures Enabled(s4, Settle(0, true)) && Good(s4) && !Laid(Step(s4, Settle(0, true)))
  {
    var a, b, c := Box(1, 1, 1, 1), Box(1, 2, 1, 1), Box(2, 1, 1, 1);
    s0 := State(2, [a, b], None, []);
    s1, s2 := DroppedOn(s0, 0, 2, 1);
    assert s2.boxes == [c, b];
    s3, s4 := DroppedOn(s2, 1, 1, 1);
    NoRoom(s4, a, b, c);
  }

  lemma NoRoom(s: State, a: Box, b: Box, c: Box)
    requires a == Box(1, 1, 1, 1) && b == Box(1, 2, 1, 1) && c == Box(2, 1, 1, 1)
    requires s.columns == 2 && s.boxes == [c, a] && s.drag.None?
    requires s.sends == [Sent(0, a, None, a, true), Sent(1, b, None, b, true)]
    ensures Enabled(s, Settle(0, true)) && Good(s) && !Laid(Step(s, Settle(0, true)))
  {
    assert Step(s, Settle(0, true)).boxes == [a, a];
    Spoilt(2, [a, a], 0, 1);
  }

  /** A refusal there is room for can still make a later drop go wrong: the card in hand was judged over the
      place just left, the other card goes back to it, and the drop is not judged again. */
  lemma StaleVerdictOverlaps() returns (s0: State, s1: State, s2: State, s3: State, s4: State)
    ensures Good(s0) && s0.drag.None?
    ensures Lifted(s0, 0, 2, 1, s1) && Enabled(s1, Finish(false)) && s2 == Step(s1, Finish(false))
    ensures Lifted(s2, 1, 1, 1, s3) && Enabled(s3, Settle(0, true)) && s4 == Step(s3, Settle(0, true))
    ensures Harmless(s3, Settle(0, true)) && Good(s4) && !VerdictHolds(s4)
    ensures Enabled(s4, Finish(false)) && !Laid(Step(s4, Finish(false)))
  {
    var a, b, c := Box(1, 1, 1, 1), Box(2, 1, 1, 1), Box(3, 1, 1, 1);
    s0 := State(3, [a, c], None, []);
    s1, s2 := DroppedOn(s0, 0, 2, 1);
    assert s2.boxes == [b, c];
    s3 := LiftedOver(s2, 1, 1, 1);
    s4 := Step(s3, Settle(0, true));
    PutBackUnderneath(s3, a, b, c);
  }

  lemma PutBackUnderneath(s: State, a: Box, b: Box, c: Box)
    requires a == Box(1, 1, 1, 1) && b == Box(2, 1, 1, 1) && c == Box(3, 1, 1, 1)
    requires s == State(3, [b, c], Some(Drag(1, Move, c, a, Free, true)), [Sent(0, a, None, a, true)])
    ensures Enabled(s, Settle(0, true)) && Harmless(s, Settle(0, true)) && Good(Step(s, Settle(0, true)))
    ensures var s' := Step(s, Settle(0, true));
            !VerdictHolds(s') && Enabled(s', Finish(false)) && !Laid(Step(s', Finish(false)))
  {
    var s' := Step(s, Settle(0, true));
    assert AtRest(s) == [b, c] && AtRest(s') == [a, c] && Overlap(a, AtRest(s')[0]);
    assert Step(s', Finish(false)).boxes == [a, a];
    Spoilt(s.columns, [a, a], 0, 1);
  }
}
