/**
  The grid editor of data/static/venture.js as an object: the cards' places and
  the drag in hand, overwritten by each pointer event and each answer.
 */
module GridEditor {
  import opened Options
  import opened Grid

  class Editor {
    const columns: int
    var boxes: seq<Box>
    var drag: Option<Drag>
    var sends: seq<Sent>

    ghost function Model(): State
      reads this
    {
      State(columns, boxes, drag, sends)
    }

    constructor (columns: int, boxes: seq<Box>)
      requires ValidLayout(columns, boxes)
      ensures Model() == State(columns, boxes, None, []) && Good(Model())
    {
      this.columns := columns;
      this.boxes := boxes;
      drag, sends := None, [];
    }

    method PointerDown(card: nat, mode: Mode)
      requires Sound(Model()) && card < |boxes|
      modifies this
      ensures Model() == if old(drag).Some? then old(Model()) else Step(old(Model()), Begin(card, mode))
      ensures Sound(Model()) && (Good(old(Model())) ==> Good(Model()))
    {
      if drag.Some? { return; }
      StepKeepsSound(Model(), Begin(card, mode));
      if Good(Model()) { StepKeepsGood(Model(), Begin(card, mode)); }
      drag := Some(Drag(card, mode, boxes[card], boxes[card], Free, false));
    }

    /** occupants(area, except) */
    method Occupants(area: Box, except: nat) returns (taken: seq<nat>)
      ensures taken == Grid.Occupants(boxes, area, except, 0)
    {
      taken := [];
      for i := 0 to |boxes|
        invariant taken + Grid.Occupants(boxes, area, except, i) == Grid.Occupants(boxes, area, except, 0)
      {
        ghost var later := Grid.Occupants(boxes, area, except, i + 1);
        if i != except && Overlap(area, boxes[i]) {
          assert taken + ([i] + later) == (taken + [i]) + later;
          taken := taken + [i];
        } else {
          assert taken + ([] + later) == taken + later;
        }
      }
      assert taken + [] == taken;
    }

    /** Green, amber or red. */
    method Judge(d: Drag, area: Box) returns (verdict: Verdict)
      ensures verdict == Grid.Judge(columns, boxes, d, area)
    {
      if !Fits(columns, area) { return Refused; }
      var taken := Occupants(area, d.card);
      OccupantsAre(boxes, area, d.card, 0);
      if taken == [] { return Free; }
      if d.mode.Move? && |taken| == 1 {
        assert taken[0] in taken;
        if boxes[taken[0]].width == area.width && boxes[taken[0]].height == area.height {
          return Swap(taken[0]);
        }
      }
      return Refused;
    }

    /** A pointer move: the place under the card, and the verdict on it. */
    method Update(col: int, row: int, far: bool)
      requires Sound(Model()) && drag.Some?
      modifies this
      ensures Model() == Step(old(Model()), Grid.Update(col, row, far)) && Sound(Model())
      ensures VerdictHolds(Model()) && (Good(old(Model())) ==> Good(Model()))
    {
      UpdateKeepsSound(Model(), col, row, far);
      UpdateJudges(Model(), col, row, far);
      var d := drag.value;
      var moved := d.moved || far;
      var area;
      if d.mode.Move? {
        area := Box(Clamp(col, 1, columns - d.before.width + 1), Clamp(row, 1, MAX_ROWS - d.before.height + 1),
                    d.before.width, d.before.height);
      } else {
        area := Box(d.before.col, d.before.row,
                    Clamp(col - d.before.col + 1, 1, columns - d.before.col + 1),
                    Clamp(row - d.before.row + 1, 1, MAX_RESIZE));
        boxes := boxes[d.card := area];
      }
      var verdict := Judge(d, area);
      drag := Some(d.(moved := moved, area := area, verdict := verdict));
    }

    /** The card is let go, or the drag called off: on the verdict there is, which is not looked at again. */
    method Finish(cancelled: bool)
      requires Sound(Model())
      modifies this
      ensures Model() == if old(drag).None? then old(Model()) else Step(old(Model()), Grid.Finish(cancelled))
      ensures Sound(Model()) && drag.None?
      ensures Good(old(Model())) ==> (Good(Model()) <==> Harmless(old(Model()), Grid.Finish(cancelled)))
      ensures Good(old(Model())) && VerdictHolds(old(Model())) ==> ValidLayout(columns, boxes)
    {
      if drag.None? { return; }
      FinishKeepsSound(Model(), cancelled);
      if Good(Model()) { FinishKeepsGood(Model(), cancelled); }
      if VerdictHolds(Model()) { TrueVerdictIsHarmless(Model(), cancelled); }
      var d := drag.value;
      drag := None;
      if cancelled || !d.moved || d.verdict.Refused? {
        boxes := boxes[d.card := d.before];
        return;
      }
      if d.verdict.Swap? {
        var p := d.verdict.partner;
        var partnerBefore := boxes[p];
        boxes := boxes[d.card := partnerBefore];
        boxes := boxes[p := d.before];
        sends := sends + [Sent(d.card, d.before, Some(p), partnerBefore, true)];
        return;
      }
      boxes := boxes[d.card := d.area];
      sends := sends + [Sent(d.card, d.before, None, d.before, true)];
    }

    /** The server's answer, at any time: a refusal puts the cards of that gesture back. */
    method Answered(k: nat, refused: bool)
      requires Sound(Model()) && Enabled(Model(), Settle(k, refused))
      modifies this
      ensures Model() == Step(old(Model()), Settle(k, refused)) && Sound(Model())
      ensures Good(old(Model())) ==> (Good(Model()) <==> Harmless(old(Model()), Settle(k, refused)))
    {
      StepKeepsSound(Model(), Settle(k, refused));
      if Good(Model()) { StepKeepsGood(Model(), Settle(k, refused)); }
      var m := sends[k];
      sends := sends[k := m.(open := false)];
      if refused {
        boxes := boxes[m.card := m.before];
        if m.partner.Some? {
          boxes := boxes[m.partner.value := m.partnerBefore];
        }
      }
    }
  }
}
