/**
  Latest request wins: `issueRequest` of data/static/venture-hx.js with its
  `inFlight` map and the busy mark.

  A request is numbered by the order it is sent in, and its number stands for
  its AbortController.  Aborting and sending are separate moves, since the
  htmx:beforeRequest listener runs between them and may itself send; an aborted
  request may still deliver a response that had already been read.
 */
module Requests {
  type Element = nat

  datatype Fetch = Fetch(element: Element, aborted: bool, open: bool)

  datatype State = State(inFlight: map<Element, nat>, busy: set<Element>, fetches: seq<Fetch>, accepted: seq<nat>)

  datatype Event =
    | Abort(victim: nat)
    | Send(element: Element)
    | Respond(k: nat)   // the body of request k has been read
    | Fail(k: nat)      // request k was aborted, refused or lost
    | Throw(k: nat)     // the code that handled k's response threw

  const Quiet := State(map[], {}, [], [])

  predicate Enabled(s: State, e: Event) {
    match e
    case Abort(k) => k < |s.fetches|
    case Send(_) => true
    case Respond(k) => k < |s.fetches| && s.fetches[k].open
    case Fail(k) => k < |s.fetches| && s.fetches[k].open
    case Throw(k) => k < |s.fetches| && !s.fetches[k].open
  }

  /** inFlight.get(el) === controller */
  predicate Current(s: State, k: nat)
    requires k < |s.fetches|
  {
    s.fetches[k].element in s.inFlight && s.inFlight[s.fetches[k].element] == k
  }

  /** inFlight.delete(el); setRequesting(el, false) */
  function Clear(s: State, el: Element): State {
    s.(inFlight := s.inFlight - {el}, busy := s.busy - {el})
  }

  function Close(s: State, k: nat): State
    requires k < |s.fetches|
  {
    s.(fetches := s.fetches[k := s.fetches[k].(open := false)])
  }

  function Step(s: State, e: Event): State
    requires Enabled(s, e)
  {
    match e
    case Abort(k) => s.(fetches := s.fetches[k := s.fetches[k].(aborted := true)])
    case Send(el) =>
      s.(busy := s.busy + {el}, inFlight := s.inFlight[el := |s.fetches|],
         fetches := s.fetches + [Fetch(el, false, true)])
    case Respond(k) =>
      if Current(s, k) then Close(Clear(s, s.fetches[k].element), k).(accepted := s.accepted + [k]) else Close(s, k)
    case Fail(k) => if Current(s, k) then Close(Clear(s, s.fetches[k].element), k) else Close(s, k)
    case Throw(k) => if Current(s, k) then Clear(s, s.fetches[k].element) else s
  }

  /** No later request was sent for the same element. */
  predicate Newest(s: State, k: nat)
    requires k < |s.fetches|
  {
    forall j | k < j < |s.fetches| :: s.fetches[j].element != s.fetches[k].element
  }

  predicate Valid(s: State) {
    && s.busy == s.inFlight.Keys
    && (forall el | el in s.inFlight :: s.inFlight[el] < |s.fetches| && s.fetches[s.inFlight[el]].element == el)
    // in flight exactly: the newest request of its element, still open
    && (forall k | 0 <= k < |s.fetches| :: Current(s, k) <==> Newest(s, k) && s.fetches[k].open)
    && (forall i | 0 <= i < |s.accepted| :: s.accepted[i] < |s.fetches| && !s.fetches[s.accepted[i]].open)
    && (forall i, j | 0 <= i < j < |s.accepted|
                      && s.fetches[s.accepted[i]].element == s.fetches[s.accepted[j]].element ::
          s.accepted[i] < s.accepted[j])
  }

  lemma SendKeepsValid(s: State, el: Element)
    requires Valid(s)
    ensures Valid(Step(s, Send(el)))
  {
    var s' := Step(s, Send(el));
    forall k | 0 <= k < |s'.fetches| ensures Current(s', k) <==> Newest(s', k) && s'.fetches[k].open {
      if k < |s.fetches| {
        assert s'.fetches[k] == s.fetches[k];
        if s.fetches[k].element == el {
          assert s'.fetches[|s.fetches|].element == el && !Newest(s', k);
        } else if Newest(s, k) {
          assert Newest(s', k);
        } else {
          var j :| k < j < |s.fetches| && s.fetches[j].element == s.fetches[k].element;
          assert s'.fetches[j].element == s'.fetches[k].element;
        }
      }
    }
  }

  /** Whether k is newest, and what was accepted, do not depend on which requests are open or aborted. */
  lemma SameElements(s: State, s': State)
    requires |s.fetches| == |s'.fetches|
    requires forall j | 0 <= j < |s.fetches| :: s.fetches[j].element == s'.fetches[j].element
    ensures forall k | 0 <= k < |s.fetches| :: Newest(s, k) == Newest(s', k)
  {
  }

  lemma StepKeepsValid(s: State, e: Event)
    requires Valid(s) && Enabled(s, e)
    ensures Valid(Step(s, e))
  {
    match e {
      case Send(el) => SendKeepsValid(s, el);
      case Abort(k) =>
        SameElements(s, Step(s, e));
        assert forall j | 0 <= j < |s.fetches| :: Current(Step(s, e), j) == Current(s, j);
      case Respond(k) => SettleKeepsValid(s, e, k);
      case Fail(k) => SettleKeepsValid(s, e, k);
      case Throw(k) => assert !Current(s, k);
    }
  }

  lemma SettleKeepsValid(s: State, e: Event, k: nat)
    requires Valid(s) && Enabled(s, e) && (e == Respond(k) || e == Fail(k))
    ensures Valid(Step(s, e))
  {
    var s' := Step(s, e);
    SameElements(s, s');
    forall j | 0 <= j < |s.fetches| ensures Current(s', j) <==> Newest(s', j) && s'.fetches[j].open {
      if j != k {
        assert Current(s, j) && s.fetches[j].element == s.fetches[k].element ==> !Current(s, k);
        assert Current(s', j) == Current(s, j);
      }
    }
    if e.Respond? && Current(s, k) {
      forall i | 0 <= i < |s.accepted| && s.fetches[s.accepted[i]].element == s.fetches[k].element
        ensures s.accepted[i] < k
      {
        assert Newest(s, k) && s.accepted[i] != k;
      }
    }
  }

  /** A response is accepted exactly when no newer request was sent for its element; and a request
      that is not the newest changes neither the map nor the busy marks however it ends. */
  lemma AcceptedIffNewest(s: State, e: Event, k: nat)
    requires Valid(s) && Enabled(s, e) && (e == Respond(k) || e == Fail(k) || e == Throw(k))
    ensures Step(s, e).accepted == if e.Respond? && Newest(s, k) then s.accepted + [k] else s.accepted
    ensures !Newest(s, k) || e.Throw? ==> Step(s, e).inFlight == s.inFlight && Step(s, e).busy == s.busy
    ensures forall el | el != s.fetches[k].element ::
              (el in Step(s, e).busy <==> el in s.busy)
              && (el in Step(s, e).inFlight <==> el in s.inFlight)
              && (el in s.inFlight ==> Step(s, e).inFlight[el] == s.inFlight[el])
  {
    assert Current(s, k) <==> Newest(s, k) && s.fetches[k].open;
  }

  /** Every request a newer one of its element has superseded, and that is still open, has been aborted. */
  predicate OlderAborted(s: State) {
    forall k | 0 <= k < |s.fetches| && s.fetches[k].open && !Newest(s, k) :: s.fetches[k].aborted
  }

  /** That can only be lost by sending for an element whose request in flight was not aborted first; nothing
      takes an abort back. */
  lemma SendingAbortsOlder(s: State, e: Event)
    requires Valid(s) && Enabled(s, e) && OlderAborted(s)
    ensures OlderAborted(Step(s, e)) <==>
              (e.Send? && e.element in s.inFlight ==> s.fetches[s.inFlight[e.element]].aborted)
    ensures forall k | 0 <= k < |s.fetches| ::
              Step(s, e).fetches[k].aborted == (s.fetches[k].aborted || e == Abort(k))
    ensures e.Send? ==> Step(s, e).fetches[|s.fetches|] == Fetch(e.element, false, true)
  {
    var s' := Step(s, e);
    if e.Send? {
      var el := e.element;
      forall k | 0 <= k < |s.fetches| ensures Newest(s', k) <==> Newest(s, k) && s.fetches[k].element != el {
        if s.fetches[k].element == el { assert s'.fetches[|s.fetches|].element == s'.fetches[k].element; }
        assert forall j | k < j < |s.fetches| :: s'.fetches[j] == s.fetches[j];
        if Newest(s', k) {
          forall j | k < j < |s.fetches| ensures s.fetches[j].element != s.fetches[k].element {
            assert s'.fetches[j].element != s'.fetches[k].element;
          }
        }
      }
      if el in s.inFlight {
        var k := s.inFlight[el];
        assert Current(s, k) && s'.fetches[k] == s.fetches[k] && !Newest(s', k);
      }
      forall k | 0 <= k < |s'.fetches| && s'.fetches[k].open && !Newest(s', k) && k < |s.fetches|
        ensures s.fetches[k].aborted || (el in s.inFlight && s.inFlight[el] == k)
      {
        if Newest(s, k) { assert Current(s, k); }
      }
      assert Newest(s', |s.fetches|);
    } else {
      SameElements(s, s');
    }
  }

  ghost predicate IsRun(ss: seq<State>, es: seq<Event>) {
    && |ss| == |es| + 1 && ss[0] == Quiet
    && forall i | 0 <= i < |es| :: Enabled(ss[i], es[i]) && ss[i + 1] == Step(ss[i], es[i])
  }

  lemma {:induction false} ReachableIsValid(ss: seq<State>, es: seq<Event>, i: nat)
    requires IsRun(ss, es) && i < |ss|
    ensures Valid(ss[i])
  {
    if i > 0 {
      ReachableIsValid(ss, es, i - 1);
      StepKeepsValid(ss[i - 1], es[i - 1]);
    }
  }

  /** In every state of every run: an element is busy exactly while it has a controller in flight,
      its accepted responses came in the order of its requests, and once every fetch has settled
      nothing is in flight and nothing is busy. */
  lemma EveryRunEndsQuiet(ss: seq<State>, es: seq<Event>, i: nat)
    requires IsRun(ss, es) && i < |ss|
    ensures ss[i].busy == ss[i].inFlight.Keys
    ensures forall a, b | 0 <= a < b < |ss[i].accepted| ::
              var x, y := ss[i].accepted[a], ss[i].accepted[b];
              x < |ss[i].fetches| && y < |ss[i].fetches|
              && (ss[i].fetches[x].element == ss[i].fetches[y].element ==> x < y)
    ensures (forall k | 0 <= k < |ss[i].fetches| :: !ss[i].fetches[k].open) ==>
              ss[i].inFlight == map[] && ss[i].busy == {}
  {
    ReachableIsValid(ss, es, i);
    if forall k | 0 <= k < |ss[i].fetches| :: !ss[i].fetches[k].open {
      forall el ensures el !in ss[i].inFlight {
        if el in ss[i].inFlight { assert Current(ss[i], ss[i].inFlight[el]); }
      }
    }
  }

  /** The runtime's own variables, updated in place. */
  class Runtime {
    var inFlight: map<Element, nat>
    var busy: set<Element>
    var fetches: seq<Fetch>
    var accepted: seq<nat>

    ghost function Model(): State
      reads this
    {
      State(inFlight, busy, fetches, accepted)
    }

    constructor ()
      ensures Model() == Quiet && Valid(Model())
    {
      inFlight, busy, fetches, accepted := map[], {}, [], [];
    }

    /** issueRequest: `confirmed` is the visitor's answer, `queue` says hx-sync is "queue", and
        `allowed` that no htmx:beforeRequest listener objected. */
    method Issue(el: Element, confirmed: bool, queue: bool, allowed: bool)
      requires Valid(Model())
      modifies this
      ensures Valid(Model())
      ensures var s := old(Model());
              var s1 := if confirmed && !queue && el in s.inFlight then Step(s, Abort(s.inFlight[el])) else s;
              Model() == if confirmed && allowed then Step(s1, Send(el)) else s1
      ensures OlderAborted(old(Model())) && !queue ==> OlderAborted(Model())
    {
      if !confirmed { return; }
      if el in inFlight && !queue {
        var existing := inFlight[el];
        StepKeepsValid(Model(), Abort(existing));
        if OlderAborted(Model()) { SendingAbortsOlder(Model(), Abort(existing)); }
        fetches := fetches[existing := fetches[existing].(aborted := true)];
      }
      if !allowed { return; }
      StepKeepsValid(Model(), Send(el));
      if OlderAborted(Model()) { SendingAbortsOlder(Model(), Send(el)); }
      busy := busy + {el};
      inFlight := inFlight[el := |fetches|];
      fetches := fetches + [Fetch(el, false, true)];
    }

    /** Settled(k, true): the response handler; Settled(k, false): the catch. */
    method Settled(k: nat, answered: bool)
      requires Valid(Model()) && Enabled(Model(), Respond(k))
      modifies this
      ensures Model() == Step(old(Model()), if answered then Respond(k) else Fail(k)) && Valid(Model())
    {
      StepKeepsValid(Model(), if answered then Respond(k) else Fail(k));
      var el := fetches[k].element;
      fetches := fetches[k := fetches[k].(open := false)];
      if el !in inFlight || inFlight[el] != k { return; }
      inFlight := inFlight - {el};
      busy := busy - {el};
      if answered { accepted := accepted + [k]; }
    }
  }
}
