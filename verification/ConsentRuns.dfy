/**
  Whole runs of the consent protocol: what becomes of every visitor token the
  server hands out, and which call decides once the queue has drained.  A
  `Ledger` is kept beside the script.  What is received, withdrawn and forgotten
  is written from the event and the request it answers; what is superseded and
  what is marked is what read() holds when a grant response, or a mark, comes.
 */
module ConsentRuns {
  import opened Options
  import opened Consent

  datatype LastCall = NoCall | LastGrant(policy: string) | LastWithdraw

  datatype Ledger = Ledger(
    received: set<Token>,      // tokens that came in grant responses, or were found stored at the first load
    withdrawn: set<Token>,     // their withdrawal was answered: success or 404
    forgotten: set<Token>,     // an observe carrying them was answered 404 while they were active
    superseded: set<Token>,    // another grant response replaced their record
    marked: set<Token>,        // tokens ever remembered with pending_withdrawal
    called: seq<Operation>,    // since the page loaded: calls, and operations begun
    started: seq<Operation>,
    last: LastCall,
    smooth: bool)              // since `last`, a grant: no send of its own failed and nothing took it away

  datatype World = World(client: State, ledger: Ledger)

  function Tokens(r: Option<Record>): set<Token> {
    if r.Some? && r.value.token.Some? then {r.value.token.value} else {}
  }

  function Held(s: State): set<Token> {
    Tokens(Read(s))
  }

  function MarkedNow(s: State): set<Token> {
    if Owed(s) then Held(s) else {}
  }

  function Received(e: Event): set<Token> {
    if e.GrantAnswer? && e.granted.Some? && e.granted.value.token.Some? then {e.granted.value.token.value} else {}
  }

  /** The token of a withdraw request that was answered, by success or by 404. */
  function Withdrawn(s: State, e: Event): set<Token>
    requires Enabled(s, e)
  {
    if e.WithdrawAnswer? && !e.answer.Failed? then {s.phase.token} else {}
  }

  /** The token of the observe request that was answered 404. */
  function Forgotten(s: State, e: Event): set<Token>
    requires Enabled(s, e)
  {
    if e.ObserveAnswer? && e.observed.Missing? && StillActive(s, s.observing[e.index])
    then Tokens(Some(s.observing[e.index].record)) else {}
  }

  function Superseded(s: State, e: Event): set<Token> {
    if e.GrantAnswer? && e.granted.Some? then Held(s) else {}
  }

  /** Whether the event ends the latest grant's success: its own send failed, or page() found its
      record lapsed or unknown to the server. */
  predicate Spoils(s: State, e: Event)
    requires Enabled(s, e)
  {
    match e
    case WithdrawAnswer(answer) => answer.Failed? && InGrant(s.phase) && s.phase.turn == s.generation
    case GrantAnswer(granted) => granted.None? && s.phase.turn == s.generation
    case CallPage => s.active.Some? && Lapsed(s.active.value.record, s.now)
    case ObserveAnswer(index, answer) => answer.Missing? && StillActive(s, s.observing[index])
    case _ => false
  }

  function Entered(s: State, l: Ledger, e: Event): Ledger
    requires Enabled(s, e)
  {
    var s' := Step(s, e);
    Ledger(
      l.received + Received(e),
      l.withdrawn + Withdrawn(s, e),
      l.forgotten + Forgotten(s, e),
      l.superseded + Superseded(s, e),
      l.marked + MarkedNow(s'),
      if e.CallGrant? || e.CallWithdraw? then l.called + [s'.queue[|s'.queue| - 1]]
      else if e.Reload? then [] else l.called,
      if e.Start? then l.started + [s.queue[0]] else if e.Reload? then [] else l.started,
      match e
      case CallGrant(policy) => LastGrant(policy)
      case CallWithdraw => LastWithdraw
      case Reload => NoCall
      case _ => l.last,
      e.CallGrant? || (l.smooth && !Spoils(s, e)))
  }

  /** The server never hands out a token twice. */
  predicate Possible(w: World, e: Event) {
    Enabled(w.client, e) && Received(e) !! w.ledger.received
  }

  function Move(w: World, e: Event): World
    requires Possible(w, e)
  {
    World(Step(w.client, e), Entered(w.client, w.ledger, e))
  }

  function FirstLoad(works: bool, stored: Option<Record>, now: int): World {
    var s := FreshPage(works, stored, now);
    World(s, Ledger(Held(s), {}, {}, {}, MarkedNow(s), [], [], NoCall, false))
  }

  ghost predicate IsRun(ws: seq<World>, es: seq<Event>) {
    && |ws| == |es| + 1
    && (exists works: bool, stored: Option<Record>, now: int ::
          (!works ==> stored.None?) && ws[0] == FirstLoad(works, stored, now))
    && forall i | 0 <= i < |es| :: Possible(ws[i], es[i]) && ws[i + 1] == Move(ws[i], es[i])
  }

  // --------------------------------------------------------- token accounting

  /** Every token received is in exactly one place. */
  predicate Accounted(w: World) {
    var l := w.ledger;
    && l.received == Held(w.client) + l.withdrawn + l.forgotten + l.superseded
    && Held(w.client) !! l.withdrawn !! l.forgotten !! l.superseded
  }

  /** Beginning an operation changes at most the mark on the record on hand. */
  lemma StartKeepsHeld(s: State)
    requires s.queue != [] && StorageAgrees(s)
    ensures Held(StartNext(s)) == Held(s)
    ensures Owed(s) && Held(s) != {} ==> Owed(StartNext(s))
  {
    var s1 := s.(queue := s.queue[1..]);
    assert Read(s1) == Read(s);
    match s.queue[0] {
      case GrantOp(turn, policy) => assert Held(StartGrant(s1, turn, policy)) == Held(s1);
      case WithdrawOp => assert Held(StartWithdraw(s1)) == Held(s1);
    }
  }

  /** Exactly what one event takes out of read() and puts into it. */
  predicate Balances(s: State, e: Event)
    requires Enabled(s, e)
  {
    && Withdrawn(s, e) + Forgotten(s, e) + Superseded(s, e) <= Held(s)
    && Held(Step(s, e)) == Held(s) - Withdrawn(s, e) - Forgotten(s, e) - Superseded(s, e) + Received(e)
    && Withdrawn(s, e) !! Forgotten(s, e) !! Superseded(s, e)
  }

  lemma ObserveBalances(s: State, e: Event)
    requires Valid(s) && Enabled(s, e) && e.ObserveAnswer?
    ensures Balances(s, e)
  {
    assert s.observing[e.index] in s.observing;
  }

  lemma AnswerBalances(s: State, e: Event)
    requires Valid(s) && Enabled(s, e) && (e.WithdrawAnswer? || e.GrantAnswer?)
    ensures Balances(s, e)
  {
  }

  lemma HeldChanges(s: State, e: Event)
    requires Valid(s) && Enabled(s, e) && (s.works || !e.Reload?)
    ensures Balances(s, e)
  {
    match e {
      case Start => StartKeepsHeld(s);
      case ObserveAnswer(_, _) => ObserveBalances(s, e);
      case WithdrawAnswer(_) => AnswerBalances(s, e);
      case GrantAnswer(_) => AnswerBalances(s, e);
      case _ =>
    }
  }

  /** A record is superseded only by a grant under another policy, or asked for when it was not live. */
  lemma SupersededReason(s: State, e: Event)
    requires Valid(s) && Enabled(s, e) && Superseded(s, e) != {}
    ensures s.phase.GrantAsking? && Read(s).Some? && !Owed(s)
    ensures Read(s).value.policy != s.phase.policy || Read(s).value.expiry.Unreadable?
            || Read(s).value.expiry.ms <= s.phase.asked
  {
  }

  /** The bookkeeping of one event, on plain sets. */
  lemma Rebalance(held: set<Token>, l: Ledger, held': set<Token>, l': Ledger,
                  arrived: set<Token>, w: set<Token>, f: set<Token>, u: set<Token>)
    requires l.received == held + l.withdrawn + l.forgotten + l.superseded
    requires held !! l.withdrawn !! l.forgotten !! l.superseded && arrived !! l.received
    requires w + f + u <= held && held' == held - w - f - u + arrived && w !! f !! u
    requires l'.received == l.received + arrived && l'.withdrawn == l.withdrawn + w
    requires l'.forgotten == l.forgotten + f && l'.superseded == l.superseded + u
    ensures l'.received == held' + l'.withdrawn + l'.forgotten + l'.superseded
    ensures held' !! l'.withdrawn !! l'.forgotten !! l'.superseded
  {
  }

  lemma MoveKeepsAccounted(w: World, e: Event)
    requires Valid(w.client) && Accounted(w) && Possible(w, e) && (w.client.works || !e.Reload?)
    ensures Accounted(Move(w, e))
  {
    HeldChanges(w.client, e);
    var s, l := w.client, w.ledger;
    Rebalance(Held(s), l, Held(Step(s, e)), Entered(s, l, e),
              Received(e), Withdrawn(s, e), Forgotten(s, e), Superseded(s, e));
  }

  /** A token once marked for withdrawal is never active, and while still held stays marked. */
  predicate MarkedStays(w: World) {
    && w.ledger.marked <= w.ledger.received
    && Held(w.client) <= w.ledger.received
    && (Read(w.client).Some? && Held(w.client) * w.ledger.marked != {} ==> Owed(w.client))
  }

  lemma GrantAnswerKeepsMarked(w: World, e: Event)
    requires Valid(w.client) && MarkedStays(w) && Possible(w, e) && e.GrantAnswer?
    ensures MarkedStays(Move(w, e))
  {
  }

  lemma StartKeepsMarked(w: World)
    requires Valid(w.client) && MarkedStays(w) && Possible(w, Start)
    ensures MarkedStays(Move(w, Start))
  {
    StartKeepsHeld(w.client);
  }

  lemma LosesOnly(w: World, e: Event)
    requires Valid(w.client) && MarkedStays(w) && Possible(w, e)
    requires e.WithdrawAnswer? || e.ObserveAnswer? || e.Reload?
    ensures MarkedStays(Move(w, e))
  {
    assert Held(Step(w.client, e)) <= Held(w.client);
  }

  lemma MoveKeepsMarked(w: World, e: Event)
    requires Valid(w.client) && MarkedStays(w) && Possible(w, e)
    ensures MarkedStays(Move(w, e))
  {
    match e {
      case Start => StartKeepsMarked(w);
      case GrantAnswer(_) => GrantAnswerKeepsMarked(w, e);
      case WithdrawAnswer(_) => LosesOnly(w, e);
      case ObserveAnswer(_, _) => LosesOnly(w, e);
      case Reload => LosesOnly(w, e);
      case _ =>
    }
  }

  // --------------------------------------------------------------- call order

  /** Operations begin in call order, and once none is left the last call has decided. */
  predicate LastDecides(w: World) {
    var s, l := w.client, w.ledger;
    && l.called == l.started + s.queue
    && match l.last
       case NoCall => Drained(s) && l.called == []
       case LastWithdraw =>
         if s.queue != [] then s.queue[|s.queue| - 1].WithdrawOp?
         else if s.phase.Idle? then s.active.None? && (Read(s).None? || Owed(s))
         else s.phase.WithdrawRevoking?
       case LastGrant(policy) =>
         if s.queue != [] then s.queue[|s.queue| - 1] == GrantOp(s.generation, policy)
         else if s.phase.Idle? then l.smooth ==> s.active.Some? && s.active.value.record.policy == policy
         else InGrant(s.phase) && s.phase.turn == s.generation && s.phase.policy == policy
  }

  /** The newest grant either activates its policy at once or waits under its own turn. */
  lemma NewestGrantBegins(s: State, policy: string)
    requires s.queue == [] && s.phase.Idle?
    ensures var s' := StartGrant(s, s.generation, policy);
            if s'.phase.Idle? then s'.active.Some? && s'.active.value.record.policy == policy
            else InGrant(s'.phase) && s'.phase.turn == s.generation && s'.phase.policy == policy
  {
  }

  lemma StartNextFrame(s: State)
    requires s.queue != []
    ensures StartNext(s).queue == s.queue[1..] && StartNext(s).generation == s.generation
  {
  }

  lemma OthersStillWait(w: World, w': World)
    requires LastDecides(w) && |w.client.queue| > 1
    requires w'.client.queue == w.client.queue[1..] && w'.client.generation == w.client.generation
    requires w'.ledger.called == w.ledger.called && w'.ledger.started == w.ledger.started + [w.client.queue[0]]
    requires w'.ledger.last == w.ledger.last
    ensures LastDecides(w')
  {
    var queue := w.client.queue;
    assert queue == [queue[0]] + queue[1..];
    assert w'.ledger.started + queue[1..] == w.ledger.started + ([queue[0]] + queue[1..]);
    assert queue[1..][|queue| - 2] == queue[|queue| - 1];
  }

  lemma NewestWithdrawBegins(s: State)
    requires s.queue == [] && s.phase.Idle? && s.active.None? && (s.works || s.stored.None?)
    ensures var s' := StartWithdraw(s);
            if s'.phase.Idle? then s'.active.None? && (Read(s').None? || Owed(s')) else s'.phase.WithdrawRevoking?
  {
  }

  lemma LastBegins(w: World)
    requires Valid(w.client) && LastDecides(w) && Possible(w, Start) && |w.client.queue| == 1
    ensures LastDecides(Move(w, Start))
  {
    var s := w.client;
    var op, begun := s.queue[0], s.(queue := s.queue[1..]);
    StartNextFrame(s);
    assert s.queue == [op] + s.queue[1..];
    match op
    case GrantOp(_, policy) => NewestGrantBegins(begun, policy);
    case WithdrawOp => NewestWithdrawBegins(begun);
  }

  lemma StartKeepsLast(w: World)
    requires Valid(w.client) && LastDecides(w) && Possible(w, Start)
    ensures LastDecides(Move(w, Start))
  {
    StartNextFrame(w.client);
    if |w.client.queue| > 1 { OthersStillWait(w, Move(w, Start)); } else { LastBegins(w); }
  }

  lemma AnswerKeepsLast(w: World, e: Event)
    requires Valid(w.client) && LastDecides(w) && Possible(w, e) && (e.WithdrawAnswer? || e.GrantAnswer?)
    ensures LastDecides(Move(w, e))
  {
  }

  lemma ReadingKeepsLast(w: World, e: Event)
    requires Valid(w.client) && LastDecides(w) && Possible(w, e) && (e.CallPage? || e.ObserveAnswer?)
    ensures LastDecides(Move(w, e))
  {
  }

  lemma MoveKeepsLast(w: World, e: Event)
    requires Valid(w.client) && LastDecides(w) && Possible(w, e)
    ensures LastDecides(Move(w, e))
  {
    match e {
      case Start => StartKeepsLast(w);
      case WithdrawAnswer(_) => AnswerKeepsLast(w, e);
      case GrantAnswer(_) => AnswerKeepsLast(w, e);
      case CallPage => ReadingKeepsLast(w, e);
      case ObserveAnswer(_, _) => ReadingKeepsLast(w, e);
      case _ =>
    }
  }

  // ---------------------------------------------------------------- every run

  predicate Good(w: World) {
    Valid(w.client) && MarkedStays(w) && LastDecides(w)
  }

  lemma MoveKeepsGood(w: World, e: Event)
    requires Good(w) && Possible(w, e)
    ensures Good(Move(w, e))
  {
    StepKeepsValid(w.client, e);
    MoveKeepsMarked(w, e);
    MoveKeepsLast(w, e);
  }

  /** What holds in every state any run reaches. */
  lemma {:induction false} ReachableIsGood(ws: seq<World>, es: seq<Event>, i: nat)
    requires IsRun(ws, es) && i < |ws|
    ensures Good(ws[i])
  {
    if i == 0 {
      var works: bool, stored: Option<Record>, now: int :|
        (!works ==> stored.None?) && ws[0] == FirstLoad(works, stored, now);
      FreshPageValid(works, stored, now);
    } else {
      ReachableIsGood(ws, es, i - 1);
      MoveKeepsGood(ws[i - 1], es[i - 1]);
    }
  }

  lemma {:induction false} WorksThroughout(ws: seq<World>, es: seq<Event>, i: nat)
    requires IsRun(ws, es) && i < |ws|
    ensures ws[i].client.works == ws[0].client.works
  {
    if i > 0 { WorksThroughout(ws, es, i - 1); }
  }

  /** At step j a grant response came, asked for under another policy than the record read() holds or when
      that record was not live, and took the place of its token. */
  predicate SupersededAt(w: World, e: Event, token: Token) {
    var s := w.client;
    && e.GrantAnswer? && e.granted.Some? && s.phase.GrantAsking? && Read(s).Some? && Held(s) == {token} && !Owed(s)
    && (Read(s).value.policy != s.phase.policy || Read(s).value.expiry.Unreadable?
        || Read(s).value.expiry.ms <= s.phase.asked)
  }

  /** At step j the withdrawal of the token was answered, by success or by 404. */
  predicate WithdrawnAt(w: World, e: Event, token: Token) {
    var p := w.client.phase;
    e.WithdrawAnswer? && !e.answer.Failed? && (p.GrantRevoking? || p.WithdrawRevoking?) && p.token == token
  }

  /** At step j an observe request with the token was answered 404 while its record was active. */
  predicate ForgottenAt(w: World, e: Event, token: Token) {
    && e.ObserveAnswer? && e.observed.Missing? && e.index < |w.client.observing|
    && w.client.active.Some? && w.client.active.value.id == w.client.observing[e.index].id
    && w.client.observing[e.index].record.token == Some(token)
  }

  lemma EntryReasons(w: World, e: Event, token: Token)
    requires Valid(w.client) && Possible(w, e)
    ensures token in Superseded(w.client, e) ==> SupersededAt(w, e, token)
    ensures token in Withdrawn(w.client, e) ==> WithdrawnAt(w, e, token)
    ensures token in Forgotten(w.client, e) ==> ForgottenAt(w, e, token)
  {
    if token in Superseded(w.client, e) { SupersededReason(w.client, e); }
  }

  /** No token leaves read() for another reason: each entry of the ledger has the step that made it. */
  lemma {:induction false} EveryExitHasItsReason(ws: seq<World>, es: seq<Event>, i: nat, token: Token)
    requires IsRun(ws, es) && i < |ws|
    ensures token in ws[i].ledger.superseded ==> exists j | 0 <= j < i :: SupersededAt(ws[j], es[j], token)
    ensures token in ws[i].ledger.withdrawn ==> exists j | 0 <= j < i :: WithdrawnAt(ws[j], es[j], token)
    ensures token in ws[i].ledger.forgotten ==> exists j | 0 <= j < i :: ForgottenAt(ws[j], es[j], token)
  {
    if i > 0 {
      EveryExitHasItsReason(ws, es, i - 1, token);
      ReachableIsGood(ws, es, i - 1);
      EntryReasons(ws[i - 1], es[i - 1], token);
    }
  }

  /** Token accounting: with working storage, or without a reload, every token received is held by
      read() or left it in exactly one of the three ways, in every state of every run. */
  lemma {:induction false} EveryTokenAccountedFor(ws: seq<World>, es: seq<Event>, i: nat)
    requires IsRun(ws, es) && i < |ws|
    requires ws[0].client.works || forall e | e in es :: !e.Reload?
    ensures Accounted(ws[i])
    ensures forall token | token in ws[i].ledger.superseded ::
              exists j | 0 <= j < i :: SupersededAt(ws[j], es[j], token)
  {
    forall token | token in ws[i].ledger.superseded
      ensures exists j | 0 <= j < i :: SupersededAt(ws[j], es[j], token)
    {
      EveryExitHasItsReason(ws, es, i, token);
    }
    if i > 0 {
      EveryTokenAccountedFor(ws, es, i - 1);
      WorksThroughout(ws, es, i - 1);
      ReachableIsGood(ws, es, i - 1);
      assert es[i - 1] in es;
      MoveKeepsAccounted(ws[i - 1], es[i - 1]);
    }
  }

  /** The step is the answer that granted the record, under the policy asked for. */
  predicate Granting(w: World, e: Event, r: Record) {
    && e.GrantAnswer? && e.granted.Some? && e.granted.value == Granted(r.token, r.expiry)
    && w.client.phase.GrantAsking? && w.client.phase.policy == r.policy
  }

  /** The record, marked since or not, is in storage. */
  predicate FoundStored(w: World, r: Record) {
    w.client.stored.Some? && w.client.stored.value.(pending := r.pending) == r
  }

  lemma WhereReadComesFrom(w: World, e: Event)
    requires Valid(w.client) && Possible(w, e)
    ensures var r := Read(Move(w, e).client);
            r.Some? ==> Granting(w, e, r.value)
                        || (Read(w.client).Some? && Read(w.client).value.(pending := r.value.pending) == r.value)
  {
    if e.Start? { StartReads(w.client); }
  }

  lemma StartReads(s: State)
    requires Valid(s) && s.queue != []
    ensures var r := Read(StartNext(s));
            r.Some? ==> Read(s).Some? && Read(s).value.(pending := r.value.pending) == r.value
  {
    var s1 := s.(queue := s.queue[1..]);
    assert Read(s1) == Read(s);
  }

  /** In every state of every run what read() returns was granted in the run or stored before it. */
  lemma {:induction false} EveryRecordHasItsGrant(ws: seq<World>, es: seq<Event>, i: nat)
    requires IsRun(ws, es) && i < |ws| && Read(ws[i].client).Some?
    ensures var r := Read(ws[i].client).value;
            FoundStored(ws[0], r) || exists j | 0 <= j < i :: Granting(ws[j], es[j], r)
  {
    if i > 0 {
      var r := Read(ws[i].client).value;
      ReachableIsGood(ws, es, i - 1);
      WhereReadComesFrom(ws[i - 1], es[i - 1]);
      if !Granting(ws[i - 1], es[i - 1], r) {
        EveryRecordHasItsGrant(ws, es, i - 1);
        var was := Read(ws[i - 1].client).value;
        if !FoundStored(ws[0], r) {
          var j :| 0 <= j < i - 1 && Granting(ws[j], es[j], was);
          assert Granting(ws[j], es[j], r);
        }
      }
    }
  }

  /** In every state of every run: a token a submission carries was granted, or stored before the run, with
      an expiry still to come; and while a record with such an expiry is active its token is carried. */
  lemma SubmissionsCarryLiveTokens(ws: seq<World>, es: seq<Event>, i: nat)
    requires IsRun(ws, es) && i < |ws|
    ensures var s := ws[i].client;
            SubmissionToken(s).Some? ==>
              exists ms, policy | s.now < ms ::
                var r := Record(SubmissionToken(s), At(ms), policy, false);
                FoundStored(ws[0], r) || exists j | 0 <= j < i :: Granting(ws[j], es[j], r)
    ensures var s := ws[i].client;
            s.active.Some? && s.active.value.record.expiry.At? && s.now < s.active.value.record.expiry.ms ==>
              SubmissionToken(s) == s.active.value.record.token
  {
    var s := ws[i].client;
    SubmissionCarries(s);
    ReachableIsGood(ws, es, i);
    if SubmissionToken(s).Some? {
      EveryRecordHasItsGrant(ws, es, i);
      var r := s.active.value.record;
      assert r == Record(SubmissionToken(s), At(r.expiry.ms), r.policy, false);
    }
  }

  lemma NewlyAsking(w: World, e: Event, w': World)
    requires Good(w) && Possible(w, e) && w' == Move(w, e)
    requires w'.client.phase.GrantAsking? && w'.client.phase != w.client.phase
    ensures w'.ledger.last == LastGrant(w'.client.phase.policy)
  {
    OnlyTheNewestAsks(w.client, e);
    MoveKeepsLast(w, e);
    NewestIsLast(w');
  }

  /** A grant request is sent only for the last call, under its policy. */
  lemma GrantsAskForTheLastCall(ws: seq<World>, es: seq<Event>, i: nat)
    requires IsRun(ws, es) && 0 < i < |ws|
    requires ws[i].client.phase.GrantAsking? && ws[i].client.phase != ws[i - 1].client.phase
    ensures ws[i].ledger.last == LastGrant(ws[i].client.phase.policy)
  {
    ReachableIsGood(ws, es, i - 1);
    NewlyAsking(ws[i - 1], es[i - 1], ws[i]);
  }

  lemma NewestIsLast(w: World)
    requires LastDecides(w) && w.client.phase.GrantAsking?
    requires w.client.phase.turn == w.client.generation && w.client.queue == []
    ensures w.ledger.last == LastGrant(w.client.phase.policy)
  {
  }

  /** While anything is active no consent work is queued or in flight, and it is what read() returns. */
  lemma ActiveMeansQuiet(ws: seq<World>, es: seq<Event>, i: nat)
    requires IsRun(ws, es) && i < |ws| && ws[i].client.active.Some?
    ensures Drained(ws[i].client)
    ensures Read(ws[i].client) == Some(ws[i].client.active.value.record) && !Owed(ws[i].client)
  {
    ReachableIsGood(ws, es, i);
  }

  /** No grant request is outstanding while a withdrawal is owed. */
  lemma NoGrantWhileOwed(ws: seq<World>, es: seq<Event>, i: nat)
    requires IsRun(ws, es) && i < |ws| && Owed(ws[i].client)
    ensures !ws[i].client.phase.GrantAsking?
  {
    ReachableIsGood(ws, es, i);
  }

  lemma {:induction false} LedgerGrows(ws: seq<World>, es: seq<Event>, i: nat, j: nat)
    requires IsRun(ws, es) && i <= j < |ws|
    ensures ws[i].ledger.marked <= ws[j].ledger.marked
    ensures ws[i].ledger.received <= ws[j].ledger.received
    decreases j - i
  {
    if i < j { LedgerGrows(ws, es, i, j - 1); }
  }

  /** A token marked for withdrawal at any time is not active at any later time, reloads included. */
  lemma MarkedNeverActive(ws: seq<World>, es: seq<Event>, i: nat, j: nat)
    requires IsRun(ws, es) && i <= j < |ws| && Owed(ws[i].client)
    requires ws[j].client.active.Some?
    ensures Tokens(Some(ws[j].client.active.value.record)) !! Held(ws[i].client)
  {
    ReachableIsGood(ws, es, i);
    ReachableIsGood(ws, es, j);
    LedgerGrows(ws, es, i, j);
    MarkedRecorded(ws, es, i);
  }

  /** So the token of an answer that came too late, its grant superseded, is never active. */
  lemma StaleNeverActive(ws: seq<World>, es: seq<Event>, j: nat, i: nat)
    requires IsRun(ws, es) && j < i < |ws| && es[j].GrantAnswer? && es[j].granted.Some?
    requires ws[j].client.phase.GrantAsking? && ws[j].client.phase.turn != ws[j].client.generation
    requires ws[i].client.active.Some? && es[j].granted.value.token.Some?
    ensures ws[i].client.active.value.record.token != es[j].granted.value.token
  {
    ReachableIsGood(ws, es, j);
    StaleAnswerIsOwed(ws[j].client, es[j].granted.value);
    MarkedNeverActive(ws, es, j + 1, i);
  }

  lemma MarkedRecorded(ws: seq<World>, es: seq<Event>, i: nat)
    requires IsRun(ws, es) && i < |ws|
    ensures MarkedNow(ws[i].client) <= ws[i].ledger.marked
  {
    if i > 0 { assert ws[i] == Move(ws[i - 1], es[i - 1]); }
  }

  /** Once the queue has drained the last call decides: after a withdrawal nothing is held or it is
      still owed; after a grant whose sends all succeeded, its policy is active. */
  lemma LastCallDecides(ws: seq<World>, es: seq<Event>, i: nat)
    requires IsRun(ws, es) && i < |ws| && Drained(ws[i].client)
    ensures ws[i].ledger.started == ws[i].ledger.called
    ensures ws[i].ledger.last.LastWithdraw? ==> Read(ws[i].client).None? || Owed(ws[i].client)
    ensures ws[i].ledger.last.LastGrant? && ws[i].ledger.smooth ==>
              ws[i].client.active.Some? && ws[i].client.active.value.record.policy == ws[i].ledger.last.policy
  {
    ReachableIsGood(ws, es, i);
    assert ws[i].ledger.started + [] == ws[i].ledger.started;
  }

  /** A run goes on. */
  lemma Moved(ws: seq<World>, es: seq<Event>, e: Event, w: World)
    requires IsRun(ws, es) && Possible(ws[|es|], e) && w == Move(ws[|es|], e)
    ensures IsRun(ws + [w], es + [e])
  {
    var more, events := ws + [w], es + [e];
    assert more[0] == ws[0] && more[|es|] == ws[|es|] && more[|es| + 1] == w;
    forall i | 0 <= i < |events| ensures Possible(more[i], events[i]) && more[i + 1] == Move(more[i], events[i]) {
      assert i < |es| ==> more[i] == ws[i] && more[i + 1] == ws[i + 1] && events[i] == es[i];
    }
  }

  lemma NothingReceived(w: World, e: Event)
    requires Possible(w, e) && w.ledger.received == {} && !e.GrantAnswer?
    ensures Move(w, e).client == Step(w.client, e) && Move(w, e).ledger.received == {}
  {
  }

  /** A page whose record's expiry cannot be read: it sends, and submits no token. */
  lemma UnreadableExpiryIsReached(policy: string, token: Token, now: int) returns (ws: seq<World>, es: seq<Event>)
    ensures IsRun(ws, es) && |es| == 3
    ensures var s := ws[3].client;
            && s.active.Some? && s.active.value.record.expiry.Unreadable? && s.active.value.record.token == Some(token)
            && Page(s).observing != s.observing && SubmissionToken(s).None?
  {
    var granted, w0 := Granted(Some(token), Unreadable), FirstLoad(true, None, now);
    FirstGrant(true, policy, now, granted);
    var w1 := Move(w0, CallGrant(policy));
    NothingReceived(w0, CallGrant(policy));
    var w2 := Move(w1, Start);
    NothingReceived(w1, Start);
    var w3 := Move(w2, GrantAnswer(Some(granted)));
    Moved([w0], [], CallGrant(policy), w1);
    Moved([w0] + [w1], [CallGrant(policy)], Start, w2);
    Moved([w0] + [w1] + [w2], [CallGrant(policy)] + [Start], GrantAnswer(Some(granted)), w3);
    ws, es := [w0] + [w1] + [w2] + [w3], [CallGrant(policy)] + [Start] + [GrantAnswer(Some(granted))];
    PageAndSubmissionPart(w3.client);
  }
}
