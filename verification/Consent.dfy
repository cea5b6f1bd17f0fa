/**
  The analytics-consent protocol of data/static/attribution.js as a labelled
  transition system.  `State` holds the closure variables, the promise queue,
  the requests in flight and the browser storage; `Step` is one uninterrupted
  stretch of script between two awaits, or one move of the environment.

  Two script objects with the same content are still two objects, and `page`
  compares by identity, so an object is a `Handle`: a number and a record.
 */
module Consent {
  import opened Options

  type Token = nat

  /** What Date.parse makes of `expires_at`; every comparison with NaN is false. */
  datatype Expiry = Unreadable | At(ms: int)

  /** A falsy token is None. */
  datatype Record = Record(token: Option<Token>, expiry: Expiry, policy: string, pending: bool)

  datatype Handle = Handle(id: nat, record: Record)

  /** Date.parse(expires_at) > Date.now() */
  predicate Live(r: Record, now: int) {
    r.expiry.At? && r.expiry.ms > now
  }

  /** Date.parse(expires_at) <= Date.now(): not the negation of Live. */
  predicate Lapsed(r: Record, now: int) {
    r.expiry.At? && r.expiry.ms <= now
  }

  datatype Operation = GrantOp(turn: nat, policy: string) | WithdrawOp

  /** Where the operation at the head of the promise chain is waiting. */
  datatype Phase =
    | Idle
    | GrantRevoking(turn: nat, policy: string, token: Token)  // sent withdraw for the owed token
    | GrantRevoked(turn: nat, policy: string)                 // revoke has returned, the rest has not run
    | GrantAsking(turn: nat, policy: string, asked: int)      // sent grant, at time `asked`
    | WithdrawRevoking(token: Token)                          // sent withdraw

  datatype State = State(
    works: bool,                // whether browser storage accepts reads and writes
    stored: Option<Record>,     // survives a reload
    active: Option<Handle>,
    remembered: Option<Handle>,
    nextId: nat,
    generation: nat,
    queue: seq<Operation>,      // operations chained on consentWork and not started
    phase: Phase,
    observing: seq<Handle>,     // observe requests in flight, each with its captured record
    now: int)

  datatype Answer = Accepted | Missing | Failed   // 2xx, 404, anything else or a timeout

  datatype Granted = Granted(token: Option<Token>, expiry: Expiry)

  datatype Event =
    | CallGrant(policy: string)
    | CallWithdraw
    | CallPage
    | Start                                   // the next queued operation begins
    | Resume                                  // a grant goes on after its revoke returned
    | WithdrawAnswer(answer: Answer)
    | GrantAnswer(granted: Option<Granted>)   // None: refused, lost or timed out
    | ObserveAnswer(index: nat, observed: Answer)
    | Clock(time: int)
    | Reload

  // ---------------------------------------------------------------- the script

  /** What read() returns, by value. */
  function Read(s: State): Option<Record> {
    if s.remembered.Some? then Some(s.remembered.value.record) else s.stored
  }

  /** remember(value) */
  function Remember(s: State, h: Option<Handle>): State {
    s.(remembered := h,
       stored := if !s.works then s.stored else if h.Some? then Some(h.value.record) else None)
  }

  /** remember(value) for an object made on the spot. */
  function RememberNew(s: State, r: Record): State {
    Remember(s, Some(Handle(s.nextId, r))).(nextId := s.nextId + 1)
  }

  /** Whether revoke(record) has something to send. */
  predicate Revocable(r: Option<Record>) {
    r.Some? && r.value.token.Some?
  }

  /** revoke(record) up to its request, or to its end when there is nothing to send. */
  function Revoke(s: State, r: Option<Record>): State {
    if Revocable(r) then RememberNew(s, r.value.(pending := true)) else Remember(s, None)
  }

  /** The body of a queued grant up to its first await. */
  function StartGrant(s: State, turn: nat, policy: string): State {
    var previous := Read(s);
    if turn != s.generation then s
    else if previous.Some? && previous.value.pending then
      Revoke(s, previous).(phase :=
        if Revocable(previous) then GrantRevoking(turn, policy, previous.value.token.value)
        else GrantRevoked(turn, policy))
    else if previous.Some? && previous.value.policy == policy && Live(previous.value, s.now) then
      if s.remembered.Some? then s.(active := s.remembered)
      else s.(active := Some(Handle(s.nextId, previous.value)), nextId := s.nextId + 1)
    else
      s.(phase := GrantAsking(turn, policy, s.now))
  }

  /** The body of a queued withdrawal up to its first await. */
  function StartWithdraw(s: State): State {
    var previous := Read(s);
    Revoke(s, previous).(phase :=
      if Revocable(previous) then WithdrawRevoking(previous.value.token.value) else Idle)
  }

  function StartNext(s: State): State
    requires s.queue != []
  {
    var s1 := s.(queue := s.queue[1..]);
    match s.queue[0]
    case GrantOp(turn, policy) => StartGrant(s1, turn, policy)
    case WithdrawOp => StartWithdraw(s1)
  }

  function AfterWithdrawAnswer(s: State, answer: Answer): State
    requires s.phase.GrantRevoking? || s.phase.WithdrawRevoking?
  {
    if answer.Failed? then s.(phase := Idle)
    else Remember(s, None).(phase :=
      if s.phase.GrantRevoking? then GrantRevoked(s.phase.turn, s.phase.policy) else Idle)
  }

  function AfterGrantAnswer(s: State, granted: Option<Granted>): State
    requires s.phase.GrantAsking?
  {
    var s1 := s.(phase := Idle);
    if granted.None? then s1
    else
      var r := Record(granted.value.token, granted.value.expiry, s.phase.policy, false);
      if s.phase.turn != s.generation then RememberNew(s1, r.(pending := true))
      else RememberNew(s1, r).(active := Some(Handle(s.nextId, r)))
  }

  /** The identity test `active === record`. */
  predicate StillActive(s: State, record: Handle) {
    s.active.Some? && s.active.value.id == record.id
  }

  function AfterObserveAnswer(s: State, index: nat, answer: Answer): State
    requires index < |s.observing|
  {
    var s1 := s.(observing := s.observing[..index] + s.observing[index + 1..]);
    if answer.Missing? && StillActive(s, s.observing[index]) then Remember(s1.(active := None), None) else s1
  }

  function Page(s: State): State {
    if s.active.None? || Lapsed(s.active.value.record, s.now) then s.(active := None)
    else s.(observing := s.observing + [s.active.value])
  }

  /** The visitor token createSubmission attaches, if any. */
  function SubmissionToken(s: State): Option<Token> {
    if s.active.Some? && Live(s.active.value.record, s.now) then s.active.value.record.token else None
  }

  function FreshPage(works: bool, stored: Option<Record>, now: int): State {
    State(works, stored, None, None, 0, 0, [], Idle, [], now)
  }

  predicate Enabled(s: State, e: Event) {
    match e
    case Start => s.phase.Idle? && s.queue != []
    case Resume => s.phase.GrantRevoked?
    case WithdrawAnswer(_) => s.phase.GrantRevoking? || s.phase.WithdrawRevoking?
    case GrantAnswer(_) => s.phase.GrantAsking?
    case ObserveAnswer(index, _) => index < |s.observing|
    case _ => true
  }

  function Step(s: State, e: Event): State
    requires Enabled(s, e)
  {
    match e
    case CallGrant(policy) =>
      s.(generation := s.generation + 1, active := None, queue := s.queue + [GrantOp(s.generation + 1, policy)])
    case CallWithdraw =>
      s.(generation := s.generation + 1, active := None, queue := s.queue + [WithdrawOp])
    case CallPage => Page(s)
    case Start => StartNext(s)
    case Resume =>
      s.(phase := if s.phase.turn != s.generation then Idle else GrantAsking(s.phase.turn, s.phase.policy, s.now))
    case WithdrawAnswer(answer) => AfterWithdrawAnswer(s, answer)
    case GrantAnswer(granted) => AfterGrantAnswer(s, granted)
    case ObserveAnswer(index, answer) => AfterObserveAnswer(s, index, answer)
    case Clock(time) => s.(now := time)
    case Reload => FreshPage(s.works, s.stored, s.now)
  }

  // ------------------------------------------------------------ the invariant

  /** Storage mirrors memory while it works and stays empty while it does not. */
  predicate StorageAgrees(s: State) {
    && (s.works && s.remembered.Some? ==> s.stored == Some(s.remembered.value.record))
    && (!s.works ==> s.stored.None?)
  }

  predicate InGrant(p: Phase) {
    p.GrantRevoking? || p.GrantRevoked? || p.GrantAsking?
  }

  /** Only the newest call can hold the current generation. */
  predicate TurnsAgree(s: State) {
    && (forall i | 0 <= i < |s.queue| && s.queue[i].GrantOp? ::
          s.queue[i].turn <= s.generation && (s.queue[i].turn == s.generation ==> i == |s.queue| - 1))
    && (InGrant(s.phase) ==>
          s.phase.turn <= s.generation && (s.phase.turn == s.generation ==> s.queue == []))
  }

  predicate Drained(s: State) {
    s.queue == [] && s.phase.Idle?
  }

  /** A withdrawal is owed: the record on hand is marked and its withdrawal not answered. */
  predicate Owed(s: State) {
    Read(s).Some? && Read(s).value.pending
  }

  predicate ActiveAgrees(s: State) {
    s.active.Some? ==> Drained(s) && Read(s) == Some(s.active.value.record) && !Owed(s)
  }

  predicate PhaseAgrees(s: State) {
    match s.phase
    case Idle => true
    case GrantRevoking(_, _, token) => Owed(s) && Read(s).value.token == Some(token)
    case WithdrawRevoking(token) => Owed(s) && Read(s).value.token == Some(token)
    case GrantRevoked(_, _) => Read(s).None?
    case GrantAsking(_, policy, asked) =>
      Read(s).Some? ==> !Owed(s) && (Read(s).value.policy != policy || !Live(Read(s).value, asked))
  }

  /** A handle's number names one object. */
  predicate IdentityAgrees(s: State) {
    && (s.active.Some? ==> s.active.value.id < s.nextId)
    && (s.remembered.Some? ==> s.remembered.value.id < s.nextId)
    && (forall h | h in s.observing :: h.id < s.nextId)
    && (forall h | h in s.observing && s.active.Some? && h.id == s.active.value.id :: h == s.active.value)
    && (forall h | h in s.observing && s.remembered.Some? && h.id == s.remembered.value.id :: h == s.remembered.value)
  }

  predicate Valid(s: State) {
    StorageAgrees(s) && TurnsAgree(s) && ActiveAgrees(s) && PhaseAgrees(s) && IdentityAgrees(s)
  }

  lemma RevokeKeepsIdentity(s: State, r: Option<Record>)
    requires IdentityAgrees(s)
    ensures IdentityAgrees(Revoke(s, r))
  {
  }

  lemma StartGrantKeepsValid(s: State, turn: nat, policy: string)
    requires Valid(s) && s.phase.Idle? && s.active.None?
    requires turn <= s.generation && (turn == s.generation ==> s.queue == [])
    ensures Valid(StartGrant(s, turn, policy))
  {
    RevokeKeepsIdentity(s, Read(s));
    assert IdentityAgrees(StartGrant(s, turn, policy));
  }

  lemma StartWithdrawKeepsValid(s: State)
    requires Valid(s) && s.phase.Idle? && s.active.None?
    ensures Valid(StartWithdraw(s))
  {
  }

  lemma StartKeepsValid(s: State)
    requires Valid(s) && s.phase.Idle? && s.queue != []
    ensures Valid(StartNext(s))
  {
    var s1 := s.(queue := s.queue[1..]);
    assert forall i | 0 <= i < |s1.queue| :: s1.queue[i] == s.queue[i + 1];
    assert Valid(s1);
    match s.queue[0] {
      case GrantOp(turn, policy) => StartGrantKeepsValid(s1, turn, policy);
      case WithdrawOp => StartWithdrawKeepsValid(s1);
    }
  }

  lemma AnswerKeepsValid(s: State, e: Event)
    requires Valid(s) && Enabled(s, e) && (e.WithdrawAnswer? || e.GrantAnswer?)
    ensures Valid(Step(s, e))
  {
  }

  lemma ObserveAnswerKeepsValid(s: State, index: nat, answer: Answer)
    requires Valid(s) && index < |s.observing|
    ensures Valid(AfterObserveAnswer(s, index, answer))
  {
    var s' := AfterObserveAnswer(s, index, answer);
    assert forall h | h in s'.observing :: h in s.observing;
  }

  lemma PageKeepsValid(s: State)
    requires Valid(s)
    ensures Valid(Page(s))
  {
    assert forall h | h in Page(s).observing :: h in s.observing || (s.active.Some? && h == s.active.value);
  }

  lemma CallKeepsValid(s: State, e: Event)
    requires Valid(s) && (e.CallGrant? || e.CallWithdraw?)
    ensures Valid(Step(s, e))
  {
    var s' := Step(s, e);
    assert forall i | 0 <= i < |s.queue| :: s'.queue[i] == s.queue[i];
    assert TurnsAgree(s');
  }

  /** Every step of the script and of the environment keeps the invariant. */
  lemma StepKeepsValid(s: State, e: Event)
    requires Valid(s) && Enabled(s, e)
    ensures Valid(Step(s, e))
  {
    match e {
      case Start => StartKeepsValid(s);
      case ObserveAnswer(index, answer) => ObserveAnswerKeepsValid(s, index, answer);
      case CallPage => PageKeepsValid(s);
      case CallGrant(_) => CallKeepsValid(s, e);
      case CallWithdraw => CallKeepsValid(s, e);
      case WithdrawAnswer(_) => AnswerKeepsValid(s, e);
      case GrantAnswer(_) => AnswerKeepsValid(s, e);
      case _ =>
    }
  }

  lemma FreshPageValid(works: bool, stored: Option<Record>, now: int)
    requires !works ==> stored.None?
    ensures Valid(FreshPage(works, stored, now))
  {
  }

  /** Granting from rest first sends the withdrawal that is owed, if any; else reuses the record on hand when
      it is under that policy and its expiry is a date still to come; else asks the server. */
  lemma GrantFromRest(s: State, policy: string)
    requires Valid(s) && Drained(s)
    ensures var r := Read(s);
            var s2 := Step(Step(s, CallGrant(policy)), Start);
            var reusable := r.Some? && !r.value.pending && r.value.policy == policy
                            && r.value.expiry.At? && s.now < r.value.expiry.ms;
            && (s2.phase == GrantAsking(s.generation + 1, policy, s.now)
                <==> !reusable && (r.None? || !r.value.pending))
            && (reusable ==> s2.active.Some? && s2.active.value.record == r.value && Drained(s2))
            && (r.Some? && r.value.pending ==>
                  s2.phase == if r.value.token.Some? then GrantRevoking(s.generation + 1, policy, r.value.token.value)
                              else GrantRevoked(s.generation + 1, policy))
  {
    var s1 := Step(s, CallGrant(policy));
    assert s1.queue[1..] == [] && s1.queue[0] == GrantOp(s.generation + 1, policy);
  }

  /** A withdrawal sends exactly the token on hand, and nothing when there is none. */
  lemma WithdrawSendsWhatIsHeld(s: State)
    requires Valid(s) && s.phase.Idle? && s.queue != [] && s.queue[0].WithdrawOp?
    ensures var s' := StartNext(s);
            && (Revocable(Read(s)) <==> s'.phase.WithdrawRevoking?)
            && (Revocable(Read(s)) ==> Some(s'.phase.token) == Read(s).value.token && Owed(s'))
            && (!Revocable(Read(s)) ==> Read(s').None?)
  {
    var s1 := s.(queue := s.queue[1..]);
    assert Read(s1) == Read(s);
  }

  /** `page` sends what is active unless nothing is, or its expiry is a date that has come; then it forgets it. */
  lemma PageSends(s: State)
    ensures var sends := s.active.Some?
                         && !(s.active.value.record.expiry.At? && s.active.value.record.expiry.ms <= s.now);
            Page(s) == if sends then s.(observing := s.observing + [s.active.value]) else s.(active := None)
  {
  }

  /** An observe answer of 404 forgets the record exactly when the very object sent is still the active one;
      and no request is answered twice. */
  lemma ObserveForgets(s: State, index: nat, answer: Answer)
    requires Valid(s) && index < |s.observing|
    ensures var s', forgets := AfterObserveAnswer(s, index, answer),
              answer == Missing && s.active.Some? && s.active.value.id == s.observing[index].id;
            && (forgets ==> s'.active.None? && Read(s').None?)
            && (!forgets ==> s'.active == s.active && s'.remembered == s.remembered && s'.stored == s.stored)
    ensures multiset(s.observing) == multiset(AfterObserveAnswer(s, index, answer).observing)
                                     + multiset{s.observing[index]}
  {
    assert s.observing == s.observing[..index] + [s.observing[index]] + s.observing[index + 1..];
  }

  /** A submission carries a token exactly when the active record has one and its expiry is a date still to
      come; and then it is that token. */
  lemma SubmissionCarries(s: State)
    ensures SubmissionToken(s).Some? <==>
              && s.active.Some? && s.active.value.record.token.Some?
              && s.active.value.record.expiry.At? && s.now < s.active.value.record.expiry.ms
    ensures SubmissionToken(s).Some? ==> SubmissionToken(s) == s.active.value.record.token
  {
  }

  /** While something is active, `page` sends and yet a submission carries no token exactly when the expiry
      cannot be read, or the expiry is still to come and there is no token. */
  lemma PageAndSubmissionPart(s: State)
    requires s.active.Some?
    ensures var r := s.active.value.record;
            Page(s).observing != s.observing && SubmissionToken(s).None? <==>
              r.expiry.Unreadable? || (r.expiry.At? && s.now < r.expiry.ms && r.token.None?)
  {
    assert |s.observing + [s.active.value]| > |s.observing|;
  }

  /** A grant request goes out only for the newest call; a superseded grant that begins or goes on sends
      nothing and changes nothing. */
  lemma OnlyTheNewestAsks(s: State, e: Event)
    requires Valid(s) && Enabled(s, e)
    ensures Step(s, e).phase.GrantAsking? && Step(s, e).phase != s.phase ==>
              && Step(s, e).phase.turn == Step(s, e).generation
              && Step(s, e).phase.asked == s.now && Step(s, e).queue == []
    ensures e.Resume? ==> Step(s, e) == s.(phase :=
              if s.phase.turn == s.generation then GrantAsking(s.phase.turn, s.phase.policy, s.now) else Idle)
    ensures e.Start? && s.queue[0].GrantOp? && s.queue[0].turn != s.generation ==>
              Step(s, e) == s.(queue := s.queue[1..])
  {
    if e.Start? { StartKeepsValid(s); }
  }

  /** With nothing stored a grant asks the server, and its answer becomes active. */
  lemma FirstGrant(works: bool, policy: string, now: int, granted: Granted)
    ensures var s1 := Step(FreshPage(works, None, now), CallGrant(policy));
            && Enabled(s1, Start) && Step(s1, Start).phase == GrantAsking(1, policy, now)
            && var s3 := Step(Step(s1, Start), GrantAnswer(Some(granted)));
            s3.active == Some(Handle(0, Record(granted.token, granted.expiry, policy, false)))
  {
    var s1 := Step(FreshPage(works, None, now), CallGrant(policy));
    assert s1.queue == [GrantOp(1, policy)];
  }

  /** The answer to a superseded grant is kept, and owed at once. */
  lemma StaleAnswerIsOwed(s: State, granted: Granted)
    requires Valid(s) && s.phase.GrantAsking? && s.phase.turn != s.generation
    ensures var s' := AfterGrantAnswer(s, Some(granted));
            && s'.active == s.active && Owed(s')
            && Read(s').value.token == granted.token && Read(s').value.expiry == granted.expiry
  {
  }

  /** A reload keeps what is stored and the time, and nothing else. */
  lemma ReloadKeepsStorage(s: State)
    ensures var s' := Step(s, Reload);
            && s'.works == s.works && s'.stored == s.stored && s'.now == s.now
            && s'.active.None? && s'.remembered.None? && s'.observing == [] && Drained(s')
  {
  }

  /** What the clock last said. */
  function LastTime(now: int, es: seq<Event>): int {
    if es == [] then now
    else if es[|es| - 1].Clock? then es[|es| - 1].time else LastTime(now, es[..|es| - 1])
  }

  lemma OnlyTheClockTells(s: State, e: Event)
    requires Enabled(s, e)
    ensures Step(s, e).now == if e.Clock? then e.time else s.now
  {
  }

  lemma {:induction false} NowIsTheClock(ss: seq<State>, es: seq<Event>)
    requires IsPath(ss, es)
    ensures ss[|es|].now == LastTime(ss[0].now, es)
    decreases |es|
  {
    if es != [] {
      var k := |es| - 1;
      assert IsPath(ss[..k + 1], es[..k]);
      NowIsTheClock(ss[..k + 1], es[..k]);
      OnlyTheClockTells(ss[k], es[k]);
    }
  }

  // ------------------------------------------------- queue order and progress

  predicate Internal(e: Event) {
    e.Start? || e.Resume? || e.WithdrawAnswer? || e.GrantAnswer?
  }

  function PhaseWork(p: Phase): nat {
    match p
    case Idle => 0
    case GrantAsking(_, _, _) => 1
    case GrantRevoked(_, _) => 2
    case GrantRevoking(_, _, _) => 3
    case WithdrawRevoking(_) => 3
  }

  function Work(s: State): nat {
    4 * |s.queue| + PhaseWork(s.phase)
  }

  ghost predicate IsPath(ss: seq<State>, es: seq<Event>) {
    && |ss| == |es| + 1
    && forall i | 0 <= i < |es| :: Enabled(ss[i], es[i]) && ss[i + 1] == Step(ss[i], es[i])
  }

  /** Work is left exactly while something internal can still happen: nothing blocks the queue,
      a failed operation included. */
  lemma NeverStuck(s: State)
    ensures !Drained(s) <==> exists e :: Internal(e) && Enabled(s, e)
  {
    if !Drained(s) {
      var e := match s.phase
        case Idle => Start
        case GrantRevoked(_, _) => Resume
        case GrantAsking(_, _, _) => GrantAnswer(None)
        case _ => WithdrawAnswer(Failed);
      assert Internal(e) && Enabled(s, e);
    }
  }

  /** However each request is answered, the chain drains within Work(s) steps. */
  lemma {:induction false} QueueDrains(ss: seq<State>, es: seq<Event>)
    requires IsPath(ss, es) && forall e | e in es :: Internal(e)
    ensures |es| + Work(ss[|es|]) <= Work(ss[0])
    decreases |es|
  {
    if es != [] {
      var k := |es| - 1;
      assert IsPath(ss[..k + 1], es[..k]);
      QueueDrains(ss[..k + 1], es[..k]);
      assert Internal(es[k]);
    }
  }

  // ------------------------------------------------------- silence on withdrawal

  /** Nothing active and no grant that may still make something active. */
  predicate Muted(s: State) {
    && s.active.None?
    && (forall i | 0 <= i < |s.queue| && s.queue[i].GrantOp? :: s.queue[i].turn < s.generation)
    && (InGrant(s.phase) ==> s.phase.turn < s.generation)
  }

  lemma StaysMuted(s: State, e: Event)
    requires Muted(s) && Enabled(s, e) && !e.CallGrant?
    ensures Muted(Step(s, e))
    ensures Step(s, e).phase.GrantAsking? ==> Step(s, e).phase == s.phase
  {
    if e.Start? {
      assert forall i | 0 <= i < |s.queue[1..]| :: s.queue[1..][i] == s.queue[i + 1];
    }
  }

  /** From a withdraw(), or a reload, to the next grant(), in every interleaving, nothing is active, page()
      sends nothing, a submission carries no token and no grant request goes out. */
  lemma {:induction false} WithdrawSilences(ss: seq<State>, es: seq<Event>)
    requires IsPath(ss, es) && es != [] && (es[0].CallWithdraw? || es[0].Reload?) && Valid(ss[0])
    requires forall e | e in es :: !e.CallGrant?
    ensures forall i | 1 <= i < |ss| ::
              ss[i].active.None? && Page(ss[i]).observing == ss[i].observing && SubmissionToken(ss[i]).None?
    ensures forall i | 1 <= i < |ss| && ss[i].phase.GrantAsking? :: ss[i].phase == ss[i - 1].phase
    ensures Muted(ss[|es|])
    decreases |es|
  {
    var k := |es| - 1;
    if k == 0 {
      assert Muted(ss[1]);
    } else {
      assert IsPath(ss[..k + 1], es[..k]);
      WithdrawSilences(ss[..k + 1], es[..k]);
      assert !es[k].CallGrant?;
      StaysMuted(ss[k], es[k]);
      forall i | 1 <= i < |ss|
        ensures ss[i].active.None? && Page(ss[i]).observing == ss[i].observing && SubmissionToken(ss[i]).None?
      {
        if i < |ss| - 1 { assert ss[i] == ss[..k + 1][i]; }
      }
      forall i | 1 <= i < |ss| && ss[i].phase.GrantAsking? ensures ss[i].phase == ss[i - 1].phase {
        if i < |ss| - 1 { assert ss[i] == ss[..k + 1][i] && ss[i - 1] == ss[..k + 1][i - 1]; }
      }
    }
  }
}
