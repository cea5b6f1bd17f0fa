/**
  The script of data/static/attribution.js as an object whose methods update
  its closure variables in place, one method for each stretch of script that
  runs without interruption.  Each is proved against `Consent.Step`.
 */
module ConsentClient {
  import opened Options
  import opened Consent

  class Client {
    const works: bool
    var stored: Option<Record>
    var active: Option<Handle>
    var remembered: Option<Handle>
    var nextId: nat
    var generation: nat
    var queue: seq<Operation>
    var phase: Phase
    var observing: seq<Handle>
    var now: int

    ghost function Model(): State
      reads this
    {
      State(works, stored, active, remembered, nextId, generation, queue, phase, observing, now)
    }

    /** Loading the script: it neither reads storage nor sends anything. */
    constructor (works: bool, stored: Option<Record>, now: int)
      requires !works ==> stored.None?
      ensures Model() == FreshPage(works, stored, now) && Consent.Valid(Model())
    {
      this.works := works;
      this.stored := stored;
      active, remembered, nextId := None, None, 0;
      generation, queue, phase := 0, [], Idle;
      observing, this.now := [], now;
    }

    /** A new script object, numbered. */
    method NewObject(record: Record) returns (h: Handle)
      modifies this`nextId
      ensures h == Handle(old(nextId), record) && nextId == old(nextId) + 1
    {
      h := Handle(nextId, record);
      nextId := nextId + 1;
    }

    method Remember(value: Option<Handle>)
      modifies this`remembered, this`stored
      ensures Model() == Consent.Remember(old(Model()), value)
    {
      remembered := value;
      if works {
        if value.Some? {
          stored := Some(value.value.record);
        } else {
          stored := None;
        }
      }
    }

    /** revoke(record) up to its first await; `sent` is the token of the withdraw request. */
    method Revoke(record: Option<Record>) returns (sent: Option<Token>)
      modifies this`remembered, this`stored, this`nextId
      ensures Model() == Consent.Revoke(old(Model()), record)
      ensures sent == if Revocable(record) then record.value.token else None
    {
      if record.None? || record.value.token.None? {
        Remember(None);
        return None;
      }
      var marked := NewObject(record.value.(pending := true));
      Remember(Some(marked));
      return record.value.token;
    }

    method Grant(policy: string)
      requires Consent.Valid(Model())
      modifies this
      ensures Model() == Step(old(Model()), CallGrant(policy)) && Consent.Valid(Model())
    {
      StepKeepsValid(Model(), CallGrant(policy));
      generation := generation + 1;
      var turn := generation;
      active := None;
      queue := queue + [GrantOp(turn, policy)];
    }

    method Withdraw()
      requires Consent.Valid(Model())
      modifies this
      ensures Model() == Step(old(Model()), CallWithdraw) && Consent.Valid(Model())
    {
      StepKeepsValid(Model(), CallWithdraw);
      generation := generation + 1;
      active := None;
      queue := queue + [WithdrawOp];
    }

    /** page(): `sent` says whether an observe request went out. */
    method Page() returns (sent: bool)
      requires Consent.Valid(Model())
      modifies this
      ensures Model() == Step(old(Model()), CallPage) && Consent.Valid(Model())
      ensures sent <==> observing != old(observing)
    {
      StepKeepsValid(Model(), CallPage);
      var record := active;
      if record.None? || Lapsed(record.value.record, now) {
        active := None;
        return false;
      }
      observing := observing + [record.value];
      return true;
    }

    /** The next operation on the chain runs to its first await. */
    method StartNext()
      requires Consent.Valid(Model()) && Enabled(Model(), Start)
      modifies this
      ensures Model() == Step(old(Model()), Start) && Consent.Valid(Model())
    {
      StepKeepsValid(Model(), Start);
      var operation := queue[0];
      queue := queue[1..];
      match operation {
        case GrantOp(turn, policy) => BeginGrant(turn, policy);
        case WithdrawOp =>
          var previous := Read();
          var sent := Revoke(previous);
          phase := if sent.Some? then WithdrawRevoking(sent.value) else Idle;
      }
    }

    method BeginGrant(turn: nat, policy: string)
      modifies this
      ensures Model() == StartGrant(old(Model()), turn, policy)
    {
      if turn != generation { return; }
      var previous := Read();
      if previous.Some? && previous.value.pending {
        var sent := Revoke(previous);
        phase := if sent.Some? then GrantRevoking(turn, policy, sent.value) else GrantRevoked(turn, policy);
        return;
      }
      if previous.Some? && previous.value.policy == policy && Live(previous.value, now) {
        if remembered.Some? {
          active := remembered;
        } else {
          var parsed := NewObject(previous.value);
          active := Some(parsed);
        }
        return;
      }
      phase := GrantAsking(turn, policy, now);
    }

    method Read() returns (value: Option<Record>)
      ensures value == Consent.Read(Model())
    {
      if remembered.Some? {
        return Some(remembered.value.record);
      }
      return stored;
    }

    /** A grant's continuation after `await revoke(previous)`. */
    method ResumeGrant()
      requires Consent.Valid(Model()) && Enabled(Model(), Resume)
      modifies this
      ensures Model() == Step(old(Model()), Resume) && Consent.Valid(Model())
    {
      StepKeepsValid(Model(), Resume);
      if phase.turn != generation {
        phase := Idle;
      } else {
        phase := GrantAsking(phase.turn, phase.policy, now);
      }
    }

    method WithdrawAnswered(answer: Answer)
      requires Consent.Valid(Model()) && Enabled(Model(), WithdrawAnswer(answer))
      modifies this
      ensures Model() == Step(old(Model()), WithdrawAnswer(answer)) && Consent.Valid(Model())
    {
      StepKeepsValid(Model(), WithdrawAnswer(answer));
      if answer.Failed? {
        phase := Idle;
        return;
      }
      Remember(None);
      phase := if phase.GrantRevoking? then GrantRevoked(phase.turn, phase.policy) else Idle;
    }

    method GrantAnswered(granted: Option<Granted>)
      requires Consent.Valid(Model()) && Enabled(Model(), GrantAnswer(granted))
      modifies this
      ensures Model() == Step(old(Model()), GrantAnswer(granted)) && Consent.Valid(Model())
    {
      StepKeepsValid(Model(), GrantAnswer(granted));
      var turn, policy := phase.turn, phase.policy;
      phase := Idle;
      if granted.None? { return; }
      var record := Record(granted.value.token, granted.value.expiry, policy, false);
      if turn != generation {
        var marked := NewObject(record.(pending := true));
        Remember(Some(marked));
        return;
      }
      var current := NewObject(record);
      Remember(Some(current));
      active := Some(current);
    }

    method ObserveAnswered(index: nat, answer: Answer)
      requires Consent.Valid(Model()) && Enabled(Model(), ObserveAnswer(index, answer))
      modifies this
      ensures Model() == Step(old(Model()), ObserveAnswer(index, answer)) && Consent.Valid(Model())
    {
      StepKeepsValid(Model(), ObserveAnswer(index, answer));
      var record := observing[index];
      observing := observing[..index] + observing[index + 1..];
      if answer.Missing? && active.Some? && active.value.id == record.id {
        active := None;
        Remember(None);
      }
    }

    /** createSubmission: the token attached to the envelope is one that read() holds, unmarked. */
    method CreateSubmission() returns (token: Option<Token>)
      requires Consent.Valid(Model())
      ensures token == SubmissionToken(Model())
      ensures token.Some? <==> active.Some? && active.value.record.token.Some?
                               && active.value.record.expiry.At? && now < active.value.record.expiry.ms
      ensures token.Some? ==> Consent.Read(Model()).Some? && !Owed(Model())
                              && Consent.Read(Model()).value.token == token
    {
      if active.Some? && Live(active.value.record, now) {
        return active.value.record.token;
      }
      return None;
    }
  }
}
