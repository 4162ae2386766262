/** The backend contract, call by call and over runs: what each call owes its caller. */
module LedgerContracts {
  import opened Wrappers
  import opened Universe
  import opened OsStates
  import opened Snapshots
  import opened Ledgers
  import opened LedgerTheorems

  // ---------------------------------------------------------------- creations

  /** A creation whose capability breaks a rule is refused before any fault and any change. */
  lemma InvalidIsRefused(l: Ledger, op: UniverseOp, kind: GrantKind)
    requires FirstBrokenRule(op.capability).Some?
    ensures var refusal := Refused(InvalidOperation(op.Address(), FirstBrokenRule(op.capability).value));
            && Step(l, Grant(op, kind)) == (l, refusal)
            && Step(l, Apply(op)) == (l, refusal)
            && Step(l, Plant(op.Object())) == (l, refusal)
  {
  }

  /** A refused owner's valid grants and applies fail with the armed cause and change nothing,
      whatever stands there; only an unfinished effect comes first. */
  lemma RefusedOwnerIsRefused(l: Ledger, op: UniverseOp, kind: GrantKind)
    requires op.capability.Valid() && op.Address() !in l.incomplete && op.owner in l.refused
    ensures var refusal := Refused(Fault(Injected(l.refused[op.owner])));
            Step(l, Grant(op, kind)) == (l, refusal) && Step(l, Apply(op)) == (l, refusal)
  {
  }

  /** The ledger with one more unfinished operation. */
  function Unfinishing(l: Ledger, op: UniverseOp, detail: string): (Ledger, Answer) {
    (l.(incomplete := l.incomplete[op.Address() := Unfinished(op, detail)]),
     Refused(BackendError.IncompleteEffect(op.Address(), detail)))
  }

  predicate Admissible(l: Ledger, op: UniverseOp) {
    op.capability.Valid() && op.Address() !in l.incomplete && op.owner !in l.refused
  }

  /** An apply records its object at a vacant address, repeats as nothing, conflicts with another
      object, and leaves a doomed owner's operation unfinished only where nothing stands. */
  lemma ApplyRecords(l: Ledger, op: UniverseOp)
    requires Admissible(l, op)
    ensures var h := op.Address();
            Step(l, Apply(op))
            == if h in l.state then
                 (l, if l.state[h] == OsObject(op.id, op.owner, op.capability) then Done else Refused(IdentityConflict(h)))
               else if op.owner in l.doomed then
                 Unfinishing(l, op, l.doomed[op.owner])
               else
                 (l.(state := l.state[h := OsObject(op.id, op.owner, op.capability)]), Done)
  {
  }

  /** A grant issues exactly the operation's address, owner and capability with the asked kind. A
      retry returns the record, any other grant at an issued address conflicts, and so does one
      where an object was applied or planted, even its own. */
  lemma GrantIssues(l: Ledger, op: UniverseOp, kind: GrantKind)
    requires Admissible(l, op)
    ensures var h, entry := op.Address(), LedgerEntry(op.Address(), op.owner, op.capability, kind);
            Step(l, Grant(op, kind))
            == if h in l.grants then
                 (l, if l.grants[h] == entry then Issued(entry) else Refused(IdentityConflict(h)))
               else if h in l.state then
                 (l, Refused(IdentityConflict(h)))
               else if op.owner in l.doomed then
                 Unfinishing(l, op, l.doomed[op.owner])
               else
                 (l.(state := l.state[h := OsObject(op.id, op.owner, op.capability)], grants := l.grants[h := entry]),
                  Issued(entry))
  {
  }

  /** A valid plant records an object as it is, whatever its owner's faults. */
  lemma PlantRecords(l: Ledger, residue: OsObject)
    requires residue.capability.Valid()
    ensures var h := residue.Address();
            Step(l, Plant(residue))
            == if h in l.incomplete || (h in l.state && l.state[h] != residue) then
                 (l, Refused(IdentityConflict(h)))
               else
                 (l.(state := l.state[h := residue]), Done)
  {
    if residue.Address() in l.state && l.state[residue.Address()] == residue {
      assert l.state[residue.Address() := residue] == l.state;
    }
  }

  // ---------------------------------------------------------------- withdrawals

  /** The ledger holds exactly this holding, standing or unfinished. */
  predicate HoldsExactly(l: Ledger, op: UniverseOp) {
    var h := op.Address();
    || (h in l.state && l.state[h] == OsObject(op.id, op.owner, op.capability))
    || (h in l.incomplete && l.incomplete[h].operation == op)
  }

  /** A graceful drain of this owner's holding at this address cannot finish. */
  predicate CannotDrain(l: Ledger, h: Handle, owner: CellOwner, drain: DrainSpec) {
    drain.policy == Graceful && (h in l.stuck || owner in l.stalled)
  }

  /** Nothing left at the address, nor a stuck mark. */
  function Cleared(l: Ledger, h: Handle): Ledger {
    l.(state := l.state - {h}, incomplete := l.incomplete - {h}, grants := l.grants - {h}, stuck := l.stuck - {h})
  }

  /** Released, but not finished: the operation stays, with its record, under the armed text. */
  function FailedAt(l: Ledger, op: UniverseOp, text: string): Ledger {
    l.(state := l.state - {op.Address()}, failing := l.failing - {op.Address()},
       incomplete := l.incomplete[op.Address() := Unfinished(op, text)])
  }

  lemma RemovedIsTaken(l: Ledger, op: UniverseOp)
    requires Sound(l) && HoldsExactly(l, op)
    ensures Removed(l.state, op.Removal(), op.owner).0 == l.state - {op.Address()}
  {
    var h := op.Address();
    assert SoundRow(h, At(l, h));
    if h !in l.state { assert l.state - {h} == l.state; }
  }

  /** A removal is unknown exactly when the ledger does not hold that very holding, times out
      exactly when it is graceful and cannot drain, then fails exactly when a failure is armed,
      and otherwise clears the address. The first two change nothing. */
  lemma RemovalOutcome(l: Ledger, op: UniverseOp, drain: DrainSpec)
    requires Sound(l)
    ensures var h := op.Address();
            Step(l, ApplyRemoval(UniverseRemoval(op.id, op.capability), op.owner, drain))
            == if !HoldsExactly(l, op) then
                 (l, Refused(UnknownObject(h, op.capability.Key(), op.owner)))
               else if CannotDrain(l, h, op.owner, drain) then
                 (l, Refused(DrainTimedOut(h, drain.DeadlineMs())))
               else if h in l.failing then
                 (FailedAt(l, op, l.failing[h]), Refused(BackendError.IncompleteEffect(h, l.failing[h])))
               else
                 (Cleared(l, h), Done)
  {
    assert SoundRow(op.Address(), At(l, op.Address()));
    if HoldsExactly(l, op) { RemovedIsTaken(l, op); }
  }

  /** A revocation of a live handle has the same outcomes, never an unknown object, and on success
      returns the record and logs the handle. */
  lemma RevokeOutcome(l: Ledger, h: Handle, drain: DrainSpec)
    requires Sound(l)
    ensures Step(l, Revoke(h, drain))
            == if h !in l.grants then
                 (l, Refused(UnknownHandle(h)))
               else if CannotDrain(l, h, l.grants[h].owner, drain) then
                 (l, Refused(DrainTimedOut(h, drain.DeadlineMs())))
               else if h in l.failing then
                 (FailedAt(l, UniverseOp(h.id, l.grants[h].owner, l.grants[h].capability), l.failing[h]),
                  Refused(BackendError.IncompleteEffect(h, l.failing[h])))
               else
                 (Cleared(l, h).(revocations := l.revocations + [h]), Issued(l.grants[h]))
  {
    assert SoundRow(h, At(l, h));
    if h in l.grants {
      RemovalOutcome(l, UniverseOp(h.id, l.grants[h].owner, l.grants[h].capability), drain);
    }
  }

  // ---------------------------------------------------------------- how long things last

  /** The call released exactly this holding, whether or not it then finished. */
  predicate Releases(call: Call, answer: Answer, held: OsObject) {
    Withdraws(call, held.Operation()) && (Succeeded(answer) || (answer.Refused? && answer.error.IncompleteEffect?))
  }

  /** A standing object goes only when a withdrawal of exactly that holding releases it. */
  lemma StandingStep(l: Ledger, call: Call, held: OsObject)
    requires Sound(l) && held.Address() in l.state && l.state[held.Address()] == held
    ensures var (l', answer) := Step(l, call);
            (held.Address() in l'.state && l'.state[held.Address()] == held) <==> !Releases(call, answer, held)
  {
    var h := held.Address();
    assert SoundRow(h, At(l, h));
    if Target(call) != Some(h) {
      StepIsLocal(l, call, h);
      assert At(Step(l, call).0, h).standing == At(l, h).standing;
    } else {
      match call
      case Revoke(_, drain) => RevokeOutcome(l, h, drain);
      case ApplyRemoval(removal, owner, drain) =>
        RemovalOutcome(l, UniverseOp(removal.id, owner, removal.capability), drain);
      case _ =>
    }
  }

  /** So what was applied, planted or granted stands over every run that does not release it, and
      every account shows it. */
  lemma {:induction false} StandsUntilReleased(l: Ledger, calls: seq<Call>, held: OsObject)
    requires Sound(l) && held.Address() in l.state && l.state[held.Address()] == held
    requires forall i | 0 <= i < |calls| :: !Releases(calls[i], Run(l, calls).1[i], held)
    ensures var after := Run(l, calls).0;
            && held.Address() in after.state && after.state[held.Address()] == held
            && (after.observationFault.None? ==>
                  Step(after, Snapshot) == (after, Observed(CompleteAccount(after))))
    decreases |calls|
  {
    if calls == [] {
      SnapshotShowsLedger(l);
    } else {
      var (next, answer) := Step(l, calls[0]);
      assert calls == [calls[0]] + calls[1..];
      RunCons(l, calls[0], calls[1..], next, answer);
      assert Run(l, calls).1[0] == answer;
      StandingStep(l, calls[0], held);
      StepKeepsSound(l, calls[0]);
      forall i | 0 <= i < |calls[1..]| ensures Run(next, calls[1..]).1[i] == Run(l, calls).1[i + 1] {}
      StandsUntilReleased(next, calls[1..], held);
    }
  }

  /** An issued record is retired only by a successful withdrawal of exactly its holding. */
  lemma RecordStep(l: Ledger, call: Call, h: Handle)
    requires Sound(l) && h in l.grants
    ensures var (l', answer) := Step(l, call);
            && (h in l'.grants <==> !(Withdraws(call, UniverseOp(h.id, l.grants[h].owner, l.grants[h].capability)) && Succeeded(answer)))
            && (h in l'.grants ==> l'.grants[h] == l.grants[h])
  {
    assert SoundRow(h, At(l, h));
    if Target(call) != Some(h) {
      StepIsLocal(l, call, h);
      assert At(Step(l, call).0, h).issued == At(l, h).issued;
    } else {
      match call
      case Revoke(_, drain) => RevokeOutcome(l, h, drain);
      case ApplyRemoval(removal, owner, drain) =>
        RemovalOutcome(l, UniverseOp(removal.id, owner, removal.capability), drain);
      case _ =>
    }
  }

  // ---------------------------------------------------------------- armed faults

  /** The fault this arming call sets is in force. */
  predicate Armed(l: Ledger, fault: Call) {
    match fault
    case RefuseOwner(owner, text) => owner in l.refused && l.refused[owner] == text
    case DoomOwner(owner, text) => owner in l.doomed && l.doomed[owner] == text
    case StallOwner(owner) => owner in l.stalled
    case MarkStuck(h) => h in l.stuck
    case FailNextWithdrawal(h, text) => h in l.failing && l.failing[h] == text
    case FailNextObservation(text) => l.observationFault == Some(text)
    case _ => true
  }

  predicate WithdrawsAt(call: Call, h: Handle) {
    (call.Revoke? || call.ApplyRemoval?) && Target(call) == Some(h)
  }

  /** The call replaces the fault, or uses it up. */
  predicate Disarms(call: Call, answer: Answer, fault: Call) {
    match fault
    case RefuseOwner(owner, _) => call.RefuseOwner? && call.owner == owner
    case DoomOwner(owner, _) => call.DoomOwner? && call.owner == owner
    case StallOwner(_) => false
    case MarkStuck(h) => WithdrawsAt(call, h) && Succeeded(answer)
    case FailNextWithdrawal(h, _) =>
      || Arms(call, h)
      || (WithdrawsAt(call, h) && answer.Refused? && answer.error.IncompleteEffect?)
    case FailNextObservation(_) => call.Snapshot? || call.FailNextObservation?
    case _ => false
  }

  /** Arming puts the fault in force and touches no address. */
  lemma ArmingArms(l: Ledger, fault: Call, h: Handle)
    requires Target(fault).None? && !fault.Snapshot?
    ensures Armed(Step(l, fault).0, fault) && Step(l, fault).1 == Done
    ensures At(Step(l, fault).0, h) == At(l, h)
  {
  }

  lemma RemovalKeepsArmed(l: Ledger, op: UniverseOp, drain: DrainSpec, fault: Call)
    requires Sound(l) && Armed(l, fault)
    ensures var call := ApplyRemoval(op.Removal(), op.owner, drain);
            Armed(Step(l, call).0, fault) || Disarms(call, Step(l, call).1, fault)
  {
    RemovalOutcome(l, op, drain);
  }

  lemma RevokeKeepsArmed(l: Ledger, h: Handle, drain: DrainSpec, fault: Call)
    requires Sound(l) && Armed(l, fault)
    ensures var call := Revoke(h, drain); Armed(Step(l, call).0, fault) || Disarms(call, Step(l, call).1, fault)
  {
    assert SoundRow(h, At(l, h));
    RevokeOutcome(l, h, drain);
  }

  predicate SameFaults(l: Ledger, m: Ledger) {
    && l.refused == m.refused && l.doomed == m.doomed && l.stalled == m.stalled
    && l.stuck == m.stuck && l.failing == m.failing && l.observationFault == m.observationFault
  }

  lemma GrantKeepsFaults(l: Ledger, op: UniverseOp, kind: GrantKind)
    ensures SameFaults(l, GrantStep(l, op, kind).0)
  {
    var refusal, h := Admitted(l, op), op.Address();
    if refusal.Some? || h in l.grants || h in l.state {
      assert GrantStep(l, op, kind).0 == l;
    } else if op.owner in l.doomed {
      assert GrantStep(l, op, kind) == LeftUnfinished(l, op);
    }
  }

  lemma ApplyKeepsFaults(l: Ledger, op: UniverseOp)
    ensures SameFaults(l, ApplyStep(l, op).0)
  {
    RecordingKeepsFaults(l, op.Object());
  }

  lemma RecordingKeepsFaults(l: Ledger, held: OsObject)
    ensures SameFaults(l, Recorded(l, held).0)
  {
  }

  /** No other call disturbs a fault in force. */
  lemma ArmedStep(l: Ledger, call: Call, fault: Call)
    requires Sound(l) && Armed(l, fault) && !Disarms(call, Step(l, call).1, fault)
    ensures Armed(Step(l, call).0, fault)
  {
    match call
    case Revoke(h, drain) => RevokeKeepsArmed(l, h, drain, fault);
    case ApplyRemoval(removal, owner, drain) =>
      RemovalKeepsArmed(l, UniverseOp(removal.id, owner, removal.capability), drain, fault);
    case Grant(op, kind) => GrantKeepsFaults(l, op, kind);
    case Apply(op) => ApplyKeepsFaults(l, op);
    case _ =>
  }

  lemma {:induction false} ArmedRun(l: Ledger, calls: seq<Call>, fault: Call)
    requires Sound(l) && Armed(l, fault)
    requires forall i | 0 <= i < |calls| :: !Disarms(calls[i], Run(l, calls).1[i], fault)
    ensures Sound(Run(l, calls).0) && Armed(Run(l, calls).0, fault)
    decreases |calls|
  {
    if calls != [] {
      var (next, answer) := Step(l, calls[0]);
      assert calls == [calls[0]] + calls[1..];
      RunCons(l, calls[0], calls[1..], next, answer);
      assert Run(l, calls).1[0] == answer;
      ArmedStep(l, calls[0], fault);
      StepKeepsSound(l, calls[0]);
      forall i | 0 <= i < |calls[1..]| ensures Run(next, calls[1..]).1[i] == Run(l, calls).1[i + 1] {}
      ArmedRun(next, calls[1..], fault);
    }
  }

  /** The ledger after a fault was armed and any calls that neither replace it nor use it up. */
  ghost predicate AfterArming(l: Ledger, fault: Call, calls: seq<Call>, after: Ledger) {
    && Sound(l) && Target(fault).None? && !fault.Snapshot?
    && after == Run(Step(l, fault).0, calls).0
    && forall i | 0 <= i < |calls| :: !Disarms(calls[i], Run(Step(l, fault).0, calls).1[i], fault)
  }

  lemma StaysArmed(l: Ledger, fault: Call, calls: seq<Call>, after: Ledger)
    requires AfterArming(l, fault, calls, after)
    ensures Sound(after) && Armed(after, fault)
  {
    ArmingArms(l, fault, Handle(UniverseClass.Mount, 0));
    StepKeepsSound(l, fault);
    ArmedRun(Step(l, fault).0, calls, fault);
  }

  /** Whenever it was armed, a fault bites exactly where it was aimed: owner faults at that owner's
      creations, a stall or a stuck mark at graceful drains, the other two at the next release
      and the next observation. */
  lemma ArmedFaultBites(l: Ledger, fault: Call, calls: seq<Call>, after: Ledger, op: UniverseOp, kind: GrantKind, drain: DrainSpec)
    requires AfterArming(l, fault, calls, after)
    ensures match fault
            case RefuseOwner(owner, text) =>
              op.owner == owner && op.capability.Valid() && op.Address() !in after.incomplete ==>
                Step(after, Grant(op, kind)) == Step(after, Apply(op)) == (after, Refused(Fault(Injected(text))))
            case DoomOwner(owner, text) =>
              op.owner == owner && Admissible(after, op) && op.Address() !in after.state ==>
                Step(after, Grant(op, kind)) == Step(after, Apply(op)) == Unfinishing(after, op, text)
            case StallOwner(owner) =>
              op.owner == owner && HoldsExactly(after, op) && drain.policy == Graceful ==>
                Step(after, ApplyRemoval(op.Removal(), owner, drain))
                == (after, Refused(DrainTimedOut(op.Address(), drain.DeadlineMs())))
            case MarkStuck(h) =>
              op.Address() == h && HoldsExactly(after, op) && drain.policy == Graceful ==>
                Step(after, ApplyRemoval(op.Removal(), op.owner, drain))
                == (after, Refused(DrainTimedOut(h, drain.DeadlineMs())))
            case FailNextWithdrawal(h, text) =>
              op.Address() == h && HoldsExactly(after, op) && !CannotDrain(after, h, op.owner, drain) ==>
                Step(after, ApplyRemoval(op.Removal(), op.owner, drain))
                == (FailedAt(after, op, text), Refused(BackendError.IncompleteEffect(h, text)))
            case FailNextObservation(text) =>
              Step(after, Snapshot) == (after.(observationFault := None), Refused(Fault(Injected(text))))
            case _ => true
  {
    StaysArmed(l, fault, calls, after);
    match fault
    case RefuseOwner(owner, text) =>
      if op.owner == owner && op.capability.Valid() && op.Address() !in after.incomplete {
        RefusedOwnerIsRefused(after, op, kind);
      }
    case DoomOwner(owner, text) =>
      assert SoundRow(op.Address(), At(after, op.Address()));
      if op.owner == owner && Admissible(after, op) {
        ApplyRecords(after, op);
        GrantIssues(after, op, kind);
      }
    case StallOwner(owner) => RemovalOutcome(after, op, drain);
    case MarkStuck(h) => RemovalOutcome(after, op, drain);
    case FailNextWithdrawal(h, text) => RemovalOutcome(after, op, drain);
    case _ =>
  }
}
