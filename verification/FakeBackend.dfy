/** The in-memory enforcement backend: fields updated in place, tied to the ledger's steps. */
module FakeBackends {
  import opened Wrappers
  import opened Universe
  import opened OsStates
  import opened Snapshots
  import opened Ledgers

  function Entry(r: Result<LedgerEntry, BackendError>): Answer {
    if r.Ok? then Issued(r.value) else Refused(r.error)
  }

  function Outcome(r: Result<(), BackendError>): Answer {
    if r.Ok? then Done else Refused(r.error)
  }

  function Observation(r: Result<EnforcementSnapshot, BackendError>): Answer {
    if r.Ok? then Observed(r.value) else Refused(r.error)
  }

  class FakeBackend {
    const state: OsState
    var grants: map<Handle, LedgerEntry>
    var incomplete: map<Handle, Unfinished>
    var stuckHandles: set<Handle>
    var stalledOwners: set<CellOwner>
    var revocations: seq<Handle>
    var refusedOwners: map<CellOwner, string>
    var doomedOwners: map<CellOwner, string>
    var failingWithdrawals: map<Handle, string>
    var observationFault: Option<string>

    ghost function View(): Ledger
      reads this, state
    {
      Ledger(state.objects, grants, incomplete, stuckHandles, stalledOwners, revocations,
             refusedOwners, doomedOwners, failingWithdrawals, observationFault)
    }

    ghost predicate Valid()
      reads this, state
    {
      state.Valid()
    }

    /** The ledger's invariant, which every call keeps. */
    ghost predicate Holds()
      reads this, state
    {
      Sound(View())
    }

    constructor ()
      ensures Valid() && Holds() && fresh(state) && View() == EMPTY
    {
      state := new OsState();
      grants, incomplete := map[], map[];
      stuckHandles, stalledOwners, revocations := {}, {}, [];
      refusedOwners, doomedOwners, failingWithdrawals := map[], map[], map[];
      observationFault := None;
    }

    function AdmittedHere(op: UniverseOp): Option<BackendError>
      reads this, state
      ensures AdmittedHere(op) == Ledgers.Admitted(View(), op)
    {
      if !op.capability.Valid() then
        Some(Invalid(op.Address(), op.capability))
      else if op.Address() in incomplete then
        if incomplete[op.Address()].operation == op then
          Some(incomplete[op.Address()].Error())
        else
          Some(IdentityConflict(op.Address()))
      else if op.owner in refusedOwners then
        Some(Fault(Injected(refusedOwners[op.owner])))
      else
        None
    }

    /** Scans the standing objects for the address. */
    predicate Occupied(h: Handle)
      requires state.Valid()
      reads this, state
      ensures Occupied(h) <==> h in state.objects
    {
      exists k | k in state.objects :: state.objects[k].Address() == h
    }

    method FailAfterTheFirstEffect(op: UniverseOp) returns (failure: Option<BackendError>)
      requires state.Valid()
      modifies this`incomplete
      ensures if op.owner in doomedOwners then
                failure.Some? && (View(), Refused(failure.value)) == LeftUnfinished(old(View()), op)
              else
                failure.None? && View() == old(View())
    {
      if op.owner !in doomedOwners {
        return None;
      }
      var unfinished := Unfinished(op, doomedOwners[op.owner]);
      incomplete := incomplete[op.Address() := unfinished];
      failure := Some(unfinished.Error());
    }

    method Grant(op: UniverseOp, kind: GrantKind) returns (r: Result<LedgerEntry, BackendError>)
      requires Valid()
      modifies this`grants, this`incomplete, state
      ensures Valid() && (View(), Entry(r)) == Step(old(View()), Call.Grant(op, kind))
      ensures old(Holds()) ==> Holds()
    {
      if Holds() { StepKeepsSound(View(), Call.Grant(op, kind)); }
      var refusal := AdmittedHere(op);
      if refusal.Some? {
        return Err(refusal.value);
      }
      var entry := LedgerEntry(op.Address(), op.owner, op.capability, kind);
      if entry.handle in grants {
        if grants[entry.handle] == entry {
          return Ok(entry);
        }
        return Err(IdentityConflict(entry.handle));
      }
      if Occupied(entry.handle) {
        return Err(IdentityConflict(entry.handle));
      }
      var failure := FailAfterTheFirstEffect(op);
      if failure.Some? {
        return Err(failure.value);
      }
      var inserted := state.Insert(op.Object());
      grants := grants[entry.handle := entry];
      r := Ok(entry);
    }

    method Revoke(h: Handle, drain: DrainSpec) returns (r: Result<LedgerEntry, BackendError>)
      requires Valid()
      modifies this`grants, this`incomplete, this`stuckHandles, this`failingWithdrawals, this`revocations, state
      ensures Valid() && (View(), Entry(r)) == Step(old(View()), Call.Revoke(h, drain))
      ensures old(Holds()) ==> Holds()
    {
      if Holds() { StepKeepsSound(View(), Call.Revoke(h, drain)); }
      if h !in grants {
        return Err(UnknownHandle(h));
      }
      var entry := grants[h];
      var removed := ApplyRemoval(entry.Removal(), entry.owner, drain);
      if removed.Err? {
        return Err(removed.error);
      }
      revocations := revocations + [h];
      r := Ok(entry);
    }

    method SnapshotOsState() returns (r: Result<EnforcementSnapshot, BackendError>)
      requires Valid()
      modifies this`observationFault
      ensures Valid() && (View(), Observation(r)) == Step(old(View()), Snapshot)
      ensures old(Holds()) ==> Holds()
    {
      if Holds() { StepKeepsSound(View(), Snapshot); }
      if observationFault.Some? {
        r := Err(Fault(Injected(observationFault.value)));
        observationFault := None;
        return;
      }
      r := New(state.objects, Values(grants), Effects(incomplete));
    }

    method Apply(op: UniverseOp) returns (r: Result<(), BackendError>)
      requires Valid()
      modifies this`incomplete, state
      ensures Valid() && (View(), Outcome(r)) == Step(old(View()), Call.Apply(op))
      ensures old(Holds()) ==> Holds()
    {
      if Holds() { StepKeepsSound(View(), Call.Apply(op)); }
      var refusal := AdmittedHere(op);
      if refusal.Some? {
        return Err(refusal.value);
      }
      if !Occupied(op.Address()) {
        var failure := FailAfterTheFirstEffect(op);
        if failure.Some? {
          return Err(failure.value);
        }
      }
      var inserted := state.Insert(op.Object());
      r := if inserted.Ok? then Ok(()) else Err(inserted.error);
    }

    method Withdraw(removal: UniverseRemoval, owner: CellOwner) returns (r: Result<(), BackendError>)
      requires Valid()
      modifies this`grants, this`incomplete, this`stuckHandles, this`failingWithdrawals, state
      ensures Valid() && (View(), Outcome(r)) == Withdrawn(old(View()), removal, owner)
    {
      var h := removal.Address();
      var taken := state.Remove(removal, owner);
      if h in failingWithdrawals {
        var selected := OsObject(removal.id, owner, removal.capability);
        var failed := Unfinished(selected.Operation(), failingWithdrawals[h]);
        failingWithdrawals := failingWithdrawals - {h};
        incomplete := incomplete[h := failed];
        return Err(failed.Error());
      }
      incomplete := incomplete - {h};
      grants := grants - {h};
      stuckHandles := stuckHandles - {h};
      r := Ok(());
    }

    method ApplyRemoval(removal: UniverseRemoval, owner: CellOwner, drain: DrainSpec)
      returns (r: Result<(), BackendError>)
      requires Valid()
      modifies this`grants, this`incomplete, this`stuckHandles, this`failingWithdrawals, state
      ensures Valid() && (View(), Outcome(r)) == Step(old(View()), Call.ApplyRemoval(removal, owner, drain))
      ensures old(Holds()) ==> Holds()
    {
      if Holds() { StepKeepsSound(View(), Call.ApplyRemoval(removal, owner, drain)); }
      var h := removal.Address();
      var selected := OsObject(removal.id, owner, removal.capability);
      var unfinished := h in incomplete && incomplete[h].operation.Object() == selected;
      if !unfinished && !Selects(state.objects, removal, owner) {
        return Err(UnknownObject(h, removal.capability.Key(), owner));
      }
      var stalled := h in stuckHandles || owner in stalledOwners;
      if drain.policy == Graceful && stalled {
        return Err(DrainTimedOut(h, drain.DeadlineMs()));
      }
      r := Withdraw(removal, owner);
    }

    method Plant(residue: OsObject) returns (r: Result<(), BackendError>)
      requires Valid()
      modifies state
      ensures Valid() && (View(), Outcome(r)) == Step(old(View()), Call.Plant(residue))
      ensures old(Holds()) ==> Holds()
    {
      if Holds() { StepKeepsSound(View(), Call.Plant(residue)); }
      if !residue.capability.Valid() {
        return Err(Invalid(residue.Address(), residue.capability));
      }
      if residue.Address() in incomplete {
        return Err(IdentityConflict(residue.Address()));
      }
      var inserted := state.Insert(residue);
      r := if inserted.Ok? then Ok(()) else Err(inserted.error);
    }

    // Injected faults: each method only arms one table.

    method FailBeforeEffectForOwner(owner: CellOwner, cause: string)
      requires Valid()
      modifies this`refusedOwners
      ensures Valid() && (View(), Done) == Step(old(View()), RefuseOwner(owner, cause))
      ensures old(Holds()) ==> Holds()
    {
      if Holds() { StepKeepsSound(View(), RefuseOwner(owner, cause)); }
      refusedOwners := refusedOwners[owner := cause];
    }

    method FailAfterEffectForOwner(owner: CellOwner, detail: string)
      requires Valid()
      modifies this`doomedOwners
      ensures Valid() && (View(), Done) == Step(old(View()), DoomOwner(owner, detail))
      ensures old(Holds()) ==> Holds()
    {
      if Holds() { StepKeepsSound(View(), DoomOwner(owner, detail)); }
      doomedOwners := doomedOwners[owner := detail];
    }

    method FailNextWithdrawalAt(h: Handle, detail: string)
      requires Valid()
      modifies this`failingWithdrawals
      ensures Valid() && (View(), Done) == Step(old(View()), FailNextWithdrawal(h, detail))
      ensures old(Holds()) ==> Holds()
    {
      if Holds() { StepKeepsSound(View(), FailNextWithdrawal(h, detail)); }
      failingWithdrawals := failingWithdrawals[h := detail];
    }

    method MarkStuckAt(h: Handle)
      requires Valid()
      modifies this`stuckHandles
      ensures Valid() && (View(), Done) == Step(old(View()), MarkStuck(h))
      ensures old(Holds()) ==> Holds()
    {
      if Holds() { StepKeepsSound(View(), MarkStuck(h)); }
      stuckHandles := stuckHandles + {h};
    }

    method StallGracefulDrainsForOwner(owner: CellOwner)
      requires Valid()
      modifies this`stalledOwners
      ensures Valid() && (View(), Done) == Step(old(View()), StallOwner(owner))
      ensures old(Holds()) ==> Holds()
    {
      if Holds() { StepKeepsSound(View(), StallOwner(owner)); }
      stalledOwners := stalledOwners + {owner};
    }

    method FailNextObservationWith(cause: string)
      requires Valid()
      modifies this`observationFault
      ensures Valid() && (View(), Done) == Step(old(View()), FailNextObservation(cause))
      ensures old(Holds()) ==> Holds()
    {
      if Holds() { StepKeepsSound(View(), FailNextObservation(cause)); }
      observationFault := Some(cause);
    }
  }
}
