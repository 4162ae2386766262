/** The enforcement ledger as a state machine: one step per call, and what every run keeps. */
module Ledgers {
  import opened Wrappers
  import opened Universe
  import opened OsStates
  import opened Snapshots

  datatype Unfinished = Unfinished(operation: UniverseOp, detail: string) {
    function Error(): BackendError {
      BackendError.IncompleteEffect(operation.Address(), detail)
    }
  }

  datatype Ledger = Ledger(
    state: Objects,
    grants: map<Handle, LedgerEntry>,
    incomplete: map<Handle, Unfinished>,
    stuck: set<Handle>,
    stalled: set<CellOwner>,
    revocations: seq<Handle>,
    refused: map<CellOwner, string>,
    doomed: map<CellOwner, string>,
    failing: map<Handle, string>,
    observationFault: Option<string>)

  const EMPTY := Ledger(map[], map[], map[], {}, {}, [], map[], map[], map[], None)

  datatype Call =
    | Grant(op: UniverseOp, kind: GrantKind)
    | Revoke(handle: Handle, drain: DrainSpec)
    | Apply(op: UniverseOp)
    | ApplyRemoval(removal: UniverseRemoval, owner: CellOwner, drain: DrainSpec)
    | Plant(residue: OsObject)
    | Snapshot
    | RefuseOwner(owner: CellOwner, text: string)
    | DoomOwner(owner: CellOwner, text: string)
    | StallOwner(owner: CellOwner)
    | FailNextWithdrawal(handle: Handle, text: string)
    | MarkStuck(handle: Handle)
    | FailNextObservation(text: string)

  datatype Answer =
    | Done
    | Issued(entry: LedgerEntry)
    | Observed(account: EnforcementSnapshot)
    | Refused(error: BackendError)

  // ---------------------------------------------------------------- steps

  function Admitted(l: Ledger, op: UniverseOp): Option<BackendError> {
    var address := op.Address();
    if !op.capability.Valid() then
      Some(Invalid(address, op.capability))
    else if address in l.incomplete then
      if l.incomplete[address].operation == op then
        Some(l.incomplete[address].Error())
      else
        Some(IdentityConflict(address))
    else if op.owner in l.refused then
      Some(Fault(Injected(l.refused[op.owner])))
    else
      None
  }

  function EntryOf(op: UniverseOp, kind: GrantKind): LedgerEntry {
    LedgerEntry(op.Address(), op.owner, op.capability, kind)
  }

  /** The operation's first effect happened and it did not finish. */
  function LeftUnfinished(l: Ledger, op: UniverseOp): (Ledger, Answer)
    requires op.owner in l.doomed
  {
    var unfinished := Unfinished(op, l.doomed[op.owner]);
    (l.(incomplete := l.incomplete[op.Address() := unfinished]), Refused(unfinished.Error()))
  }

  function GrantStep(l: Ledger, op: UniverseOp, kind: GrantKind): (Ledger, Answer) {
    var refusal, entry := Admitted(l, op), EntryOf(op, kind);
    var h := entry.handle;
    if refusal.Some? then
      (l, Refused(refusal.value))
    else if h in l.grants then
      if l.grants[h] == entry then (l, Issued(entry)) else (l, Refused(IdentityConflict(h)))
    else if h in l.state then
      (l, Refused(IdentityConflict(h)))
    else if op.owner in l.doomed then
      LeftUnfinished(l, op)
    else
      (l.(state := l.state[h := op.Object()], grants := l.grants[h := entry]), Issued(entry))
  }

  function Recorded(l: Ledger, held: OsObject): (Ledger, Answer) {
    var (objects, r) := Inserted(l.state, held);
    (l.(state := objects), if r.Ok? then Done else Refused(r.error))
  }

  function ApplyStep(l: Ledger, op: UniverseOp): (Ledger, Answer) {
    var refusal := Admitted(l, op);
    if refusal.Some? then
      (l, Refused(refusal.value))
    else if op.Address() !in l.state && op.owner in l.doomed then
      LeftUnfinished(l, op)
    else
      Recorded(l, op.Object())
  }

  function PlantStep(l: Ledger, residue: OsObject): (Ledger, Answer) {
    if !residue.capability.Valid() then
      (l, Refused(Invalid(residue.Address(), residue.capability)))
    else if residue.Address() in l.incomplete then
      (l, Refused(IdentityConflict(residue.Address())))
    else
      Recorded(l, residue)
  }

  /** Why a withdrawal is refused before it releases anything, if it is. */
  function HeldBack(l: Ledger, removal: UniverseRemoval, owner: CellOwner, drain: DrainSpec): Option<BackendError> {
    var h := removal.Address();
    var selected := OsObject(removal.id, owner, removal.capability);
    var unfinished := h in l.incomplete && l.incomplete[h].operation.Object() == selected;
    if !unfinished && !Selects(l.state, removal, owner) then
      Some(UnknownObject(h, removal.capability.Key(), owner))
    else if drain.policy == Graceful && (h in l.stuck || owner in l.stalled) then
      Some(DrainTimedOut(h, drain.DeadlineMs()))
    else
      None
  }

  function Withdrawn(l: Ledger, removal: UniverseRemoval, owner: CellOwner): (Ledger, Answer) {
    var h := removal.Address();
    var state := Removed(l.state, removal, owner).0;
    if h in l.failing then
      var failed := Unfinished(OsObject(removal.id, owner, removal.capability).Operation(), l.failing[h]);
      (l.(state := state, failing := l.failing - {h}, incomplete := l.incomplete[h := failed]),
       Refused(failed.Error()))
    else
      (l.(state := state, incomplete := l.incomplete - {h}, grants := l.grants - {h}, stuck := l.stuck - {h}), Done)
  }

  function ApplyRemovalStep(l: Ledger, removal: UniverseRemoval, owner: CellOwner, drain: DrainSpec): (Ledger, Answer) {
    var refusal := HeldBack(l, removal, owner, drain);
    if refusal.Some? then (l, Refused(refusal.value)) else Withdrawn(l, removal, owner)
  }

  function RevokeStep(l: Ledger, h: Handle, drain: DrainSpec): (Ledger, Answer) {
    if h !in l.grants then
      (l, Refused(UnknownHandle(h)))
    else
      var entry := l.grants[h];
      var (after, answer) := ApplyRemovalStep(l, entry.Removal(), entry.owner, drain);
      if answer == Done then
        (after.(revocations := after.revocations + [h]), Issued(entry))
      else
        (after, answer)
  }

  function EffectsByAddress(incomplete: map<Handle, Unfinished>): map<Handle, IncompleteEffect> {
    map h | h in incomplete :: Snapshots.IncompleteEffect.IncompleteEffect(incomplete[h].operation)
  }

  function Effects(incomplete: map<Handle, Unfinished>): seq<IncompleteEffect> {
    Values(EffectsByAddress(incomplete))
  }

  ghost function SnapshotStep(l: Ledger): (Ledger, Answer) {
    if l.observationFault.Some? then
      (l.(observationFault := None), Refused(Fault(Injected(l.observationFault.value))))
    else
      var account := Account(l.state, Values(l.grants), Effects(l.incomplete));
      (l, if account.Ok? then Observed(account.value) else Refused(account.error))
  }

  ghost function Step(l: Ledger, call: Call): (Ledger, Answer) {
    match call
    case Grant(op, kind) => GrantStep(l, op, kind)
    case Revoke(h, drain) => RevokeStep(l, h, drain)
    case Apply(op) => ApplyStep(l, op)
    case ApplyRemoval(removal, owner, drain) => ApplyRemovalStep(l, removal, owner, drain)
    case Plant(residue) => PlantStep(l, residue)
    case Snapshot => SnapshotStep(l)
    case RefuseOwner(owner, text) => (l.(refused := l.refused[owner := text]), Done)
    case DoomOwner(owner, text) => (l.(doomed := l.doomed[owner := text]), Done)
    case StallOwner(owner) => (l.(stalled := l.stalled + {owner}), Done)
    case FailNextWithdrawal(h, text) => (l.(failing := l.failing[h := text]), Done)
    case MarkStuck(h) => (l.(stuck := l.stuck + {h}), Done)
    case FailNextObservation(text) => (l.(observationFault := Some(text)), Done)
  }

  /** The ledger and the answers after a whole sequence of calls. */
  ghost function Run(l: Ledger, calls: seq<Call>): (r: (Ledger, seq<Answer>))
    ensures |r.1| == |calls|
    decreases |calls|
  {
    if calls == [] then
      (l, [])
    else
      var (next, answer) := Step(l, calls[0]);
      var (last, answers) := Run(next, calls[1..]);
      (last, [answer] + answers)
  }

  // ---------------------------------------------------------------- the ledger, address by address

  /** Everything the ledger holds at one address. */
  datatype Row = Row(standing: Option<OsObject>, issued: Option<LedgerEntry>, unfinished: Option<Unfinished>)

  function At(l: Ledger, h: Handle): Row {
    Row(if h in l.state then Some(l.state[h]) else None,
        if h in l.grants then Some(l.grants[h]) else None,
        if h in l.incomplete then Some(l.incomplete[h]) else None)
  }

  /** What an issued record, an unfinished effect and a standing object at one address agree on. */
  predicate SoundRow(h: Handle, row: Row) {
    && (row.standing.Some? ==> row.standing.value.Address() == h && row.standing.value.capability.Valid())
    && (row.unfinished.Some? ==>
          row.unfinished.value.operation.Address() == h && row.unfinished.value.operation.capability.Valid())
    && (row.standing.None? || row.unfinished.None?)
    && (row.issued.Some? ==>
          && row.issued.value.handle == h
          && row.issued.value.Object().Address() == h
          && (row.standing.Some? || row.unfinished.Some?)
          && (row.standing.Some? ==> row.standing.value == row.issued.value.Object())
          && (row.unfinished.Some? ==> row.unfinished.value.operation.Object() == row.issued.value.Object()))
  }

  ghost predicate Sound(l: Ledger) {
    forall h :: SoundRow(h, At(l, h))
  }

  /** The one address a call can change, if any. */
  function Target(call: Call): Option<Handle> {
    match call
    case Grant(op, _) => Some(op.Address())
    case Revoke(h, _) => Some(h)
    case Apply(op) => Some(op.Address())
    case ApplyRemoval(removal, _, _) => Some(removal.Address())
    case Plant(residue) => Some(residue.Address())
    case _ => None
  }

  lemma RemovalIsLocal(l: Ledger, removal: UniverseRemoval, owner: CellOwner, drain: DrainSpec, h: Handle)
    requires removal.Address() != h
    ensures At(ApplyRemovalStep(l, removal, owner, drain).0, h) == At(l, h)
  {
  }

  lemma GrantIsLocal(l: Ledger, op: UniverseOp, kind: GrantKind, h: Handle)
    requires op.Address() != h
    ensures At(GrantStep(l, op, kind).0, h) == At(l, h)
  {
  }

  lemma ApplyIsLocal(l: Ledger, op: UniverseOp, h: Handle)
    requires op.Address() != h
    ensures At(ApplyStep(l, op).0, h) == At(l, h)
  {
  }

  /** Every call leaves every other address exactly as it was. */
  lemma StepIsLocal(l: Ledger, call: Call, h: Handle)
    requires Sound(l) && Target(call) != Some(h)
    ensures At(Step(l, call).0, h) == At(l, h)
  {
    match call
    case Grant(op, kind) => GrantIsLocal(l, op, kind, h);
    case Apply(op) => ApplyIsLocal(l, op, h);
    case Revoke(k, drain) =>
      assert SoundRow(k, At(l, k));
      if k in l.grants { RemovalIsLocal(l, l.grants[k].Removal(), l.grants[k].owner, drain, h); }
    case ApplyRemoval(removal, owner, drain) => RemovalIsLocal(l, removal, owner, drain, h);
    case Plant(residue) =>
    case _ => assert At(Step(l, call).0, h) == At(l, h);
  }

  lemma RemovalAtTarget(l: Ledger, removal: UniverseRemoval, owner: CellOwner, drain: DrainSpec)
    requires SoundRow(removal.Address(), At(l, removal.Address()))
    ensures SoundRow(removal.Address(), At(ApplyRemovalStep(l, removal, owner, drain).0, removal.Address()))
  {
  }

  lemma GrantAtTarget(l: Ledger, op: UniverseOp, kind: GrantKind)
    requires SoundRow(op.Address(), At(l, op.Address()))
    ensures SoundRow(op.Address(), At(GrantStep(l, op, kind).0, op.Address()))
  {
  }

  lemma RecordedAtTarget(l: Ledger, held: OsObject)
    requires SoundRow(held.Address(), At(l, held.Address())) && held.Address() !in l.incomplete && held.capability.Valid()
    ensures SoundRow(held.Address(), At(Recorded(l, held).0, held.Address()))
  {
  }

  lemma ApplyAtTarget(l: Ledger, op: UniverseOp)
    requires SoundRow(op.Address(), At(l, op.Address()))
    ensures SoundRow(op.Address(), At(ApplyStep(l, op).0, op.Address()))
  {
    if Admitted(l, op).None? && (op.Address() in l.state || op.owner !in l.doomed) {
      RecordedAtTarget(l, op.Object());
    }
  }

  lemma RevokeAtTarget(l: Ledger, h: Handle, drain: DrainSpec)
    requires SoundRow(h, At(l, h))
    ensures SoundRow(h, At(RevokeStep(l, h, drain).0, h))
  {
    if h in l.grants {
      var entry := l.grants[h];
      RemovalAtTarget(l, entry.Removal(), entry.owner, drain);
    }
  }

  lemma StepAtTarget(l: Ledger, call: Call, h: Handle)
    requires Target(call) == Some(h) && SoundRow(h, At(l, h))
    ensures SoundRow(h, At(Step(l, call).0, h))
  {
    match call
    case Grant(op, kind) => GrantAtTarget(l, op, kind);
    case Revoke(_, drain) => RevokeAtTarget(l, h, drain);
    case Apply(op) => ApplyAtTarget(l, op);
    case ApplyRemoval(removal, owner, drain) => RemovalAtTarget(l, removal, owner, drain);
    case Plant(residue) =>
      if residue.capability.Valid() && h !in l.incomplete { RecordedAtTarget(l, residue); }
  }

  /** The ledger's invariant survives every call. */
  lemma StepKeepsSound(l: Ledger, call: Call)
    requires Sound(l)
    ensures Sound(Step(l, call).0)
  {
    forall h ensures SoundRow(h, At(Step(l, call).0, h)) {
      assert SoundRow(h, At(l, h));
      if Target(call) == Some(h) {
        StepAtTarget(l, call, h);
      } else {
        StepIsLocal(l, call, h);
      }
    }
  }

  lemma {:induction false} RunKeepsSound(l: Ledger, calls: seq<Call>)
    requires Sound(l)
    ensures Sound(Run(l, calls).0)
    decreases |calls|
  {
    if calls != [] {
      StepKeepsSound(l, calls[0]);
      RunKeepsSound(Step(l, calls[0]).0, calls[1..]);
    }
  }
}
