/** The routing backend over three leaves, tied call by call to the composite's steps. */
module CompositeBackends {
  import opened Wrappers
  import opened Universe
  import opened OsStates
  import opened Snapshots
  import opened Ledgers
  import opened FakeBackends
  import opened Composites

  method OnlyItsOwnClasses(leaf: Leaf, observed: EnforcementSnapshot) returns (foreign: Option<Handle>)
    ensures foreign == Foreign(leaf, observed)
  {
    var grants, objects, incomplete := observed.grants, Values(observed.state), observed.incomplete;
    ghost var otherRecord := (g: LedgerEntry) => !BelongsTo(leaf, g.handle.cls);
    for i := 0 to |grants|
      invariant First(grants[..i], otherRecord).None?
    {
      FirstStep(grants, otherRecord, i);
      if !BelongsTo(leaf, grants[i].handle.cls) {
        return Some(grants[i].handle);
      }
    }
    assert grants[..|grants|] == grants;
    ghost var otherObject := (o: OsObject) => !BelongsTo(leaf, o.Class());
    for i := 0 to |objects|
      invariant First(objects[..i], otherObject).None?
    {
      FirstStep(objects, otherObject, i);
      if !BelongsTo(leaf, objects[i].Class()) {
        return Some(objects[i].Address());
      }
    }
    assert objects[..|objects|] == objects;
    ghost var otherEffect := (e: IncompleteEffect) => !BelongsTo(leaf, e.Address().cls);
    for i := 0 to |incomplete|
      invariant First(incomplete[..i], otherEffect).None?
    {
      FirstStep(incomplete, otherEffect, i);
      if !BelongsTo(leaf, incomplete[i].Address().cls) {
        return Some(incomplete[i].Address());
      }
    }
    assert incomplete[..|incomplete|] == incomplete;
    foreign := None;
  }

  /** Inserts a leaf's objects one by one into the joined state. */
  method Join(state: OsState, rows: seq<OsObject>) returns (conflict: Option<BackendError>)
    requires state.Valid()
    modifies state
    ensures state.Valid()
    ensures Joined(old(state.objects), rows)
            == if conflict.Some? then Err(conflict.value) else Ok(state.objects)
  {
    for i := 0 to |rows|
      invariant state.Valid()
      invariant Joined(old(state.objects), rows) == Joined(state.objects, rows[i..])
    {
      assert rows[i..][1..] == rows[i + 1..];
      var inserted := state.Insert(rows[i]);
      if inserted.Err? {
        return Some(inserted.error);
      }
      if !inserted.value {
        return Some(IdentityConflict(rows[i].Address()));
      }
    }
    conflict := None;
  }

  class CompositeBackend {
    const network: FakeBackend
    const filesystem: FakeBackend
    const broker: FakeBackend

    ghost function View(): Leaves
      reads this, network, network.state, filesystem, filesystem.state, broker, broker.state
    {
      Leaves(network.View(), filesystem.View(), broker.View())
    }

    /** Three separate leaves, each with its own state. */
    ghost predicate Apart()
      reads this
    {
      && network != filesystem && network != broker && filesystem != broker
      && network.state != filesystem.state && network.state != broker.state && filesystem.state != broker.state
    }

    ghost predicate Valid()
      reads this, network, network.state, filesystem, filesystem.state, broker, broker.state
    {
      Apart() && network.Valid() && filesystem.Valid() && broker.Valid()
    }

    constructor (network: FakeBackend, filesystem: FakeBackend, broker: FakeBackend)
      ensures this.network == network && this.filesystem == filesystem && this.broker == broker
    {
      this.network, this.filesystem, this.broker := network, filesystem, broker;
    }

    function LeafBackend(leaf: Leaf): FakeBackend {
      match leaf
      case Network => network
      case Filesystem => filesystem
      case BrokerLeaf => broker
    }

    method LeafSnapshot(leaf: Leaf) returns (r: Result<EnforcementSnapshot, BackendError>)
      requires Valid()
      modifies network, filesystem, broker
      ensures Valid()
      ensures (View(), Observation(r)) == Routed(old(View()), leaf, Snapshot)
    {
      r := LeafBackend(leaf).SnapshotOsState();
    }

    /** One leaf's turn: its own snapshot, the class check, and the join into what is gathered. */
    method ObserveLeaf(leaf: Leaf, state: OsState, grants: seq<LedgerEntry>, incomplete: seq<IncompleteEffect>)
      returns (r: Result<Gathered, BackendError>)
      requires Valid() && state.Valid()
      requires state != network.state && state != filesystem.state && state != broker.state
      modifies network, filesystem, broker, state
      ensures Valid() && state.Valid()
      ensures var (next, answer) := Routed(old(View()), leaf, Snapshot);
              && View() == next
              && r == Gather(leaf, answer, Gathered(old(state.objects), grants, incomplete))
      ensures r.Ok? ==> r.value.state == state.objects
    {
      var observed := LeafSnapshot(leaf);
      if observed.Err? {
        return Err(observed.error);
      }
      var foreign := OnlyItsOwnClasses(leaf, observed.value);
      if foreign.Some? {
        return Err(Fault(OutOfClass(leaf, foreign.value)));
      }
      var conflict := Join(state, Values(observed.value.state));
      if conflict.Some? {
        return Err(conflict.value);
      }
      r := Ok(Gathered(state.objects, grants + observed.value.grants, incomplete + observed.value.incomplete));
    }

    method ObserveEveryLeaf() returns (r: Result<EnforcementSnapshot, BackendError>)
      requires Valid()
      modifies network, filesystem, broker
      ensures Valid()
      ensures (View(), Observation(r)) == ObserveFrom(ORDER, old(View()), NOTHING)
    {
      var state := new OsState();
      var so := NOTHING;
      for i := 0 to 3
        invariant Valid() && state.Valid() && fresh(state) && so.state == state.objects
        invariant ObserveFrom(ORDER, old(View()), NOTHING) == ObserveFrom(ORDER[i..], View(), so)
      {
        ghost var before := View();
        var more := ObserveLeaf(ORDER[i], state, so.grants, so.incomplete);
        assert ORDER[i..][0] == ORDER[i] && ORDER[i..][1..] == ORDER[i + 1..];
        ObserveFromStep(ORDER[i..], before, so, View(), more);
        if more.Err? {
          return Err(more.error);
        }
        so := more.value;
      }
      r := New(state.objects, so.grants, so.incomplete);
    }

    method Grant(op: UniverseOp, kind: GrantKind) returns (r: Result<LedgerEntry, BackendError>)
      requires Valid()
      modifies network, network.state, filesystem, filesystem.state, broker, broker.state
      ensures Valid()
      ensures (View(), Entry(r)) == CompositeStep(old(View()), Call.Grant(op, kind))
    {
      r := LeafBackend(LeafFor(op.capability.Class())).Grant(op, kind);
    }

    method Revoke(h: Handle, drain: DrainSpec) returns (r: Result<LedgerEntry, BackendError>)
      requires Valid()
      modifies network, network.state, filesystem, filesystem.state, broker, broker.state
      ensures Valid()
      ensures (View(), Entry(r)) == CompositeStep(old(View()), Call.Revoke(h, drain))
    {
      r := LeafBackend(LeafFor(h.cls)).Revoke(h, drain);
    }

    method SnapshotOsState() returns (r: Result<EnforcementSnapshot, BackendError>)
      requires Valid()
      modifies network, filesystem, broker
      ensures Valid()
      ensures (View(), Observation(r)) == CompositeStep(old(View()), Snapshot)
    {
      r := ObserveEveryLeaf();
    }

    method Apply(op: UniverseOp) returns (r: Result<(), BackendError>)
      requires Valid()
      modifies network, network.state, filesystem, filesystem.state, broker, broker.state
      ensures Valid()
      ensures (View(), Outcome(r)) == CompositeStep(old(View()), Call.Apply(op))
    {
      r := LeafBackend(LeafFor(op.capability.Class())).Apply(op);
    }

    method ApplyRemoval(removal: UniverseRemoval, owner: CellOwner, drain: DrainSpec)
      returns (r: Result<(), BackendError>)
      requires Valid()
      modifies network, network.state, filesystem, filesystem.state, broker, broker.state
      ensures Valid()
      ensures (View(), Outcome(r)) == CompositeStep(old(View()), Call.ApplyRemoval(removal, owner, drain))
    {
      r := LeafBackend(LeafFor(removal.capability.Class())).ApplyRemoval(removal, owner, drain);
    }

    method Plant(residue: OsObject) returns (r: Result<(), BackendError>)
      requires Valid()
      modifies network, network.state, filesystem, filesystem.state, broker, broker.state
      ensures Valid()
      ensures (View(), Outcome(r)) == CompositeStep(old(View()), Call.Plant(residue))
    {
      r := LeafBackend(LeafFor(residue.Class())).Plant(residue);
    }
  }

  /** `CompositeBackend::new`: builds the composite and observes every leaf once. */
  method NewComposite(network: FakeBackend, filesystem: FakeBackend, broker: FakeBackend)
    returns (r: Result<CompositeBackend, BackendError>)
    requires network.Valid() && filesystem.Valid() && broker.Valid()
    requires network != filesystem && network != broker && filesystem != broker
    requires network.state != filesystem.state && network.state != broker.state && filesystem.state != broker.state
    modifies network, filesystem, broker
    ensures var (after, answer) :=
              ObserveFrom(ORDER, old(Leaves(network.View(), filesystem.View(), broker.View())), NOTHING);
            && Leaves(network.View(), filesystem.View(), broker.View()) == after
            && (r.Ok? <==> answer.Observed?)
            && (r.Ok? ==> r.value.Valid() && r.value.View() == after)
            && (r.Err? ==> answer == Refused(r.error))
  {
    var composite := new CompositeBackend(network, filesystem, broker);
    var observed := composite.ObserveEveryLeaf();
    r := if observed.Ok? then Ok(composite) else Err(observed.error);
  }
}
