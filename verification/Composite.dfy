/** Three class-routed leaves behind one backend, and their equivalence with a single ledger. */
module Composites {
  import opened Wrappers
  import opened Universe
  import opened OsStates
  import opened Snapshots
  import opened Ledgers
  import opened LedgerTheorems

  function LeafFor(cls: UniverseClass): Leaf {
    match cls
    case ProxyMap => Network
    case UdsPath => Network
    case SessionFile => Filesystem
    case Mount => Filesystem
    case BrokerPid => BrokerLeaf
  }

  predicate BelongsTo(leaf: Leaf, cls: UniverseClass) {
    match leaf
    case Network => cls == UniverseClass.ProxyMap || cls == UniverseClass.UdsPath
    case Filesystem => cls == UniverseClass.SessionFile || cls == UniverseClass.Mount
    case BrokerLeaf => cls == UniverseClass.BrokerPid
  }

  /** Every class has exactly one leaf. */
  lemma LeavesPartitionClasses(leaf: Leaf, cls: UniverseClass)
    ensures BelongsTo(leaf, cls) <==> leaf == LeafFor(cls)
  {
  }

  // ---------------------------------------------------------------- the composite's steps

  datatype Leaves = Leaves(network: Ledger, filesystem: Ledger, broker: Ledger) {
    function At(leaf: Leaf): Ledger {
      match leaf
      case Network => network
      case Filesystem => filesystem
      case BrokerLeaf => broker
    }

    function With(leaf: Leaf, l: Ledger): Leaves {
      match leaf
      case Network => this.(network := l)
      case Filesystem => this.(filesystem := l)
      case BrokerLeaf => this.(broker := l)
    }
  }

  const ORDER: seq<Leaf> := [Network, Filesystem, BrokerLeaf]

  /** What the observation has gathered so far. */
  datatype Gathered = Gathered(state: Objects, grants: seq<LedgerEntry>, incomplete: seq<IncompleteEffect>)

  const NOTHING := Gathered(map[], [], [])

  /** The first out-of-class row: among records, then standing objects, then effects. */
  ghost function Foreign(leaf: Leaf, s: EnforcementSnapshot): Option<Handle> {
    var g := First(s.grants, (g: LedgerEntry) => !BelongsTo(leaf, g.handle.cls));
    var o := First(Values(s.state), (o: OsObject) => !BelongsTo(leaf, o.Class()));
    var e := First(s.incomplete, (e: IncompleteEffect) => !BelongsTo(leaf, e.Address().cls));
    if g.Some? then Some(g.value.handle)
    else if o.Some? then Some(o.value.Address())
    else if e.Some? then Some(e.value.Address())
    else None
  }

  /** Joins a leaf's objects into the state; an address already taken is a conflict. */
  function Joined(objects: Objects, rows: seq<OsObject>): Result<Objects, BackendError>
    decreases |rows|
  {
    if rows == [] then
      Ok(objects)
    else
      var (more, r) := Inserted(objects, rows[0]);
      if r == Ok(true) then Joined(more, rows[1..]) else Err(IdentityConflict(rows[0].Address()))
  }

  ghost function Gather(leaf: Leaf, answer: Answer, so: Gathered): Result<Gathered, BackendError> {
    match answer
    case Observed(s) =>
      var foreign := Foreign(leaf, s);
      var joined := Joined(so.state, Values(s.state));
      if foreign.Some? then Err(Fault(OutOfClass(leaf, foreign.value)))
      else if joined.Err? then Err(joined.error)
      else Ok(Gathered(joined.value, so.grants + s.grants, so.incomplete + s.incomplete))
    case Refused(error) => Err(error)
    case _ => Ok(so)
  }

  ghost function ObserveFrom(leaves: seq<Leaf>, c: Leaves, so: Gathered): (Leaves, Answer)
    decreases |leaves|
  {
    if leaves == [] then
      var account := Account(so.state, so.grants, so.incomplete);
      (c, if account.Ok? then Observed(account.value) else Refused(account.error))
    else
      var (l, answer) := SnapshotStep(c.At(leaves[0]));
      var more := Gather(leaves[0], answer, so);
      var next := c.With(leaves[0], l);
      if more.Err? then (next, Refused(more.error)) else ObserveFrom(leaves[1..], next, more.value)
  }

  lemma ObserveFromStep(leaves: seq<Leaf>, c: Leaves, so: Gathered, next: Leaves, more: Result<Gathered, BackendError>)
    requires leaves != []
    requires Routed(c, leaves[0], Snapshot).0 == next && more == Gather(leaves[0], Routed(c, leaves[0], Snapshot).1, so)
    ensures ObserveFrom(leaves, c, so)
            == if more.Err? then (next, Refused(more.error)) else ObserveFrom(leaves[1..], next, more.value)
  {
  }

  ghost function Routed(c: Leaves, leaf: Leaf, call: Call): (Leaves, Answer) {
    var (l, answer) := Step(c.At(leaf), call);
    (c.With(leaf, l), answer)
  }

  /** A call on the composite. Owner faults are armed in every leaf, an address's fault in the
      leaf of its class, and an observation fault in the first leaf to be observed. */
  ghost function CompositeStep(c: Leaves, call: Call): (Leaves, Answer) {
    match call
    case Grant(op, _) => Routed(c, LeafFor(op.capability.Class()), call)
    case Revoke(h, _) => Routed(c, LeafFor(h.cls), call)
    case Apply(op) => Routed(c, LeafFor(op.capability.Class()), call)
    case ApplyRemoval(removal, _, _) => Routed(c, LeafFor(removal.capability.Class()), call)
    case Plant(residue) => Routed(c, LeafFor(residue.Class()), call)
    case FailNextWithdrawal(h, _) => Routed(c, LeafFor(h.cls), call)
    case MarkStuck(h) => Routed(c, LeafFor(h.cls), call)
    case FailNextObservation(_) => Routed(c, Network, call)
    case Snapshot => ObserveFrom(ORDER, c, NOTHING)
    case _ => (Leaves(Step(c.network, call).0, Step(c.filesystem, call).0, Step(c.broker, call).0), Done)
  }

  ghost function CompositeRun(c: Leaves, calls: seq<Call>): (Leaves, seq<Answer>)
    decreases |calls|
  {
    if calls == [] then
      (c, [])
    else
      var (next, answer) := CompositeStep(c, calls[0]);
      var (last, answers) := CompositeRun(next, calls[1..]);
      (last, [answer] + answers)
  }

  // ---------------------------------------------------------------- one ledger, split by class

  predicate Mine(leaf: Leaf, h: Handle) {
    BelongsTo(leaf, h.cls)
  }

  function Only<V>(leaf: Leaf, m: map<Handle, V>): map<Handle, V> {
    map h | h in m && Mine(leaf, h) :: m[h]
  }

  function OnlyMarks(leaf: Leaf, s: set<Handle>): set<Handle> {
    set h | h in s && Mine(leaf, h)
  }

  function OnlyLog(leaf: Leaf, log: seq<Handle>): seq<Handle> {
    if log == [] then
      []
    else
      OnlyLog(leaf, log[..|log| - 1]) + if Mine(leaf, log[|log| - 1]) then [log[|log| - 1]] else []
  }

  /** The part of a ledger that one leaf holds. */
  ghost function Part(l: Ledger, leaf: Leaf): Ledger {
    Ledger(Only(leaf, l.state), Only(leaf, l.grants), Only(leaf, l.incomplete),
           OnlyMarks(leaf, l.stuck), l.stalled, OnlyLog(leaf, l.revocations),
           l.refused, l.doomed, Only(leaf, l.failing),
           if leaf == Network then l.observationFault else None)
  }

  ghost function Split(l: Ledger): Leaves {
    Leaves(Part(l, Network), Part(l, Filesystem), Part(l, BrokerLeaf))
  }

  lemma OnlyPut<V>(leaf: Leaf, m: map<Handle, V>, h: Handle, v: V)
    ensures Only(leaf, m[h := v]) == if Mine(leaf, h) then Only(leaf, m)[h := v] else Only(leaf, m)
  {
  }

  lemma OnlyTake<V>(leaf: Leaf, m: map<Handle, V>, h: Handle)
    ensures Only(leaf, m - {h}) == Only(leaf, m) - {h}
    ensures !Mine(leaf, h) ==> Only(leaf, m - {h}) == Only(leaf, m)
  {
  }

  lemma OnlyMark(leaf: Leaf, s: set<Handle>, h: Handle)
    ensures OnlyMarks(leaf, s + {h}) == if Mine(leaf, h) then OnlyMarks(leaf, s) + {h} else OnlyMarks(leaf, s)
    ensures OnlyMarks(leaf, s - {h}) == OnlyMarks(leaf, s) - {h}
    ensures !Mine(leaf, h) ==> OnlyMarks(leaf, s - {h}) == OnlyMarks(leaf, s)
  {
  }

  lemma OnlyLogged(leaf: Leaf, log: seq<Handle>, h: Handle)
    ensures OnlyLog(leaf, log + [h]) == OnlyLog(leaf, log) + if Mine(leaf, h) then [h] else []
  {
    assert (log + [h])[..|log|] == log;
  }

  /** A part holds exactly what the whole holds at its own addresses, and nothing elsewhere. */
  lemma PartAt(l: Ledger, leaf: Leaf, h: Handle)
    ensures At(Part(l, leaf), h) == if Mine(leaf, h) then At(l, h) else Row(None, None, None)
  {
  }

  lemma PartIsSound(l: Ledger, leaf: Leaf)
    requires Sound(l)
    ensures Sound(Part(l, leaf))
  {
    forall h ensures SoundRow(h, At(Part(l, leaf), h)) {
      assert SoundRow(h, At(l, h));
      PartAt(l, leaf, h);
    }
  }

  // ---------------------------------------------------------------- every call commutes with the split

  /** `whole` is a step of `l`, and `part` the same step of one leaf's part of `l`. */
  ghost predicate Commutes(l: Ledger, leaf: Leaf, h: Handle, whole: (Ledger, Answer), part: (Ledger, Answer)) {
    if Mine(leaf, h) then
      part == (Part(whole.0, leaf), whole.1)
    else
      Part(whole.0, leaf) == Part(l, leaf)
  }

  lemma UnfinishedSplits(l: Ledger, leaf: Leaf, op: UniverseOp)
    requires op.owner in l.doomed
    ensures Commutes(l, leaf, op.Address(), LeftUnfinished(l, op), LeftUnfinished(Part(l, leaf), op))
  {
    OnlyPut(leaf, l.incomplete, op.Address(), Unfinished(op, l.doomed[op.owner]));
  }

  lemma GrantSplits(l: Ledger, leaf: Leaf, op: UniverseOp, kind: GrantKind)
    ensures Commutes(l, leaf, op.Address(), GrantStep(l, op, kind), GrantStep(Part(l, leaf), op, kind))
  {
    var h := op.Address();
    PartAt(l, leaf, h);
    if op.owner in l.doomed { UnfinishedSplits(l, leaf, op); }
    OnlyPut(leaf, l.state, h, op.Object());
    OnlyPut(leaf, l.grants, h, EntryOf(op, kind));
  }

  lemma RecordedSplits(l: Ledger, leaf: Leaf, held: OsObject)
    ensures Commutes(l, leaf, held.Address(), Recorded(l, held), Recorded(Part(l, leaf), held))
  {
    OnlyPut(leaf, l.state, held.Address(), held);
  }

  lemma ApplySplits(l: Ledger, leaf: Leaf, op: UniverseOp)
    ensures Commutes(l, leaf, op.Address(), ApplyStep(l, op), ApplyStep(Part(l, leaf), op))
  {
    PartAt(l, leaf, op.Address());
    if op.owner in l.doomed { UnfinishedSplits(l, leaf, op); }
    RecordedSplits(l, leaf, op.Object());
  }

  lemma PlantSplits(l: Ledger, leaf: Leaf, residue: OsObject)
    ensures Commutes(l, leaf, residue.Address(), PlantStep(l, residue), PlantStep(Part(l, leaf), residue))
  {
    RecordedSplits(l, leaf, residue);
  }

  lemma WithdrawnSplits(l: Ledger, leaf: Leaf, removal: UniverseRemoval, owner: CellOwner)
    ensures Commutes(l, leaf, removal.Address(), Withdrawn(l, removal, owner), Withdrawn(Part(l, leaf), removal, owner))
  {
    var h := removal.Address();
    var selected := OsObject(removal.id, owner, removal.capability);
    OnlyTake(leaf, l.state, h);
    if h in l.failing {
      OnlyTake(leaf, l.failing, h);
      OnlyPut(leaf, l.incomplete, h, Unfinished(selected.Operation(), l.failing[h]));
    } else {
      OnlyTake(leaf, l.incomplete, h);
      OnlyTake(leaf, l.grants, h);
      OnlyMark(leaf, l.stuck, h);
    }
  }

  lemma RemovalSplits(l: Ledger, leaf: Leaf, removal: UniverseRemoval, owner: CellOwner, drain: DrainSpec)
    ensures Commutes(l, leaf, removal.Address(), ApplyRemovalStep(l, removal, owner, drain),
                     ApplyRemovalStep(Part(l, leaf), removal, owner, drain))
  {
    WithdrawnSplits(l, leaf, removal, owner);
  }

  lemma RevokeSplits(l: Ledger, leaf: Leaf, h: Handle, drain: DrainSpec)
    requires Sound(l)
    ensures Commutes(l, leaf, h, RevokeStep(l, h, drain), RevokeStep(Part(l, leaf), h, drain))
  {
    PartAt(l, leaf, h);
    assert SoundRow(h, At(l, h));
    if h in l.grants {
      var entry := l.grants[h];
      RemovalSplits(l, leaf, entry.Removal(), entry.owner, drain);
      OnlyLogged(leaf, ApplyRemovalStep(l, entry.Removal(), entry.owner, drain).0.revocations, h);
    }
  }

  /** A call at an address steps the part that owns it and leaves the other parts alone. */
  lemma TargetedCallSplits(l: Ledger, leaf: Leaf, call: Call, h: Handle)
    requires Sound(l) && Target(call) == Some(h)
    ensures Commutes(l, leaf, h, Step(l, call), Step(Part(l, leaf), call))
  {
    match call
    case Grant(op, kind) => GrantSplits(l, leaf, op, kind);
    case Revoke(_, drain) => RevokeSplits(l, leaf, h, drain);
    case Apply(op) => ApplySplits(l, leaf, op);
    case ApplyRemoval(removal, owner, drain) => RemovalSplits(l, leaf, removal, owner, drain);
    case Plant(residue) => PlantSplits(l, leaf, residue);
  }

  lemma MarkSplits(l: Ledger, leaf: Leaf, call: Call)
    requires call.FailNextWithdrawal? || call.MarkStuck?
    ensures Commutes(l, leaf, call.handle, Step(l, call), Step(Part(l, leaf), call))
  {
    if call.FailNextWithdrawal? {
      OnlyPut(leaf, l.failing, call.handle, call.text);
    } else {
      OnlyMark(leaf, l.stuck, call.handle);
    }
  }

  lemma RoutedIsStep(l: Ledger, call: Call, h: Handle)
    requires forall leaf: Leaf :: Commutes(l, leaf, h, Step(l, call), Step(Part(l, leaf), call))
    ensures Routed(Split(l), LeafFor(h.cls), call) == (Split(Step(l, call).0), Step(l, call).1)
  {
    var whole := Step(l, call);
    forall leaf: Leaf ensures Commutes(l, leaf, h, whole, Step(Part(l, leaf), call)) {}
    LeavesPartitionClasses(Network, h.cls);
    LeavesPartitionClasses(Filesystem, h.cls);
    LeavesPartitionClasses(BrokerLeaf, h.cls);
    assert Commutes(l, Network, h, whole, Step(Part(l, Network), call));
    assert Commutes(l, Filesystem, h, whole, Step(Part(l, Filesystem), call));
    assert Commutes(l, BrokerLeaf, h, whole, Step(Part(l, BrokerLeaf), call));
  }

  // ---------------------------------------------------------------- the joined observation

  lemma OwnObjects(l: Ledger, leaf: Leaf, o: OsObject)
    requires Sound(l) && o in Values(Part(l, leaf).state)
    ensures BelongsTo(leaf, o.Class())
  {
    var part := Part(l, leaf);
    PartIsSound(l, leaf);
    ValuesCoverMap(part.state);
    var h :| h in part.state && part.state[h] == o;
    assert SoundRow(h, At(part, h));
  }

  lemma OwnRecordsAndEffects(l: Ledger, leaf: Leaf)
    requires Sound(l)
    ensures forall g | g in Values(Part(l, leaf).grants) :: BelongsTo(leaf, g.handle.cls)
    ensures forall e | e in Effects(Part(l, leaf).incomplete) :: BelongsTo(leaf, e.Address().cls)
  {
    PartIsSound(l, leaf);
    RecordsInOrder(Part(l, leaf));
    EffectsInOrder(Part(l, leaf));
  }

  lemma NoForeignRow(l: Ledger, leaf: Leaf)
    requires Sound(l)
    ensures Foreign(leaf, CompleteAccount(Part(l, leaf))).None?
  {
    OwnRecordsAndEffects(l, leaf);
    forall o | o in Values(Part(l, leaf).state) ensures BelongsTo(leaf, o.Class()) {
      OwnObjects(l, leaf, o);
    }
  }

  lemma {:induction false} JoinedIsPutAll(objects: Objects, rows: seq<OsObject>)
    requires PutAll(objects, rows).Some?
    ensures Joined(objects, rows) == Ok(PutAll(objects, rows).value)
    decreases |rows|
  {
    if rows != [] {
      JoinedIsPutAll(Inserted(objects, rows[0]).0, rows[1..]);
    }
  }

  lemma JoinedIsUnion(objects: Objects, more: Objects)
    requires WellKeyed(more) && objects.Keys !! more.Keys
    ensures Joined(objects, Values(more)) == Ok(objects + more)
  {
    RowsOf(more);
    PutAllPuts(objects, Values(more), objects + more);
    JoinedIsPutAll(objects, Values(more));
  }

  lemma SoundIsWellKeyed(l: Ledger)
    requires Sound(l)
    ensures WellKeyed(l.state)
  {
    forall h | h in l.state ensures l.state[h].Address() == h { assert SoundRow(h, At(l, h)); }
  }

  ghost function MoreGathered(so: Gathered, part: Ledger): Gathered {
    Gathered(so.state + part.state, so.grants + Values(part.grants), so.incomplete + Effects(part.incomplete))
  }

  lemma GatherLeaf(l: Ledger, leaf: Leaf, so: Gathered)
    requires Sound(l) && l.observationFault.None? && so.state.Keys !! Part(l, leaf).state.Keys
    ensures SnapshotStep(Part(l, leaf)).0 == Part(l, leaf)
    ensures Gather(leaf, SnapshotStep(Part(l, leaf)).1, so) == Ok(MoreGathered(so, Part(l, leaf)))
  {
    PartIsSound(l, leaf);
    SnapshotShowsLedger(Part(l, leaf));
    NoForeignRow(l, leaf);
    SoundIsWellKeyed(Part(l, leaf));
    JoinedIsUnion(so.state, Part(l, leaf).state);
  }

  ghost function GatheredAll(l: Ledger): Gathered {
    MoreGathered(MoreGathered(MoreGathered(NOTHING, Part(l, Network)), Part(l, Filesystem)), Part(l, BrokerLeaf))
  }

  lemma ObserveNext(l: Ledger, leaves: seq<Leaf>, so: Gathered)
    requires Sound(l) && l.observationFault.None? && leaves != []
    requires so.state.Keys !! Part(l, leaves[0]).state.Keys
    ensures ObserveFrom(leaves, Split(l), so) == ObserveFrom(leaves[1..], Split(l), MoreGathered(so, Part(l, leaves[0])))
  {
    GatherLeaf(l, leaves[0], so);
  }

  lemma PartsDisjoint(l: Ledger, a: Leaf, b: Leaf)
    requires a != b
    ensures Part(l, a).state.Keys !! Part(l, b).state.Keys
  {
    forall h | h in Part(l, a).state ensures h !in Part(l, b).state {
      LeavesPartitionClasses(a, h.cls);
      LeavesPartitionClasses(b, h.cls);
    }
  }

  lemma ObserveLastTwo(l: Ledger, so: Gathered)
    requires Sound(l) && l.observationFault.None? && so.state == Part(l, Network).state
    ensures ObserveFrom([Filesystem, BrokerLeaf], Split(l), so)
            == ObserveFrom([], Split(l), MoreGathered(MoreGathered(so, Part(l, Filesystem)), Part(l, BrokerLeaf)))
  {
    PartsDisjoint(l, Network, Filesystem);
    PartsDisjoint(l, Network, BrokerLeaf);
    PartsDisjoint(l, Filesystem, BrokerLeaf);
    ObserveNext(l, [Filesystem, BrokerLeaf], so);
    assert [Filesystem, BrokerLeaf][1..] == [BrokerLeaf];
    var second := MoreGathered(so, Part(l, Filesystem));
    assert second.state.Keys == Part(l, Network).state.Keys + Part(l, Filesystem).state.Keys;
    ObserveNext(l, [BrokerLeaf], second);
    assert [BrokerLeaf][1..] == [];
  }

  lemma ObserveGathersAll(l: Ledger)
    requires Sound(l) && l.observationFault.None?
    ensures ObserveFrom(ORDER, Split(l), NOTHING) == ObserveFrom([], Split(l), GatheredAll(l))
  {
    ObserveNext(l, ORDER, NOTHING);
    assert ORDER[1..] == [Filesystem, BrokerLeaf];
    assert map[] + Part(l, Network).state == Part(l, Network).state;
    ObserveLastTwo(l, MoreGathered(NOTHING, Part(l, Network)));
  }

  /** The three leaves' parts of a map make up the whole map, and its rows are their rows. */
  lemma PartsMakeWhole<V>(m: map<Handle, V>)
    ensures map[] + Only(Network, m) + Only(Filesystem, m) + Only(BrokerLeaf, m) == m
    ensures multiset([] + Values(Only(Network, m)) + Values(Only(Filesystem, m)) + Values(Only(BrokerLeaf, m)))
            == multiset(Values(m))
  {
    var n, f, b := Only(Network, m), Only(Filesystem, m), Only(BrokerLeaf, m);
    forall h: Handle ensures Mine(LeafFor(h.cls), h) { LeavesPartitionClasses(LeafFor(h.cls), h.cls); }
    assert map[] + n == n;
    assert n + f + b == m;
    ValuesOfUnion(n, f);
    ValuesOfUnion(n + f, b);
    assert [] + Values(n) == Values(n);
  }

  lemma EffectsOfPart(leaf: Leaf, incomplete: map<Handle, Unfinished>)
    ensures Effects(Only(leaf, incomplete)) == Values(Only(leaf, EffectsByAddress(incomplete)))
  {
    assert EffectsByAddress(Only(leaf, incomplete)) == Only(leaf, EffectsByAddress(incomplete));
  }

  lemma GatheredIsWhole(l: Ledger)
    ensures GatheredAll(l).state == l.state
    ensures multiset(GatheredAll(l).grants) == multiset(Values(l.grants))
    ensures multiset(GatheredAll(l).incomplete) == multiset(Effects(l.incomplete))
  {
    PartsMakeWhole(l.state);
    PartsMakeWhole(l.grants);
    PartsMakeWhole(EffectsByAddress(l.incomplete));
    EffectsOfPart(Network, l.incomplete);
    EffectsOfPart(Filesystem, l.incomplete);
    EffectsOfPart(BrokerLeaf, l.incomplete);
  }

  /** Observing the three leaves gives the account of the single ledger. */
  lemma ObservationSplits(l: Ledger)
    requires Sound(l)
    ensures ObserveFrom(ORDER, Split(l), NOTHING) == (Split(SnapshotStep(l).0), SnapshotStep(l).1)
  {
    if l.observationFault.None? {
      ObserveGathersAll(l);
      GatheredIsWhole(l);
      SnapshotShowsLedger(l);
      var all := GatheredAll(l);
      AccountIsNormalForm(l.state, Values(l.grants), all.grants, Effects(l.incomplete), all.incomplete);
    }
  }

  // ---------------------------------------------------------------- refinement

  lemma OwnerFaultSplits(l: Ledger, leaf: Leaf, call: Call)
    requires call.RefuseOwner? || call.DoomOwner? || call.StallOwner?
    ensures Step(Part(l, leaf), call).0 == Part(Step(l, call).0, leaf)
  {
  }

  /** One call on the composite of the parts is the same call on the whole. */
  lemma CompositeStepRefines(l: Ledger, call: Call)
    requires Sound(l)
    ensures CompositeStep(Split(l), call) == (Split(Step(l, call).0), Step(l, call).1)
  {
    if Target(call).Some? {
      var h := Target(call).value;
      forall leaf: Leaf ensures Commutes(l, leaf, h, Step(l, call), Step(Part(l, leaf), call)) {
        TargetedCallSplits(l, leaf, call, h);
      }
      RoutedIsStep(l, call, h);
    } else if call.FailNextWithdrawal? || call.MarkStuck? {
      forall leaf: Leaf ensures Commutes(l, leaf, call.handle, Step(l, call), Step(Part(l, leaf), call)) {
        MarkSplits(l, leaf, call);
      }
      RoutedIsStep(l, call, call.handle);
    } else if call.Snapshot? {
      ObservationSplits(l);
    } else if !call.FailNextObservation? {
      OwnerFaultSplits(l, Network, call);
      OwnerFaultSplits(l, Filesystem, call);
      OwnerFaultSplits(l, BrokerLeaf, call);
    }
  }

  /** Over every sequence of calls, the three leaves answer as one backend would. */
  lemma {:induction false} CompositeRefines(l: Ledger, calls: seq<Call>)
    requires Sound(l)
    ensures CompositeRun(Split(l), calls) == (Split(Run(l, calls).0), Run(l, calls).1)
    decreases |calls|
  {
    if calls != [] {
      CompositeStepRefines(l, calls[0]);
      StepKeepsSound(l, calls[0]);
      CompositeRefines(Step(l, calls[0]).0, calls[1..]);
    }
  }

  /** Three empty leaves are one empty backend, so they stay equal to it forever. */
  lemma CompositeIsOneBackend(calls: seq<Call>)
    ensures CompositeRun(Leaves(EMPTY, EMPTY, EMPTY), calls) == (Split(Run(EMPTY, calls).0), Run(EMPTY, calls).1)
  {
    assert Split(EMPTY) == Leaves(EMPTY, EMPTY, EMPTY);
    CompositeRefines(EMPTY, calls);
  }

  // ---------------------------------------------------------------- leaves that misreport

  /** Where each class is routed. */
  lemma RoutingTable()
    ensures LeafFor(UniverseClass.ProxyMap) == LeafFor(UdsPath) == Network
    ensures LeafFor(UniverseClass.SessionFile) == LeafFor(UniverseClass.Mount) == Filesystem
    ensures LeafFor(BrokerPid) == BrokerLeaf
  {
  }

  ghost predicate Elsewhere(leaf: Leaf, h: Handle) {
    LeafFor(h.cls) != leaf
  }

  /** Every row of the account is routed to the leaf. */
  ghost predicate AllItsOwn(leaf: Leaf, s: EnforcementSnapshot) {
    && (forall i | 0 <= i < |s.grants| :: LeafFor(s.grants[i].handle.cls) == leaf)
    && (forall h | h in s.state :: LeafFor(s.state[h].capability.Class()) == leaf)
    && (forall i | 0 <= i < |s.incomplete| :: LeafFor(s.incomplete[i].operation.capability.Class()) == leaf)
  }

  /** The first row that is not: among the records, then the objects by address, then the effects. */
  ghost predicate IsFirstForeign(leaf: Leaf, s: EnforcementSnapshot, h: Handle) {
    var records, effects := RecordHandles(s.grants), EffectHandles(s.incomplete);
    if exists r :: r in records && Elsewhere(leaf, r) then
      IsFirst(h, records, (r: Handle) => LeafFor(r.cls) != leaf)
    else if exists k :: k in s.state && LeafFor(s.state[k].capability.Class()) != leaf then
      exists o :: IsFirst(o, Values(s.state), (o: OsObject) => !BelongsTo(leaf, o.Class())) && o.Address() == h
    else
      IsFirst(h, effects, (e: Handle) => LeafFor(e.cls) != leaf)
  }

  lemma FirstForeignRecord(leaf: Leaf, s: EnforcementSnapshot)
    ensures var g := First(s.grants, (g: LedgerEntry) => !BelongsTo(leaf, g.handle.cls));
            var records := RecordHandles(s.grants);
            if g.Some? then
              (exists r :: r in records && Elsewhere(leaf, r))
              && IsFirst(g.value.handle, records, (r: Handle) => LeafFor(r.cls) != leaf)
            else
              && (forall r | r in records :: !Elsewhere(leaf, r))
              && (forall i | 0 <= i < |s.grants| :: LeafFor(s.grants[i].handle.cls) == leaf)
  {
    var bad := (g: LedgerEntry) => !BelongsTo(leaf, g.handle.cls);
    var g, records := First(s.grants, bad), RecordHandles(s.grants);
    FirstIsFirst(s.grants, bad);
    forall i | 0 <= i < |s.grants| ensures bad(s.grants[i]) <==> LeafFor(records[i].cls) != leaf {
      LeavesPartitionClasses(leaf, records[i].cls);
    }
    if g.Some? {
      var i :| 0 <= i < |s.grants| && s.grants[i] == g.value && bad(g.value) && forall k | 0 <= k < i :: !bad(s.grants[k]);
      assert records[i] == g.value.handle && records[i] in records && Elsewhere(leaf, records[i]);
    }
  }

  lemma FirstForeignEffect(leaf: Leaf, s: EnforcementSnapshot)
    ensures var e := First(s.incomplete, (e: IncompleteEffect) => !BelongsTo(leaf, e.Address().cls));
            if e.Some? then
              IsFirst(e.value.Address(), EffectHandles(s.incomplete), (h: Handle) => LeafFor(h.cls) != leaf)
              && !(forall i | 0 <= i < |s.incomplete| :: LeafFor(s.incomplete[i].operation.capability.Class()) == leaf)
            else
              forall i | 0 <= i < |s.incomplete| :: LeafFor(s.incomplete[i].operation.capability.Class()) == leaf
  {
    var bad := (e: IncompleteEffect) => !BelongsTo(leaf, e.Address().cls);
    var e, effects := First(s.incomplete, bad), EffectHandles(s.incomplete);
    FirstIsFirst(s.incomplete, bad);
    forall i | 0 <= i < |s.incomplete| ensures bad(s.incomplete[i]) <==> LeafFor(effects[i].cls) != leaf {
      LeavesPartitionClasses(leaf, effects[i].cls);
    }
    if e.Some? {
      var i :| 0 <= i < |effects| && s.incomplete[i] == e.value && bad(e.value) && forall k | 0 <= k < i :: !bad(s.incomplete[k]);
      assert effects[i] == e.value.Address();
    }
  }

  lemma FirstForeignObject(leaf: Leaf, s: EnforcementSnapshot)
    ensures First(Values(s.state), (o: OsObject) => !BelongsTo(leaf, o.Class())).None?
            <==> forall h | h in s.state :: LeafFor(s.state[h].capability.Class()) == leaf
  {
    var bad := (o: OsObject) => !BelongsTo(leaf, o.Class());
    ValuesCoverMap(s.state);
    forall o: OsObject ensures bad(o) <==> LeafFor(o.capability.Class()) != leaf {
      LeavesPartitionClasses(leaf, o.Class());
    }
    if First(Values(s.state), bad).None? {
      forall h | h in s.state ensures LeafFor(s.state[h].capability.Class()) == leaf { assert !bad(s.state[h]); }
    }
  }

  /** Whatever a leaf reports, the class check passes exactly when every row is its own, and
      otherwise names the first row that is not. */
  lemma ForeignIsFirst(leaf: Leaf, s: EnforcementSnapshot)
    ensures Foreign(leaf, s).None? <==> AllItsOwn(leaf, s)
    ensures Foreign(leaf, s).Some? ==> IsFirstForeign(leaf, s, Foreign(leaf, s).value)
  {
    var bad := (o: OsObject) => !BelongsTo(leaf, o.Class());
    FirstForeignRecord(leaf, s);
    FirstForeignObject(leaf, s);
    FirstForeignEffect(leaf, s);
    FirstIsFirst(Values(s.state), bad);
  }

  /** A join of a leaf's rows fails exactly when one of their addresses is taken already, and
      otherwise adds exactly those rows. */
  lemma JoinFailsOnTaken(objects: Objects, more: Objects)
    requires WellKeyed(more)
    ensures objects.Keys !! more.Keys ==> Joined(objects, Values(more)) == Ok(objects + more)
    ensures Joined(objects, Values(more)).Err? <==> !(objects.Keys !! more.Keys)
    ensures Joined(objects, Values(more)).Err? ==>
              var error := Joined(objects, Values(more)).error;
              error.IdentityConflict? && error.address in objects && error.address in more
  {
    if objects.Keys !! more.Keys {
      JoinedIsUnion(objects, more);
    } else {
      RowsOf(more);
      var h :| h in objects && h in more;
      JoinedStops(objects, Values(more), more[h]);
    }
  }

  lemma {:induction false} JoinedStops(objects: Objects, rows: seq<OsObject>, taken: OsObject)
    requires Distinct(rows) && taken in rows && taken.Address() in objects
    ensures var r := Joined(objects, rows);
            r.Err? && r.error.IdentityConflict? && r.error.address in objects
            && exists o :: o in rows && o.Address() == r.error.address
    decreases |rows|
  {
    var first := rows[0];
    assert rows == [first] + rows[1..];
    if first.Address() !in objects {
      DistinctRest(rows);
      var more := objects[first.Address() := first];
      JoinedStops(more, rows[1..], taken);
      var o :| o in rows[1..] && o.Address() == Joined(more, rows[1..]).error.address;
      assert o in rows && o.Address() != first.Address();
    } else {
      assert first in rows;
    }
  }

  /** One leaf's turn, whatever it answers: its refusal comes back, then an out-of-class row is a
      fault, then a taken address is a conflict, and otherwise exactly its rows are added. */
  lemma GatherOutcome(leaf: Leaf, s: EnforcementSnapshot, so: Gathered, error: BackendError)
    requires WellKeyed(s.state)
    ensures Gather(leaf, Refused(error), so) == Err(error)
    ensures var r := Gather(leaf, Observed(s), so);
            if !AllItsOwn(leaf, s) then
              exists h :: r == Err(Fault(OutOfClass(leaf, h))) && IsFirstForeign(leaf, s, h)
            else if so.state.Keys !! s.state.Keys then
              r == Ok(Gathered(so.state + s.state, so.grants + s.grants, so.incomplete + s.incomplete))
            else
              r.Err? && r.error.IdentityConflict? && r.error.address in so.state && r.error.address in s.state
  {
    ForeignIsFirst(leaf, s);
    JoinFailsOnTaken(so.state, s.state);
  }

  /** A leaf's own snapshot shows its classes' part of the whole account and nothing else. */
  lemma LeafShowsItsPart(l: Ledger, leaf: Leaf)
    requires Sound(l) && l.observationFault.None?
    ensures Routed(Split(l), leaf, Snapshot) == (Split(l), Observed(CompleteAccount(Part(l, leaf))))
    ensures forall h :: At(Part(l, leaf), h) == if LeafFor(h.cls) == leaf then At(l, h) else Row(None, None, None)
  {
    PartIsSound(l, leaf);
    SnapshotShowsLedger(Part(l, leaf));
    PartIsItsClasses(l, leaf);
  }

  lemma PartIsItsClasses(l: Ledger, leaf: Leaf)
    ensures forall h :: At(Part(l, leaf), h) == if LeafFor(h.cls) == leaf then At(l, h) else Row(None, None, None)
  {
    forall h ensures At(Part(l, leaf), h) == if LeafFor(h.cls) == leaf then At(l, h) else Row(None, None, None) {
      LeavesPartitionClasses(leaf, h.cls);
    }
  }
}
