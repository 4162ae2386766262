/** The vocabulary of the enforcement ledger: addresses, capabilities, operations, objects. */
module Universe {
  import opened Wrappers
  import Maps
  import Sorting

  datatype UniverseClass = SessionFile | UdsPath | ProxyMap | BrokerPid | Mount {
    /** The derived order of the source: declaration order. */
    function Rank(): nat {
      match this
      case SessionFile => 0
      case UdsPath => 1
      case ProxyMap => 2
      case BrokerPid => 3
      case Mount => 4
    }
  }

  /** A grant identity: the 128-bit number of its UUID, whose order is the source's order. */
  type GrantId = nat

  datatype Handle = Handle(cls: UniverseClass, id: GrantId)

  predicate Before(a: Handle, b: Handle) {
    a.cls.Rank() < b.cls.Rank() || (a.cls == b.cls && a.id < b.id)
  }

  datatype CellOwner = CellOwner(cell: string, plugin: string)

  datatype GrantKind = Hot | GenerationBound

  /** The complete recipe or launch of a capability; only its identity matters here. */
  datatype Recipe = Recipe(fields: seq<string>)

  datatype RecipeError = RecipeError(rule: string)

  datatype Capability =
    | SessionFile(path: string, recipe: Recipe)
    | UdsSocket(path: string, recipe: Recipe)
    | ProxyMap(host: string, route: string, recipe: Recipe)
    | Broker(name: string, launch: Recipe)
    | Mount(source: string, target: string, recipe: Recipe)
  {
    function Class(): UniverseClass {
      match this
      case SessionFile(_, _) => UniverseClass.SessionFile
      case UdsSocket(_, _) => UniverseClass.UdsPath
      case ProxyMap(_, _, _) => UniverseClass.ProxyMap
      case Broker(_, _) => UniverseClass.BrokerPid
      case Mount(_, _, _) => UniverseClass.Mount
    }

    function Key(): string {
      match this
      case SessionFile(path, _) => "session/" + path
      case UdsSocket(path, _) => path
      case ProxyMap(host, _, _) => host
      case Broker(name, _) => "broker/" + name
      case Mount(_, target, _) => target
    }

    predicate Valid() {
      FirstBrokenRule(this).None?
    }
  }

  /** `Capability::validate`: an arbitrary rule book. Every result below holds for all of them. */
  const FirstBrokenRule: Capability -> Option<RecipeError>

  datatype OsObject = OsObject(id: GrantId, owner: CellOwner, capability: Capability) {
    function Class(): UniverseClass {
      capability.Class()
    }

    function Address(): Handle {
      Handle(Class(), id)
    }

    function Operation(): UniverseOp {
      UniverseOp(id, owner, capability)
    }
  }

  datatype UniverseRemoval = UniverseRemoval(id: GrantId, capability: Capability) {
    function Address(): Handle {
      Handle(capability.Class(), id)
    }
  }

  /** One recorded operation. The source spells the five classes as five variants that carry the
      capability's fields inline; this record keeps the same information. */
  datatype UniverseOp = UniverseOp(id: GrantId, owner: CellOwner, capability: Capability) {
    function Address(): Handle {
      Handle(capability.Class(), id)
    }

    function Object(): OsObject {
      OsObject(id, owner, capability)
    }

    function Removal(): UniverseRemoval {
      UniverseRemoval(id, capability)
    }
  }

  datatype LedgerEntry = LedgerEntry(handle: Handle, owner: CellOwner, capability: Capability, kind: GrantKind) {
    function Object(): OsObject {
      OsObject(handle.id, owner, capability)
    }

    function Removal(): UniverseRemoval {
      UniverseRemoval(handle.id, capability)
    }
  }

  datatype RevokePolicy = Graceful | Force

  /** A drain: its deadline in whole nanoseconds, and its policy. */
  datatype DrainSpec = DrainSpec(deadlineNs: nat, policy: RevokePolicy) {
    /** Rounded up, so only a zero deadline reports 0; saturates at the source's `u64::MAX`. */
    function DeadlineMs(): (ms: nat)
      ensures ms == 0 <==> deadlineNs == 0
      ensures deadlineNs <= 0xFFFF_FFFF_FFFF_FFFF * 1_000_000 ==> (ms - 1) * 1_000_000 < deadlineNs <= ms * 1_000_000
      ensures deadlineNs > 0xFFFF_FFFF_FFFF_FFFF * 1_000_000 ==> ms == 0xFFFF_FFFF_FFFF_FFFF
    {
      var up := (deadlineNs + 999_999) / 1_000_000;
      if up <= 0xFFFF_FFFF_FFFF_FFFF then up else 0xFFFF_FFFF_FFFF_FFFF
    }
  }

  datatype Leaf = Network | Filesystem | BrokerLeaf

  /** What a fault says, by kind and address; the message wording is not modelled. */
  datatype FaultCause =
    | Injected(cause: string)
    | ClassMismatch(record: Handle)
    | NoHolding(record: Handle)
    | OutOfClass(leaf: Leaf, row: Handle)

  datatype BackendError =
    | UnknownHandle(handle: Handle)
    | DrainTimedOut(handle: Handle, deadlineMs: nat)
    | UnknownObject(address: Handle, key: string, owner: CellOwner)
    | IdentityConflict(address: Handle)
    | InvalidOperation(address: Handle, rule: RecipeError)
    | IncompleteEffect(address: Handle, detail: string)
    | Fault(reason: FaultCause)

  /** An operation, its object, its removal and its record all name one address, and an object
      gives its operation back. */
  lemma OneAddress(op: UniverseOp, kind: GrantKind)
    ensures var entry := LedgerEntry(op.Address(), op.owner, op.capability, kind);
            && op.Object().Address() == op.Removal().Address() == op.Address() == Handle(op.capability.Class(), op.id)
            && op.Object().Operation() == op
            && entry.Object() == op.Object() && entry.Removal() == op.Removal()
  {
  }

  /** A capability's class and diagnostic key, and the order of the classes. */
  lemma ClassesAndKeys(path: string, name: string, target: string, r: Recipe)
    ensures var session := Capability.SessionFile(path, r); session.Class() == UniverseClass.SessionFile && session.Key() == "session/" + path
    ensures var socket := UdsSocket(path, r); socket.Class() == UdsPath && socket.Key() == path
    ensures var proxy := Capability.ProxyMap(name, target, r); proxy.Class() == UniverseClass.ProxyMap && proxy.Key() == name
    ensures var broker := Broker(name, r); broker.Class() == BrokerPid && broker.Key() == "broker/" + name
    ensures var mount := Capability.Mount(path, target, r); mount.Class() == UniverseClass.Mount && mount.Key() == target
    ensures forall i: nat, j: nat ::
              && Before(Handle(UniverseClass.SessionFile, i), Handle(UdsPath, j))
              && Before(Handle(UdsPath, i), Handle(UniverseClass.ProxyMap, j))
              && Before(Handle(UniverseClass.ProxyMap, i), Handle(BrokerPid, j))
              && Before(Handle(BrokerPid, i), Handle(UniverseClass.Mount, j))
  {
  }

  // ---------------------------------------------------------------- addresses in order

  lemma BeforeIsStrict()
    ensures Sorting.StrictOrder(Before)
  {
  }

  lemma RankIsInjective(a: UniverseClass, b: UniverseClass)
    ensures a.Rank() == b.Rank() ==> a == b
  {
  }

  lemma BeforeIsTotal()
    ensures Sorting.TotalOrder(Before)
  {
    BeforeIsStrict();
    forall a: Handle, b: Handle ensures a == b || Before(a, b) || Before(b, a) { RankIsInjective(a.cls, b.cls); }
  }

  /** The iteration order of a map keyed by address. */
  function SortedKeys(keys: set<Handle>): (r: seq<Handle>)
    ensures forall k | k in r :: k in keys
  {
    BeforeIsTotal();
    Sorting.InOrder(Before, keys)
  }

  lemma SortedKeysSpec(keys: set<Handle>)
    ensures |SortedKeys(keys)| == |keys|
    ensures forall k | k in keys :: k in SortedKeys(keys)
    ensures Sorting.StrictlySorted(Before, SortedKeys(keys))
    ensures forall i, j | 0 <= i < j < |SortedKeys(keys)| :: SortedKeys(keys)[i] != SortedKeys(keys)[j]
  {
    BeforeIsTotal();
    Sorting.InOrderSpec(Before, keys);
  }

  /** The values of an ordered map, in key order. */
  function Values<V>(m: map<Handle, V>): (r: seq<V>) {
    var keys := SortedKeys(m.Keys);
    seq(|keys|, i requires 0 <= i < |keys| => m[keys[i]])
  }

  lemma ValuesCoverMap<V>(m: map<Handle, V>)
    ensures |Values(m)| == |m|
    ensures forall k | k in m :: m[k] in Values(m)
    ensures forall v | v in Values(m) :: exists k :: k in m && m[k] == v
  {
    var keys := SortedKeys(m.Keys);
    SortedKeysSpec(m.Keys);
    forall k | k in m ensures m[k] in Values(m) {
      var i :| 0 <= i < |keys| && keys[i] == k;
      assert Values(m)[i] == m[k];
    }
    forall v | v in Values(m) ensures exists k :: k in m && m[k] == v {
      var i :| 0 <= i < |keys| && Values(m)[i] == v;
      assert keys[i] in m;
    }
  }

  lemma ValuesHead<V>(m: map<Handle, V>, least: Handle)
    requires Sorting.IsLeast(Before, least, m.Keys)
    ensures multiset(Values(m)) == multiset{m[least]} + multiset(Values(m - {least}))
  {
    BeforeIsTotal();
    Sorting.LeastIsUnique(Before, m.Keys, least);
    assert m.Keys - {least} == (m - {least}).Keys;
    assert Values(m) == [m[least]] + Values(m - {least});
  }

  /** Taking one key out of an ordered map takes exactly its value out of the rows. */
  lemma {:induction false} ValuesWithout<V>(m: map<Handle, V>, k: Handle)
    requires k in m
    ensures multiset(Values(m)) == multiset{m[k]} + multiset(Values(m - {k}))
    decreases |m|
  {
    BeforeIsTotal();
    var least := Sorting.Least(Before, m.Keys);
    ValuesHead(m, least);
    if k != least {
      var less, rest := m - {k}, m - {least};
      assert Sorting.IsLeast(Before, least, less.Keys);
      ValuesHead(less, least);
      assert |rest| < |m| by { assert rest.Keys < m.Keys; }
      ValuesWithout(rest, k);
      Maps.RemoveCommutes(m, k, least);
      assert multiset{m[least]} + (multiset{m[k]} + multiset(Values(rest - {k})))
          == multiset{m[k]} + (multiset{m[least]} + multiset(Values(less - {least})));
    }
  }

  lemma ValuesOfNothing<V>(b: map<Handle, V>)
    ensures multiset(Values(map[] + b)) == multiset(Values<V>(map[])) + multiset(Values(b))
  {
    var none: map<Handle, V> := map[];
    assert none + b == b;
    assert Values(none) == [];
  }

  lemma UnionOneMoreRow<V>(a: map<Handle, V>, b: map<Handle, V>, k: Handle)
    requires k in a && k !in b
    requires multiset(Values((a - {k}) + b)) == multiset(Values(a - {k})) + multiset(Values(b))
    ensures multiset(Values(a + b)) == multiset(Values(a)) + multiset(Values(b))
  {
    var less, both := a - {k}, a + b;
    Maps.UnionOneLess(a, b, k);
    ValuesWithout(both, k);
    ValuesWithout(a, k);
    assert both[k] == a[k];
  }

  /** The rows of a disjoint union are the rows of its two parts. */
  lemma {:induction false} ValuesOfUnion<V>(a: map<Handle, V>, b: map<Handle, V>)
    requires a.Keys !! b.Keys
    ensures multiset(Values(a + b)) == multiset(Values(a)) + multiset(Values(b))
    decreases a.Keys
  {
    if a.Keys == {} {
      assert a == map[];
      ValuesOfNothing(b);
    } else {
      var k :| k in a.Keys;
      ValuesOfUnion(a - {k}, b);
      UnionOneMoreRow(a, b, k);
    }
  }
}
