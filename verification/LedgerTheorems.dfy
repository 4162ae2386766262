/** What the ledger promises over whole runs. */
module LedgerTheorems {
  import opened Wrappers
  import opened Universe
  import opened OsStates
  import opened Snapshots
  import opened Ledgers
  import Maps
  import Sorting

  // ---------------------------------------------------------------- the snapshot is total

  lemma RecordsInOrder(l: Ledger)
    requires Sound(l)
    ensures RecordHandles(Values(l.grants)) == SortedKeys(l.grants.Keys)
    ensures forall g | g in Values(l.grants) :: g.handle in l.grants && l.grants[g.handle] == g
  {
    var keys := SortedKeys(l.grants.Keys);
    forall i | 0 <= i < |keys| ensures Values(l.grants)[i].handle == keys[i] {
      assert keys[i] in l.grants;
      assert SoundRow(keys[i], At(l, keys[i]));
    }
    forall g | g in Values(l.grants) ensures g.handle in l.grants && l.grants[g.handle] == g {
      var i :| 0 <= i < |keys| && Values(l.grants)[i] == g;
      assert keys[i] in l.grants;
    }
  }

  lemma EffectsInOrder(l: Ledger)
    requires Sound(l)
    ensures EffectHandles(Effects(l.incomplete)) == SortedKeys(l.incomplete.Keys)
    ensures forall e | e in Effects(l.incomplete) ::
              e.Address() in l.incomplete && l.incomplete[e.Address()].operation == e.operation
    ensures forall h | h in l.incomplete :: exists e | e in Effects(l.incomplete) :: e.Address() == h
  {
    var keys := SortedKeys(l.incomplete.Keys);
    var rows := Effects(l.incomplete);
    assert EffectsByAddress(l.incomplete).Keys == l.incomplete.Keys;
    forall i | 0 <= i < |keys|
      ensures rows[i].Address() == keys[i] && l.incomplete[keys[i]].operation == rows[i].operation
    {
      assert keys[i] in l.incomplete;
      assert SoundRow(keys[i], At(l, keys[i]));
    }
    SortedKeysSpec(l.incomplete.Keys);
    forall h | h in l.incomplete ensures exists e | e in rows :: e.Address() == h {
      var i :| 0 <= i < |keys| && keys[i] == h;
      assert rows[i] in rows;
    }
  }

  lemma SoundRowsAgree(l: Ledger, g: LedgerEntry)
    requires Sound(l) && g.handle in l.grants && l.grants[g.handle] == g
    ensures Agrees(l.state, Effects(l.incomplete), g) && Held(l.state, Effects(l.incomplete), g.handle)
  {
    EffectsInOrder(l);
    assert SoundRow(g.handle, At(l, g.handle));
  }

  lemma SoundRowsValid(l: Ledger)
    requires Sound(l)
    ensures RowsValid(l.state, Values(l.grants), Effects(l.incomplete))
    ensures NothingStandsUnfinished(l.state, Effects(l.incomplete))
  {
    RecordsInOrder(l);
    EffectsInOrder(l);
    forall g | g in Values(l.grants) ensures g.capability.Valid() && g.handle.cls == g.capability.Class() {
      assert SoundRow(g.handle, At(l, g.handle));
    }
    forall e | e in Effects(l.incomplete) ensures e.operation.capability.Valid() && e.Address() !in l.state {
      assert SoundRow(e.Address(), At(l, e.Address()));
    }
    forall h | h in l.state ensures l.state[h].capability.Valid() {
      assert SoundRow(h, At(l, h));
    }
  }

  lemma SoundHandlesOnce(l: Ledger)
    requires Sound(l)
    ensures NoRepeat(RecordHandles(Values(l.grants))) && NoRepeat(EffectHandles(Effects(l.incomplete)))
  {
    RecordsInOrder(l);
    EffectsInOrder(l);
    SortedKeysSpec(l.grants.Keys);
    SortedKeysSpec(l.incomplete.Keys);
  }

  lemma SoundIsConsistent(l: Ledger)
    requires Sound(l)
    ensures Consistent(l.state, Values(l.grants), Effects(l.incomplete))
  {
    SoundRowsValid(l);
    SoundHandlesOnce(l);
    forall g | g in Values(l.grants)
      ensures Agrees(l.state, Effects(l.incomplete), g) && Held(l.state, Effects(l.incomplete), g.handle)
    {
      RecordsInOrder(l);
      SoundRowsAgree(l, g);
    }
  }

  function CompleteAccount(l: Ledger): EnforcementSnapshot {
    EnforcementSnapshot(l.state, Values(l.grants), Effects(l.incomplete))
  }

  /** A sound ledger always has an account, and it shows the three maps in address order. */
  lemma SnapshotShowsLedger(l: Ledger)
    requires Sound(l)
    ensures Account(l.state, Values(l.grants), Effects(l.incomplete)) == Ok(CompleteAccount(l))
    ensures Sorting.StrictlySorted(RecordBefore, Values(l.grants))
    ensures Sorting.StrictlySorted(EffectBefore, Effects(l.incomplete))
  {
    SoundIsConsistent(l);
    VerdictFollowsTheRules(l.state, Values(l.grants), Effects(l.incomplete));
    RecordsInOrder(l);
    EffectsInOrder(l);
    SortedKeysSpec(l.grants.Keys);
    SortedKeysSpec(l.incomplete.Keys);
    OrdersAreStrict();
    assert Sorting.StrictlySorted(RecordBefore, Values(l.grants)) by {
      forall i, j | 0 <= i < j < |Values(l.grants)| ensures RecordBefore(Values(l.grants)[i], Values(l.grants)[j]) {
        assert Before(RecordHandles(Values(l.grants))[i], RecordHandles(Values(l.grants))[j]);
      }
    }
    assert Sorting.StrictlySorted(EffectBefore, Effects(l.incomplete)) by {
      forall i, j | 0 <= i < j < |Effects(l.incomplete)|
        ensures EffectBefore(Effects(l.incomplete)[i], Effects(l.incomplete)[j])
      {
        assert Before(EffectHandles(Effects(l.incomplete))[i], EffectHandles(Effects(l.incomplete))[j]);
      }
    }
    Sorting.SortedStays(RecordBefore, Values(l.grants));
    Sorting.SortedStays(EffectBefore, Effects(l.incomplete));
  }

  ghost predicate SnapshotSucceeds(l: Ledger) {
    if l.observationFault.None? then
      Step(l, Snapshot) == (l, Observed(CompleteAccount(l)))
    else
      var unarmed := l.(observationFault := None);
      && Step(l, Snapshot) == (unarmed, Refused(Fault(Injected(l.observationFault.value))))
      && Step(unarmed, Snapshot) == (unarmed, Observed(CompleteAccount(l)))
  }

  /** After any calls at all, a snapshot fails only for an armed observation fault, and once. */
  lemma SnapshotIsTotal(calls: seq<Call>)
    ensures Sound(Run(EMPTY, calls).0) && SnapshotSucceeds(Run(EMPTY, calls).0)
  {
    RunKeepsSound(EMPTY, calls);
    SnapshotShowsLedger(Run(EMPTY, calls).0);
  }

  /** A live handle always selects its own holding, so revoking it never finds nothing. */
  lemma RevokeFindsItsHolding(calls: seq<Call>, h: Handle, drain: DrainSpec)
    ensures var l := Run(EMPTY, calls).0;
            var answer := Step(l, Revoke(h, drain)).1;
            if h !in l.grants then answer == Refused(UnknownHandle(h))
            else
              || answer == Issued(l.grants[h])
              || (answer == Refused(DrainTimedOut(h, drain.DeadlineMs())) && drain.policy == Graceful)
              || (h in l.failing && answer == Refused(BackendError.IncompleteEffect(h, l.failing[h])))
  {
    var l := Run(EMPTY, calls).0;
    RunKeepsSound(EMPTY, calls);
    assert SoundRow(h, At(l, h));
  }

  // ---------------------------------------------------------------- exact reversibility

  datatype Order = Order(op: UniverseOp, kind: GrantKind)

  const FORCING := DrainSpec(0, Force)

  function GrantCalls(orders: seq<Order>): (r: seq<Call>)
    ensures |r| == |orders|
  {
    if orders == [] then [] else [Grant(orders[0].op, orders[0].kind)] + GrantCalls(orders[1..])
  }

  function RevokeCalls(handles: seq<Handle>): (r: seq<Call>)
    ensures |r| == |handles|
  {
    if handles == [] then [] else [Revoke(handles[0], FORCING)] + RevokeCalls(handles[1..])
  }

  /** The record each order is to be issued, by address. */
  function Entries(orders: seq<Order>): map<Handle, LedgerEntry> {
    if orders == [] then
      map[]
    else
      Entries(orders[1..])[orders[0].op.Address() := EntryOf(orders[0].op, orders[0].kind)]
  }

  ghost predicate Grantable(l: Ledger, order: Order) {
    var h := order.op.Address();
    && order.op.capability.Valid()
    && At(l, h) == Row(None, None, None)
    && order.op.owner !in l.refused && order.op.owner !in l.doomed
    && h !in l.failing
  }

  ghost predicate AllGrantable(l: Ledger, orders: seq<Order>) {
    && (forall i | 0 <= i < |orders| :: Grantable(l, orders[i]))
    && (forall i, j | 0 <= i < j < |orders| :: orders[i].op.Address() != orders[j].op.Address())
  }

  ghost function Holdings(more: map<Handle, LedgerEntry>): Objects {
    map h | h in more :: more[h].Object()
  }

  /** The ledger with more issued holdings standing in it. */
  ghost function Plus(l: Ledger, more: map<Handle, LedgerEntry>): Ledger {
    l.(state := l.state + Holdings(more), grants := l.grants + more)
  }

  /** The ledger after its force revocations: only the log and the stuck marks can differ. */
  ghost function Logged(l: Ledger, handles: seq<Handle>): Ledger {
    l.(revocations := l.revocations + handles, stuck := l.stuck - (set h | h in handles))
  }

  lemma RunCons(l: Ledger, call: Call, calls: seq<Call>, next: Ledger, answer: Answer)
    requires Step(l, call) == (next, answer)
    ensures Run(l, [call] + calls) == (Run(next, calls).0, [answer] + Run(next, calls).1)
  {
    assert ([call] + calls)[1..] == calls;
  }

  lemma {:induction false} RunConcat(l: Ledger, a: seq<Call>, b: seq<Call>)
    ensures Run(l, a + b) == (Run(Run(l, a).0, b).0, Run(l, a).1 + Run(Run(l, a).0, b).1)
    decreases |a|
  {
    if a == [] {
      assert a + b == b;
      assert [] + Run(l, b).1 == Run(l, b).1;
    } else {
      var (next, answer) := Step(l, a[0]);
      assert a == [a[0]] + a[1..] && a + b == [a[0]] + (a[1..] + b);
      RunCons(l, a[0], a[1..], next, answer);
      RunCons(l, a[0], a[1..] + b, next, answer);
      RunConcat(next, a[1..], b);
      assert Run(l, a).1 + Run(Run(l, a).0, b).1 == [answer] + (Run(next, a[1..]).1 + Run(Run(l, a).0, b).1);
    }
  }

  lemma GrantOne(l: Ledger, order: Order)
    requires Grantable(l, order)
    ensures var h, entry := order.op.Address(), EntryOf(order.op, order.kind);
            GrantStep(l, order.op, order.kind)
            == (l.(state := l.state[h := entry.Object()], grants := l.grants[h := entry]), Issued(entry))
  {
  }

  lemma HoldingsOneMore(more: map<Handle, LedgerEntry>, h: Handle, entry: LedgerEntry)
    ensures Holdings(more[h := entry]) == Holdings(more)[h := entry.Object()]
    ensures Holdings(more - {h}) == Holdings(more) - {h}
  {
  }

  /** Issuing one record first and the rest after is issuing them all. */
  lemma PlusOneMore(l: Ledger, h: Handle, entry: LedgerEntry, more: map<Handle, LedgerEntry>)
    requires h !in more
    ensures Plus(l.(state := l.state[h := entry.Object()], grants := l.grants[h := entry]), more)
            == Plus(l, more[h := entry])
  {
    HoldingsOneMore(more, h, entry);
    Maps.OverrideOneMore(l.state, h, entry.Object(), Holdings(more));
    Maps.OverrideOneMore(l.grants, h, entry, more);
  }

  lemma GrantableAfter(l: Ledger, order: Order, h: Handle, entry: LedgerEntry)
    requires Grantable(l, order) && order.op.Address() != h
    ensures Grantable(l.(state := l.state[h := entry.Object()], grants := l.grants[h := entry]), order)
  {
  }

  lemma {:induction false} EntriesCover(orders: seq<Order>)
    requires forall i, j | 0 <= i < j < |orders| :: orders[i].op.Address() != orders[j].op.Address()
    ensures Entries(orders).Keys == set o | o in orders :: o.op.Address()
    ensures forall o | o in orders :: o.op.Address() in Entries(orders) && Entries(orders)[o.op.Address()] == EntryOf(o.op, o.kind)
  {
    if orders != [] {
      EntriesCover(orders[1..]);
      assert orders == [orders[0]] + orders[1..];
    }
  }

  /** The answers that issue every order its own record. */
  ghost function Receipts(orders: seq<Order>): (r: seq<Answer>)
    ensures |r| == |orders| && forall i | 0 <= i < |r| :: r[i].Issued?
  {
    if orders == [] then [] else [Issued(EntryOf(orders[0].op, orders[0].kind))] + Receipts(orders[1..])
  }

  lemma AllGrantableAfter(l: Ledger, orders: seq<Order>)
    requires AllGrantable(l, orders) && orders != []
    ensures var h, entry := orders[0].op.Address(), EntryOf(orders[0].op, orders[0].kind);
            AllGrantable(l.(state := l.state[h := entry.Object()], grants := l.grants[h := entry]), orders[1..])
  {
    var h, entry := orders[0].op.Address(), EntryOf(orders[0].op, orders[0].kind);
    forall i | 0 <= i < |orders[1..]|
      ensures Grantable(l.(state := l.state[h := entry.Object()], grants := l.grants[h := entry]), orders[1..][i])
    {
      GrantableAfter(l, orders[i + 1], h, entry);
    }
  }

  lemma {:induction false} GrantAll(l: Ledger, orders: seq<Order>)
    requires AllGrantable(l, orders)
    ensures Run(l, GrantCalls(orders)) == (Plus(l, Entries(orders)), Receipts(orders))
    decreases |orders|
  {
    if orders == [] {
      Maps.OverrideNothing(l.state);
      Maps.OverrideNothing(l.grants);
    } else {
      var h, entry := orders[0].op.Address(), EntryOf(orders[0].op, orders[0].kind);
      var next := l.(state := l.state[h := entry.Object()], grants := l.grants[h := entry]);
      GrantOne(l, orders[0]);
      AllGrantableAfter(l, orders);
      GrantAll(next, orders[1..]);
      RunCons(l, Grant(orders[0].op, orders[0].kind), GrantCalls(orders[1..]), next, Issued(entry));
      EntriesCover(orders[1..]);
      PlusOneMore(l, h, entry, Entries(orders[1..]));
    }
  }

  /** `more` are well-formed records at addresses the ledger does not use. */
  ghost predicate Separate(l: Ledger, more: map<Handle, LedgerEntry>) {
    forall h | h in more ::
      && more[h].handle == h && more[h].Object().Address() == h
      && At(l, h) == Row(None, None, None) && h !in l.failing
  }

  lemma RevokeHeld(l: Ledger, h: Handle)
    requires h in l.grants && h in l.state && h !in l.failing && h !in l.incomplete
    requires l.grants[h].Object().Address() == h && l.state[h] == l.grants[h].Object()
    ensures RevokeStep(l, h, FORCING)
            == (l.(state := l.state - {h}, grants := l.grants - {h}, stuck := l.stuck - {h},
                   revocations := l.revocations + [h]),
                Issued(l.grants[h]))
  {
    Maps.RemoveNothing(l.incomplete, h);
  }

  lemma RevokeOne(l: Ledger, more: map<Handle, LedgerEntry>, h: Handle)
    requires Separate(l, more) && h in more
    ensures RevokeStep(Plus(l, more), h, FORCING) == (Plus(Logged(l, [h]), more - {h}), Issued(more[h]))
  {
    assert Holdings(more)[h] == more[h].Object();
    RevokeHeld(Plus(l, more), h);
    HoldingsOneMore(more, h, more[h]);
    Maps.OverrideOneLess(l.state, Holdings(more), h);
    Maps.OverrideOneLess(l.grants, more, h);
    assert (set k | k in [h]) == {h};
  }

  lemma LoggedOneMore(l: Ledger, h: Handle, handles: seq<Handle>)
    ensures Logged(Logged(l, [h]), handles) == Logged(l, [h] + handles)
  {
    assert l.revocations + [h] + handles == l.revocations + ([h] + handles);
    assert (l.stuck - (set k | k in [h])) - (set k | k in handles) == l.stuck - (set k | k in [h] + handles);
  }

  lemma SeparateAfter(l: Ledger, more: map<Handle, LedgerEntry>, h: Handle)
    requires Separate(l, more)
    ensures Separate(Logged(l, [h]), more - {h})
  {
    forall k | k in more - {h} ensures At(Logged(l, [h]), k) == At(l, k) {}
  }

  ghost function Returns(more: map<Handle, LedgerEntry>, handles: seq<Handle>): (r: seq<Answer>)
    requires forall h | h in handles :: h in more
    ensures |r| == |handles| && forall i | 0 <= i < |r| :: r[i] == Issued(more[handles[i]])
  {
    seq(|handles|, i requires 0 <= i < |handles| => Issued(more[handles[i]]))
  }

  lemma RevokeNone(l: Ledger, more: map<Handle, LedgerEntry>)
    requires more == map[]
    ensures Plus(l, more) == Logged(l, []) == l
  {
    Maps.OverrideNothing(l.state);
    Maps.OverrideNothing(l.grants);
    assert Holdings(more) == map[];
    assert l.revocations + [] == l.revocations;
    assert l.stuck - (set h | h in []) == l.stuck;
  }

  lemma RevokeFirst(l: Ledger, more: map<Handle, LedgerEntry>, h: Handle, rest: seq<Handle>)
    requires Separate(l, more) && h in more
    ensures var next := Run(Plus(Logged(l, [h]), more - {h}), RevokeCalls(rest));
            Run(Plus(l, more), RevokeCalls([h] + rest)) == (next.0, [Issued(more[h])] + next.1)
  {
    RevokeOne(l, more, h);
    assert ([h] + rest)[1..] == rest;
    RunCons(Plus(l, more), Revoke(h, FORCING), RevokeCalls(rest), Plus(Logged(l, [h]), more - {h}), Issued(more[h]));
  }

  /** `handles` lists the addresses of `more`, each once, in any order. */
  ghost predicate Lists(handles: seq<Handle>, more: map<Handle, LedgerEntry>) {
    NoRepeat(handles) && (forall h | h in handles :: h in more) && (forall h | h in more :: h in handles)
  }

  lemma ListsRest(h: Handle, rest: seq<Handle>, more: map<Handle, LedgerEntry>)
    requires Lists([h] + rest, more)
    ensures h in more && h !in rest && Lists(rest, more - {h})
  {
    var all := [h] + rest;
    assert all[0] == h;
    forall i | 0 <= i < |rest| ensures rest[i] != h {
      assert rest[i] == all[i + 1];
    }
    forall i, j | 0 <= i < j < |rest| ensures rest[i] != rest[j] {
      assert rest[i] == all[i + 1] && rest[j] == all[j + 1];
    }
    forall k | k in rest ensures k in more - {h} { assert k in all; }
    forall k | k in more - {h} ensures k in rest { assert k in all; }
  }

  lemma ReturnsCons(h: Handle, rest: seq<Handle>, more: map<Handle, LedgerEntry>)
    requires h in more && h !in rest && forall k | k in rest :: k in more
    ensures Returns(more, [h] + rest) == [Issued(more[h])] + Returns(more - {h}, rest)
  {
  }

  lemma {:induction false} RevokeAll(l: Ledger, more: map<Handle, LedgerEntry>, handles: seq<Handle>)
    requires Separate(l, more) && Lists(handles, more)
    ensures Run(Plus(l, more), RevokeCalls(handles)) == (Logged(l, handles), Returns(more, handles))
    decreases |handles|
  {
    if handles == [] {
      RevokeNone(l, more);
    } else {
      var h, rest := handles[0], handles[1..];
      assert handles == [h] + rest;
      ListsRest(h, rest, more);
      ReturnsCons(h, rest, more);
      SeparateAfter(l, more, h);
      RevokeAll(Logged(l, [h]), more - {h}, rest);
      RevokeFirst(l, more, h, rest);
      LoggedOneMore(l, h, rest);
    }
  }

  lemma EntriesAreSeparate(l: Ledger, orders: seq<Order>)
    requires AllGrantable(l, orders)
    ensures Separate(l, Entries(orders))
  {
    EntriesCover(orders);
    forall h | h in Entries(orders)
      ensures Entries(orders)[h].handle == h && Entries(orders)[h].Object().Address() == h
      ensures At(l, h) == Row(None, None, None) && h !in l.failing
    {
      var o :| o in orders && o.op.Address() == h;
      assert Grantable(l, o);
    }
  }

  /** Granting at unused addresses and force-revoking in any order restores the ledger exactly. */
  lemma GrantsAreReversible(l: Ledger, orders: seq<Order>, handles: seq<Handle>)
    requires AllGrantable(l, orders)
    requires Lists(handles, Entries(orders))
    ensures Run(l, GrantCalls(orders) + RevokeCalls(handles))
            == (Logged(l, handles), Receipts(orders) + Returns(Entries(orders), handles))
  {
    GrantAll(l, orders);
    EntriesAreSeparate(l, orders);
    RevokeAll(l, Entries(orders), handles);
    RunConcat(l, GrantCalls(orders), RevokeCalls(handles));
  }

  // ---------------------------------------------------------------- unfinished effects

  predicate UnfinishedAt(l: Ledger, op: UniverseOp) {
    op.Address() in l.incomplete && l.incomplete[op.Address()].operation == op
  }

  /** The calls that withdraw exactly this operation's holding. */
  predicate Withdraws(call: Call, op: UniverseOp) {
    || (call.ApplyRemoval? && call.removal == op.Removal() && call.owner == op.owner)
    || (call.Revoke? && call.handle == op.Address())
  }

  predicate Succeeded(answer: Answer) {
    !answer.Refused?
  }

  lemma RemovalOfUnfinished(l: Ledger, op: UniverseOp, removal: UniverseRemoval, owner: CellOwner, drain: DrainSpec)
    requires Sound(l) && UnfinishedAt(l, op)
    ensures var (l', answer) := ApplyRemovalStep(l, removal, owner, drain);
            UnfinishedAt(l', op) <==> !(removal == op.Removal() && owner == op.owner && answer == Done)
  {
    assert SoundRow(op.Address(), At(l, op.Address()));
  }

  /** An unfinished effect leaves only by a successful withdrawal of exactly its holding. */
  lemma UnfinishedStep(l: Ledger, call: Call, op: UniverseOp)
    requires Sound(l) && UnfinishedAt(l, op)
    ensures UnfinishedAt(Step(l, call).0, op) <==> !(Withdraws(call, op) && Succeeded(Step(l, call).1))
  {
    var h := op.Address();
    assert SoundRow(h, At(l, h));
    if Target(call) != Some(h) {
      StepIsLocal(l, call, h);
      assert At(Step(l, call).0, h).unfinished == At(l, h).unfinished;
    } else {
      match call
      case Revoke(_, drain) =>
        if h in l.grants { RemovalOfUnfinished(l, op, l.grants[h].Removal(), l.grants[h].owner, drain); }
      case ApplyRemoval(removal, owner, drain) => RemovalOfUnfinished(l, op, removal, owner, drain);
      case _ =>
    }
  }

  lemma {:induction false} UnfinishedUntilWithdrawn(l: Ledger, calls: seq<Call>, op: UniverseOp)
    requires Sound(l) && UnfinishedAt(l, op)
    requires forall i | 0 <= i < |calls| :: !(Withdraws(calls[i], op) && Succeeded(Run(l, calls).1[i]))
    ensures UnfinishedAt(Run(l, calls).0, op)
    decreases |calls|
  {
    if calls != [] {
      var (next, answer) := Step(l, calls[0]);
      assert calls == [calls[0]] + calls[1..];
      RunCons(l, calls[0], calls[1..], next, answer);
      assert Run(l, calls).1[0] == answer;
      UnfinishedStep(l, calls[0], op);
      StepKeepsSound(l, calls[0]);
      forall i | 0 <= i < |calls[1..]| ensures Run(next, calls[1..]).1[i] == Run(l, calls).1[i + 1] {}
      UnfinishedUntilWithdrawn(next, calls[1..], op);
    }
  }

  /** A withdrawal of exactly this holding that failed after it released something. */
  predicate FailsWithdrawing(call: Call, answer: Answer, op: UniverseOp) {
    Withdraws(call, op) && answer.Refused? && answer.error.IncompleteEffect?
  }

  lemma RemovalDetail(l: Ledger, op: UniverseOp, drain: DrainSpec)
    requires Sound(l) && UnfinishedAt(l, op)
    ensures var (l', answer) := ApplyRemovalStep(l, op.Removal(), op.owner, drain);
            var h := op.Address();
            if answer.Refused? && answer.error.IncompleteEffect? then
              h in l.failing && answer.error == BackendError.IncompleteEffect(h, l.failing[h])
              && UnfinishedAt(l', op) && l'.incomplete[h].detail == l.failing[h]
            else
              UnfinishedAt(l', op) ==> l'.incomplete[h].detail == l.incomplete[h].detail
  {
    assert SoundRow(op.Address(), At(l, op.Address()));
  }

  /** While it is unfinished, its detail changes only at a failed withdrawal of exactly its
      holding, and then to the text armed there, which the answer carries too. */
  lemma DetailStep(l: Ledger, call: Call, op: UniverseOp)
    requires Sound(l) && UnfinishedAt(l, op) && UnfinishedAt(Step(l, call).0, op)
    ensures var (l', answer) := Step(l, call);
            var h := op.Address();
            if FailsWithdrawing(call, answer, op) then
              h in l.failing && answer.error == BackendError.IncompleteEffect(h, l.failing[h])
              && l'.incomplete[h].detail == l.failing[h]
            else
              l'.incomplete[h].detail == l.incomplete[h].detail
  {
    var h := op.Address();
    assert SoundRow(h, At(l, h));
    if Target(call) != Some(h) {
      StepIsLocal(l, call, h);
      assert At(Step(l, call).0, h).unfinished == At(l, h).unfinished;
    } else {
      match call
      case Revoke(_, drain) => RemovalDetail(l, op, drain);
      case ApplyRemoval(removal, owner, drain) => if Withdraws(call, op) { RemovalDetail(l, op, drain); }
      case _ =>
    }
  }

  /** The detail of the last failed withdrawal among the answers, or the one before them all. */
  ghost function LatestDetail(op: UniverseOp, detail: string, calls: seq<Call>, answers: seq<Answer>): string
    requires |calls| == |answers|
    decreases |calls|
  {
    if calls == [] then
      detail
    else
      var next := if FailsWithdrawing(calls[0], answers[0], op) then answers[0].error.detail else detail;
      LatestDetail(op, next, calls[1..], answers[1..])
  }

  /** Over any run in which it stays unfinished, the detail kept is the latest failure's. */
  lemma {:induction false} DetailIsLatest(l: Ledger, calls: seq<Call>, op: UniverseOp)
    requires Sound(l) && UnfinishedAt(l, op)
    requires forall i | 0 <= i < |calls| :: !(Withdraws(calls[i], op) && Succeeded(Run(l, calls).1[i]))
    ensures UnfinishedAt(Run(l, calls).0, op)
    ensures Run(l, calls).0.incomplete[op.Address()].detail
            == LatestDetail(op, l.incomplete[op.Address()].detail, calls, Run(l, calls).1)
    decreases |calls|
  {
    UnfinishedUntilWithdrawn(l, calls, op);
    if calls != [] {
      var (next, answer) := Step(l, calls[0]);
      assert calls == [calls[0]] + calls[1..];
      RunCons(l, calls[0], calls[1..], next, answer);
      assert Run(l, calls).1[0] == answer && Run(l, calls).1[1..] == Run(next, calls[1..]).1;
      UnfinishedStep(l, calls[0], op);
      DetailStep(l, calls[0], op);
      StepKeepsSound(l, calls[0]);
      forall i | 0 <= i < |calls[1..]| ensures Run(next, calls[1..]).1[i] == Run(l, calls).1[i + 1] {}
      DetailIsLatest(next, calls[1..], op);
    }
  }

  /** So after any such run a retry is answered with the latest failure's detail. */
  lemma RetryReportsLatest(l: Ledger, calls: seq<Call>, op: UniverseOp, kind: GrantKind)
    requires Sound(l) && UnfinishedAt(l, op)
    requires forall i | 0 <= i < |calls| :: !(Withdraws(calls[i], op) && Succeeded(Run(l, calls).1[i]))
    ensures var (after, answers) := Run(l, calls);
            var latest := LatestDetail(op, l.incomplete[op.Address()].detail, calls, answers);
            var again := Refused(BackendError.IncompleteEffect(op.Address(), latest));
            Step(after, Grant(op, kind)) == (after, again) && Step(after, Apply(op)) == (after, again)
  {
    DetailIsLatest(l, calls, op);
    RunKeepsSound(l, calls);
    UnfinishedAnswers(Run(l, calls).0, op, op, kind);
  }

  /** While it is unfinished, its address answers every creation with the promised refusal. */
  lemma UnfinishedAnswers(l: Ledger, op: UniverseOp, other: UniverseOp, kind: GrantKind)
    requires Sound(l) && UnfinishedAt(l, op)
    ensures var h := op.Address();
            var again := BackendError.IncompleteEffect(h, l.incomplete[h].detail);
            && Step(l, Grant(op, kind)) == (l, Refused(again))
            && Step(l, Apply(op)) == (l, Refused(again))
            && Step(l, Plant(op.Object())) == (l, Refused(IdentityConflict(h)))
    ensures other != op && other.Address() == op.Address() && other.capability.Valid() ==>
              var conflict := Refused(IdentityConflict(op.Address()));
              && Step(l, Grant(other, kind)) == (l, conflict)
              && Step(l, Apply(other)) == (l, conflict)
              && Step(l, Plant(other.Object())) == (l, conflict)
  {
    assert SoundRow(op.Address(), At(l, op.Address()));
  }

  /** One forced exact removal clears it, unless a withdrawal failure is armed: that is used up. */
  lemma ForcedRemoval(l: Ledger, op: UniverseOp)
    requires Sound(l) && UnfinishedAt(l, op)
    ensures var h := op.Address();
            var (after, answer) := Step(l, ApplyRemoval(op.Removal(), op.owner, FORCING));
            if h !in l.failing then
              answer == Done && At(after, h) == Row(None, None, None)
            else
              && answer == Refused(BackendError.IncompleteEffect(h, l.failing[h]))
              && UnfinishedAt(after, op) && At(after, h).issued == At(l, h).issued && h !in after.failing
  {
    assert SoundRow(op.Address(), At(l, op.Address()));
  }

  predicate Arms(call: Call, h: Handle) {
    call.FailNextWithdrawal? && call.handle == h
  }

  /** A withdrawal failure appears at an address only by being armed there. */
  lemma FailureIsArmed(l: Ledger, call: Call, h: Handle)
    requires h !in l.failing && !Arms(call, h)
    ensures h !in Step(l, call).0.failing
  {
  }

  lemma {:induction false} FailureStaysUnarmed(l: Ledger, calls: seq<Call>, h: Handle)
    requires h !in l.failing && forall c | c in calls :: !Arms(c, h)
    ensures h !in Run(l, calls).0.failing
    decreases |calls|
  {
    if calls != [] {
      assert calls[0] in calls && forall c | c in calls[1..] :: c in calls;
      FailureIsArmed(l, calls[0], h);
      FailureStaysUnarmed(Step(l, calls[0]).0, calls[1..], h);
    }
  }

  /** Two forced exact removals always clear an address, whatever other calls come between that
      do not arm it again: if the first is refused, the second is not. */
  lemma TwoForcedRemovalsClear(l: Ledger, op: UniverseOp, between: seq<Call>)
    requires Sound(l) && UnfinishedAt(l, op)
    requires forall c | c in between :: !Arms(c, op.Address()) && !Withdraws(c, op)
    ensures var removal := ApplyRemoval(op.Removal(), op.owner, FORCING);
            var (once, first) := Step(l, removal);
            var (twice, second) := Step(Run(once, between).0, removal);
            || (first == Done && At(once, op.Address()) == Row(None, None, None))
            || (first.Refused? && second == Done && At(twice, op.Address()) == Row(None, None, None))
  {
    var removal := ApplyRemoval(op.Removal(), op.owner, FORCING);
    var once := Step(l, removal).0;
    ForcedRemoval(l, op);
    if op.Address() in l.failing {
      StepKeepsSound(l, removal);
      FailureStaysUnarmed(once, between, op.Address());
      UnfinishedUntilWithdrawn(once, between, op);
      RunKeepsSound(once, between);
      ForcedRemoval(Run(once, between).0, op);
    }
  }

  /** A withdrawal that fails part way moves the holding to unfinished and keeps its record. */
  lemma FailedWithdrawalKeepsRecord(l: Ledger, held: OsObject)
    requires Sound(l) && held.Address() in l.state && l.state[held.Address()] == held
    requires held.Address() in l.failing
    ensures var h := held.Address();
            var (l', answer) := Step(l, ApplyRemoval(held.Operation().Removal(), held.owner, FORCING));
            && answer == Refused(BackendError.IncompleteEffect(h, l.failing[h]))
            && At(l', h) == Row(None, At(l, h).issued, Some(Unfinished(held.Operation(), l.failing[h])))
            && h !in l'.failing
  {
    assert SoundRow(held.Address(), At(l, held.Address()));
  }
}
