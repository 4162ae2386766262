/** A backend's complete account: its six rules, in order, and its normal form. */
module Snapshots {
  import opened Wrappers
  import opened Universe
  import opened OsStates
  import Sorting

  datatype IncompleteEffect = IncompleteEffect(operation: UniverseOp) {
    function Address(): Handle {
      operation.Address()
    }

    function Content(): Content {
      (operation.owner, operation.capability)
    }
  }

  datatype EnforcementSnapshot =
    EnforcementSnapshot(state: Objects, grants: seq<LedgerEntry>, incomplete: seq<IncompleteEffect>)

  predicate RecordBefore(a: LedgerEntry, b: LedgerEntry) {
    Before(a.handle, b.handle)
  }

  predicate EffectBefore(a: IncompleteEffect, b: IncompleteEffect) {
    Before(a.Address(), b.Address())
  }

  // ---------------------------------------------------------------- the six rules

  ghost predicate RowsValid(state: Objects, grants: seq<LedgerEntry>, incomplete: seq<IncompleteEffect>) {
    && (forall h | h in state :: state[h].capability.Valid())
    && (forall g | g in grants :: g.capability.Valid() && g.handle.cls == g.capability.Class())
    && (forall e | e in incomplete :: e.operation.capability.Valid())
  }

  ghost predicate NoRepeat(handles: seq<Handle>) {
    forall i, j | 0 <= i < j < |handles| :: handles[i] != handles[j]
  }

  ghost predicate NothingStandsUnfinished(state: Objects, incomplete: seq<IncompleteEffect>) {
    forall e | e in incomplete :: e.Address() !in state
  }

  predicate Held(state: Objects, incomplete: seq<IncompleteEffect>, h: Handle) {
    h in state || exists e | e in incomplete :: e.Address() == h
  }

  /** Whatever row the record's address has carries the record's owner and capability. */
  predicate Agrees(state: Objects, incomplete: seq<IncompleteEffect>, g: LedgerEntry) {
    if g.handle in state then
      ContentOf(state[g.handle]) == (g.owner, g.capability)
    else
      forall e | e in incomplete && e.Address() == g.handle :: e.Content() == (g.owner, g.capability)
  }

  function RecordHandles(grants: seq<LedgerEntry>): seq<Handle> {
    seq(|grants|, i requires 0 <= i < |grants| => grants[i].handle)
  }

  function EffectHandles(incomplete: seq<IncompleteEffect>): seq<Handle> {
    seq(|incomplete|, i requires 0 <= i < |incomplete| => incomplete[i].Address())
  }

  /** Rule `n` of the account, 1 to 6. */
  ghost predicate Rule(n: nat, state: Objects, grants: seq<LedgerEntry>, incomplete: seq<IncompleteEffect>) {
    match n
    case 1 => RowsValid(state, grants, incomplete)
    case 2 => NoRepeat(EffectHandles(incomplete))
    case 3 => NothingStandsUnfinished(state, incomplete)
    case 4 => NoRepeat(RecordHandles(grants))
    case 5 => forall g | g in grants :: Agrees(state, incomplete, g)
    case 6 => forall g | g in grants :: Held(state, incomplete, g.handle)
    case _ => true
  }

  ghost predicate Consistent(state: Objects, grants: seq<LedgerEntry>, incomplete: seq<IncompleteEffect>) {
    forall n | 1 <= n <= 6 :: Rule(n, state, grants, incomplete)
  }

  // ---------------------------------------------------------------- first offenders

  /** The earliest element that `bad` holds of. */
  ghost function First<T>(s: seq<T>, bad: T -> bool): (r: Option<T>)
    ensures r.Some? ==> r.value in s && bad(r.value)
    ensures r.None? ==> forall x | x in s :: !bad(x)
  {
    if s == [] then
      None
    else
      assert s == s[..|s| - 1] + [s[|s| - 1]];
      var before := First(s[..|s| - 1], bad);
      if before.Some? then before else if bad(s[|s| - 1]) then Some(s[|s| - 1]) else None
  }

  /** The earliest handle that stands earlier in the sequence too. */
  ghost function FirstRepeat(s: seq<Handle>): (r: Option<Handle>)
    ensures r.Some? ==> exists i, j :: 0 <= i < j < |s| && s[i] == s[j] == r.value
    ensures r.None? ==> NoRepeat(s)
  {
    if s == [] then
      None
    else
      var front := s[..|s| - 1];
      var before := FirstRepeat(front);
      if before.Some? then
        before
      else if s[|s| - 1] in front then
        var i :| 0 <= i < |front| && front[i] == s[|s| - 1];
        assert s[i] == s[|s| - 1];
        Some(s[|s| - 1])
      else
        None
  }

  lemma {:induction false} FirstOfPrefix<T>(s: seq<T>, bad: T -> bool, n: nat)
    requires n <= |s| && First(s[..n], bad).Some?
    ensures First(s, bad) == First(s[..n], bad)
  {
    if n < |s| {
      assert s[..|s| - 1][..n] == s[..n];
      FirstOfPrefix(s[..|s| - 1], bad, n);
    } else {
      assert s[..n] == s;
    }
  }

  lemma {:induction false} FirstRepeatOfPrefix(s: seq<Handle>, n: nat)
    requires n <= |s| && FirstRepeat(s[..n]).Some?
    ensures FirstRepeat(s) == FirstRepeat(s[..n])
  {
    if n < |s| {
      assert s[..|s| - 1][..n] == s[..n];
      FirstRepeatOfPrefix(s[..|s| - 1], n);
    } else {
      assert s[..n] == s;
    }
  }

  /** One loop step of `First`: the prefix one longer. */
  lemma FirstStep<T>(s: seq<T>, bad: T -> bool, n: nat)
    requires n < |s| && First(s[..n], bad).None?
    ensures bad(s[n]) ==> First(s, bad) == Some(s[n])
    ensures !bad(s[n]) ==> First(s[..n + 1], bad).None?
  {
    assert s[..n + 1][..n] == s[..n];
    if bad(s[n]) {
      FirstOfPrefix(s, bad, n + 1);
    }
  }

  lemma FirstRepeatStep(s: seq<Handle>, n: nat)
    requires n < |s| && FirstRepeat(s[..n]).None?
    ensures s[n] in s[..n] ==> FirstRepeat(s) == Some(s[n])
    ensures s[n] !in s[..n] ==> FirstRepeat(s[..n + 1]).None?
  {
    assert s[..n + 1][..n] == s[..n];
    if s[n] in s[..n] {
      FirstRepeatOfPrefix(s, n + 1);
    }
  }

  lemma RepeatHasFirst(s: seq<Handle>)
    ensures FirstRepeat(s).None? <==> NoRepeat(s)
  {
  }

  // ---------------------------------------------------------------- the verdict

  predicate BadObject(o: OsObject) {
    !o.capability.Valid()
  }

  predicate BadRecord(g: LedgerEntry) {
    !g.capability.Valid() || g.handle.cls != g.capability.Class()
  }

  predicate BadEffect(e: IncompleteEffect) {
    !e.operation.capability.Valid()
  }

  function Invalid(address: Handle, capability: Capability): BackendError
    requires !capability.Valid()
  {
    InvalidOperation(address, FirstBrokenRule(capability).value)
  }

  function RecordError(g: LedgerEntry): BackendError
    requires BadRecord(g)
  {
    if !g.capability.Valid() then Invalid(g.handle, g.capability) else Fault(ClassMismatch(g.handle))
  }

  /** Rule 1, row by row: standing objects in address order, then records, then effects. */
  ghost function RowVerdict(state: Objects, grants: seq<LedgerEntry>, incomplete: seq<IncompleteEffect>)
    : Option<BackendError>
  {
    var o := First(Values(state), BadObject);
    var g := First(grants, BadRecord);
    var e := First(incomplete, BadEffect);
    if o.Some? then Some(Invalid(o.value.Address(), o.value.capability))
    else if g.Some? then Some(RecordError(g.value))
    else if e.Some? then Some(Invalid(e.value.Address(), e.value.operation.capability))
    else None
  }

  /** The first broken rule's first offender, or nothing. */
  ghost function Verdict(state: Objects, grants: seq<LedgerEntry>, incomplete: seq<IncompleteEffect>)
    : Option<BackendError>
  {
    var row := RowVerdict(state, grants, incomplete);
    var twice := FirstRepeat(EffectHandles(incomplete));
    var both := First(incomplete, (e: IncompleteEffect) => e.Address() in state);
    var reissued := FirstRepeat(RecordHandles(grants));
    var differs := First(grants, (g: LedgerEntry) => !Agrees(state, incomplete, g));
    var orphan := First(grants, (g: LedgerEntry) => !Held(state, incomplete, g.handle));
    if row.Some? then row
    else if twice.Some? then Some(IdentityConflict(twice.value))
    else if both.Some? then Some(IdentityConflict(both.value.Address()))
    else if reissued.Some? then Some(IdentityConflict(reissued.value))
    else if differs.Some? then Some(IdentityConflict(differs.value.handle))
    else if orphan.Some? then Some(Fault(NoHolding(orphan.value.handle)))
    else None
  }

  ghost function Account(state: Objects, grants: seq<LedgerEntry>, incomplete: seq<IncompleteEffect>)
    : Result<EnforcementSnapshot, BackendError>
  {
    var verdict := Verdict(state, grants, incomplete);
    if verdict.Some? then
      Err(verdict.value)
    else
      Ok(EnforcementSnapshot(state, Sorting.Sort(RecordBefore, grants), Sorting.Sort(EffectBefore, incomplete)))
  }

  lemma RowVerdictIsRuleOne(state: Objects, grants: seq<LedgerEntry>, incomplete: seq<IncompleteEffect>)
    ensures RowVerdict(state, grants, incomplete).None? <==> RowsValid(state, grants, incomplete)
  {
    ValuesCoverMap(state);
    if RowVerdict(state, grants, incomplete).None? {
      forall h | h in state ensures state[h].capability.Valid() {
        assert !BadObject(state[h]);
      }
      assert forall g | g in grants :: !BadRecord(g);
      assert forall e | e in incomplete :: !BadEffect(e);
    }
  }

  /** `x` is the earliest element of `s` that `bad` holds of. */
  ghost predicate IsFirst<T(!new)>(x: T, s: seq<T>, bad: T -> bool) {
    exists i :: 0 <= i < |s| && s[i] == x && bad(x) && forall k | 0 <= k < i :: !bad(s[k])
  }

  /** `h` is the earliest handle that stands earlier in the sequence too. */
  ghost predicate IsFirstRepeat(h: Handle, s: seq<Handle>) {
    exists j :: 0 <= j < |s| && s[j] == h && h in s[..j] && NoRepeat(s[..j])
  }

  lemma {:induction false} FirstIsFirst<T(!new)>(s: seq<T>, bad: T -> bool)
    ensures First(s, bad).Some? ==> IsFirst(First(s, bad).value, s, bad)
    ensures First(s, bad).None? ==> forall k | 0 <= k < |s| :: !bad(s[k])
  {
    if s != [] {
      var front := s[..|s| - 1];
      FirstIsFirst(front, bad);
      if First(front, bad).Some? {
        var i :| 0 <= i < |front| && front[i] == First(front, bad).value && bad(front[i]) && forall k | 0 <= k < i :: !bad(front[k]);
        assert s[i] == First(s, bad).value && forall k | 0 <= k < i :: !bad(s[k]);
      } else if bad(s[|s| - 1]) {
        assert forall k | 0 <= k < |front| :: !bad(s[k]) by { assert forall k | 0 <= k < |front| :: front[k] == s[k]; }
        assert s[|s| - 1] == First(s, bad).value;
      }
    }
  }

  lemma {:induction false} FirstRepeatIsFirst(s: seq<Handle>)
    ensures FirstRepeat(s).Some? ==> IsFirstRepeat(FirstRepeat(s).value, s)
  {
    if s != [] {
      var front := s[..|s| - 1];
      FirstRepeatIsFirst(front);
      if FirstRepeat(front).Some? {
        var j :| 0 <= j < |front| && front[j] == FirstRepeat(front).value && front[j] in front[..j] && NoRepeat(front[..j]);
        assert front[..j] == s[..j] && s[j] == FirstRepeat(s).value;
      }
    }
  }

  /** `error` names the first offender of rule `n`, with the kind of error the account gives it.
      Rule 1 looks at the objects by address, then at the records, then at the effects. */
  ghost predicate Names(
    error: BackendError, n: nat, state: Objects, grants: seq<LedgerEntry>, incomplete: seq<IncompleteEffect>)
  {
    match n
    case 1 => NamesBadRow(error, state, grants, incomplete)
    case 2 => error.IdentityConflict? && IsFirstRepeat(error.address, EffectHandles(incomplete))
    case 3 =>
      && error.IdentityConflict?
      && exists e :: IsFirst(e, incomplete, (e: IncompleteEffect) => e.Address() in state) && e.Address() == error.address
    case 4 => error.IdentityConflict? && IsFirstRepeat(error.address, RecordHandles(grants))
    case 5 =>
      && error.IdentityConflict?
      && exists g :: IsFirst(g, grants, (g: LedgerEntry) => !Agrees(state, incomplete, g)) && g.handle == error.address
    case 6 =>
      && error.Fault? && error.reason.NoHolding?
      && exists g :: IsFirst(g, grants, (g: LedgerEntry) => !Held(state, incomplete, g.handle)) && g.handle == error.reason.record
    case _ => false
  }

  ghost predicate NamesBadRow(
    error: BackendError, state: Objects, grants: seq<LedgerEntry>, incomplete: seq<IncompleteEffect>)
  {
    if exists h :: h in state && !state[h].capability.Valid() then
      exists o :: IsFirst(o, Values(state), BadObject) && error == Broken(o.Address(), o.capability)
    else if exists g :: g in grants && (!g.capability.Valid() || g.handle.cls != g.capability.Class()) then
      exists g :: IsFirst(g, grants, BadRecord)
                  && error == if g.capability.Valid() then Fault(ClassMismatch(g.handle)) else Broken(g.handle, g.capability)
    else
      exists e :: IsFirst(e, incomplete, BadEffect) && error == Broken(e.Address(), e.operation.capability)
  }

  /** The refusal of an invalid row: its address and the first rule its capability breaks. */
  ghost function Broken(address: Handle, capability: Capability): BackendError {
    match FirstBrokenRule(capability)
    case Some(rule) => InvalidOperation(address, rule)
    case None => IdentityConflict(address)
  }

  lemma RowVerdictNames(state: Objects, grants: seq<LedgerEntry>, incomplete: seq<IncompleteEffect>)
    requires RowVerdict(state, grants, incomplete).Some?
    ensures NamesBadRow(RowVerdict(state, grants, incomplete).value, state, grants, incomplete)
  {
    ValuesCoverMap(state);
    FirstIsFirst(Values(state), BadObject);
    FirstIsFirst(grants, BadRecord);
    FirstIsFirst(incomplete, BadEffect);
    var o, g := First(Values(state), BadObject), First(grants, BadRecord);
    if o.None? {
      forall h | h in state ensures state[h].capability.Valid() { assert !BadObject(state[h]); }
      if g.None? {
        forall g | g in grants ensures g.capability.Valid() && g.handle.cls == g.capability.Class() { assert !BadRecord(g); }
      }
    }
  }

  /** The account is refused exactly when a rule is broken, for the first broken rule's first
      offender. */
  lemma VerdictFollowsTheRules(state: Objects, grants: seq<LedgerEntry>, incomplete: seq<IncompleteEffect>)
    ensures Verdict(state, grants, incomplete).None? <==> Consistent(state, grants, incomplete)
    ensures forall n | 1 <= n <= 6 && !Rule(n, state, grants, incomplete)
                       && (forall k | 1 <= k < n :: Rule(k, state, grants, incomplete)) ::
              && Verdict(state, grants, incomplete).Some?
              && Names(Verdict(state, grants, incomplete).value, n, state, grants, incomplete)
  {
    var verdict := Verdict(state, grants, incomplete);
    RowVerdictIsRuleOne(state, grants, incomplete);
    RepeatHasFirst(EffectHandles(incomplete));
    RepeatHasFirst(RecordHandles(grants));
    if !Rule(1, state, grants, incomplete) {
      RowVerdictNames(state, grants, incomplete);
    } else if !Rule(2, state, grants, incomplete) {
      FirstRepeatIsFirst(EffectHandles(incomplete));
    } else if !Rule(3, state, grants, incomplete) {
      FirstIsFirst(incomplete, (e: IncompleteEffect) => e.Address() in state);
    } else if !Rule(4, state, grants, incomplete) {
      FirstRepeatIsFirst(RecordHandles(grants));
    } else if !Rule(5, state, grants, incomplete) {
      FirstIsFirst(grants, (g: LedgerEntry) => !Agrees(state, incomplete, g));
    } else if !Rule(6, state, grants, incomplete) {
      FirstIsFirst(grants, (g: LedgerEntry) => !Held(state, incomplete, g.handle));
    }
  }

  /** The six rules spelled out: every row is valid and every record at its own class, no address
      is unfinished twice, unfinished and standing, or issued twice, and every record has a row,
      standing or unfinished, with its owner and capability. */
  lemma RulesSpelledOut(state: Objects, grants: seq<LedgerEntry>, incomplete: seq<IncompleteEffect>)
    ensures Consistent(state, grants, incomplete)
            <==> && (forall h | h in state :: FirstBrokenRule(state[h].capability).None?)
                 && (forall i | 0 <= i < |grants| ::
                       FirstBrokenRule(grants[i].capability).None? && grants[i].handle.cls == grants[i].capability.Class())
                 && (forall i | 0 <= i < |incomplete| :: FirstBrokenRule(incomplete[i].operation.capability).None?)
                 && (forall i, j | 0 <= i < j < |incomplete| :: incomplete[i].operation.Address() != incomplete[j].operation.Address())
                 && (forall i | 0 <= i < |incomplete| :: incomplete[i].operation.Address() !in state)
                 && (forall i, j | 0 <= i < j < |grants| :: grants[i].handle != grants[j].handle)
                 && (forall i | 0 <= i < |grants| :: HasItsRow(state, incomplete, grants[i]))
  {
    RuleNumbers(state, grants, incomplete);
    FirstFourRules(state, grants, incomplete);
    if Rule(2, state, grants, incomplete) && Rule(3, state, grants, incomplete) {
      LastTwoRules(state, grants, incomplete);
    }
  }

  lemma FirstFourRules(state: Objects, grants: seq<LedgerEntry>, incomplete: seq<IncompleteEffect>)
    ensures Rule(1, state, grants, incomplete)
            <==> && (forall h | h in state :: FirstBrokenRule(state[h].capability).None?)
                 && (forall i | 0 <= i < |grants| ::
                       FirstBrokenRule(grants[i].capability).None? && grants[i].handle.cls == grants[i].capability.Class())
                 && (forall i | 0 <= i < |incomplete| :: FirstBrokenRule(incomplete[i].operation.capability).None?)
    ensures Rule(2, state, grants, incomplete)
            <==> forall i, j | 0 <= i < j < |incomplete| :: incomplete[i].operation.Address() != incomplete[j].operation.Address()
    ensures Rule(3, state, grants, incomplete)
            <==> forall i | 0 <= i < |incomplete| :: incomplete[i].operation.Address() !in state
    ensures Rule(4, state, grants, incomplete) <==> forall i, j | 0 <= i < j < |grants| :: grants[i].handle != grants[j].handle
  {
    var effects, records := EffectHandles(incomplete), RecordHandles(grants);
    assert forall i | 0 <= i < |incomplete| :: incomplete[i].operation.Address() == effects[i];
    assert forall i | 0 <= i < |grants| :: grants[i].handle == records[i];
    assert Rule(1, state, grants, incomplete) ==> forall i | 0 <= i < |grants| :: grants[i] in grants;
    assert Rule(1, state, grants, incomplete) ==> forall i | 0 <= i < |incomplete| :: incomplete[i] in incomplete;
    if Rule(3, state, grants, incomplete) {
      forall i | 0 <= i < |incomplete| ensures incomplete[i].operation.Address() !in state {
        assert incomplete[i] in incomplete && incomplete[i].Address() !in state;
      }
    }
  }

  lemma LastTwoRules(state: Objects, grants: seq<LedgerEntry>, incomplete: seq<IncompleteEffect>)
    requires Rule(2, state, grants, incomplete) && Rule(3, state, grants, incomplete)
    ensures Rule(5, state, grants, incomplete) && Rule(6, state, grants, incomplete)
            <==> forall i | 0 <= i < |grants| :: HasItsRow(state, incomplete, grants[i])
  {
    if Rule(5, state, grants, incomplete) && Rule(6, state, grants, incomplete) {
      forall i | 0 <= i < |grants| ensures HasItsRow(state, incomplete, grants[i]) {
        assert grants[i] in grants;
        RowOfRecord(state, incomplete, grants[i]);
      }
    }
    if forall i | 0 <= i < |grants| :: HasItsRow(state, incomplete, grants[i]) {
      forall g | g in grants ensures Agrees(state, incomplete, g) && Held(state, incomplete, g.handle) {
        RecordOfRow(state, incomplete, g);
      }
    }
  }

  /** One row at the record's address, standing or unfinished, carries its owner and capability. */
  ghost predicate HasItsRow(state: Objects, incomplete: seq<IncompleteEffect>, g: LedgerEntry) {
    || (g.handle in state && state[g.handle].owner == g.owner && state[g.handle].capability == g.capability)
    || (exists i :: 0 <= i < |incomplete| && incomplete[i].operation.Address() == g.handle
                    && incomplete[i].operation.owner == g.owner && incomplete[i].operation.capability == g.capability)
  }

  lemma RuleNumbers(state: Objects, grants: seq<LedgerEntry>, incomplete: seq<IncompleteEffect>)
    ensures Consistent(state, grants, incomplete)
            <==> && Rule(1, state, grants, incomplete) && Rule(2, state, grants, incomplete)
                 && Rule(3, state, grants, incomplete) && Rule(4, state, grants, incomplete)
                 && Rule(5, state, grants, incomplete) && Rule(6, state, grants, incomplete)
  {
    if && Rule(1, state, grants, incomplete) && Rule(2, state, grants, incomplete)
       && Rule(3, state, grants, incomplete) && Rule(4, state, grants, incomplete)
       && Rule(5, state, grants, incomplete) && Rule(6, state, grants, incomplete)
    {
      forall n | 1 <= n <= 6 ensures Rule(n, state, grants, incomplete) {
        assert n == 1 || n == 2 || n == 3 || n == 4 || n == 5 || n == 6;
      }
    }
  }

  lemma RowOfRecord(state: Objects, incomplete: seq<IncompleteEffect>, g: LedgerEntry)
    requires Agrees(state, incomplete, g) && Held(state, incomplete, g.handle)
    ensures HasItsRow(state, incomplete, g)
  {
    if g.handle !in state {
      var e :| e in incomplete && e.Address() == g.handle;
      var i :| 0 <= i < |incomplete| && incomplete[i] == e;
    }
  }

  lemma RecordOfRow(state: Objects, incomplete: seq<IncompleteEffect>, g: LedgerEntry)
    requires NoRepeat(EffectHandles(incomplete)) && NothingStandsUnfinished(state, incomplete)
    requires HasItsRow(state, incomplete, g)
    ensures Agrees(state, incomplete, g) && Held(state, incomplete, g.handle)
  {
    if g.handle !in state {
      var i :| 0 <= i < |incomplete| && incomplete[i].operation.Address() == g.handle
               && incomplete[i].operation.owner == g.owner && incomplete[i].operation.capability == g.capability;
      assert incomplete[i] in incomplete && incomplete[i].Address() == g.handle;
      forall e | e in incomplete && e.Address() == g.handle ensures e == incomplete[i] {
        var j :| 0 <= j < |incomplete| && incomplete[j] == e;
        assert EffectHandles(incomplete)[i] == EffectHandles(incomplete)[j];
      }
    } else {
      forall i | 0 <= i < |incomplete| ensures incomplete[i].operation.Address() != g.handle {
        assert incomplete[i] in incomplete && incomplete[i].Address() !in state;
      }
    }
  }

  // ---------------------------------------------------------------- building the account

  method CheckRows(state: Objects, grants: seq<LedgerEntry>, incomplete: seq<IncompleteEffect>)
    returns (refusal: Option<BackendError>)
    ensures refusal == RowVerdict(state, grants, incomplete)
  {
    var objects := Values(state);
    for i := 0 to |objects|
      invariant First(objects[..i], BadObject).None?
    {
      FirstStep(objects, BadObject, i);
      if !objects[i].capability.Valid() {
        return Some(Invalid(objects[i].Address(), objects[i].capability));
      }
    }
    assert objects[..|objects|] == objects;
    for i := 0 to |grants|
      invariant First(grants[..i], BadRecord).None?
    {
      FirstStep(grants, BadRecord, i);
      if !grants[i].capability.Valid() {
        return Some(Invalid(grants[i].handle, grants[i].capability));
      }
      if grants[i].handle.cls != grants[i].capability.Class() {
        return Some(Fault(ClassMismatch(grants[i].handle)));
      }
    }
    assert grants[..|grants|] == grants;
    for i := 0 to |incomplete|
      invariant First(incomplete[..i], BadEffect).None?
    {
      FirstStep(incomplete, BadEffect, i);
      if !incomplete[i].operation.capability.Valid() {
        return Some(Invalid(incomplete[i].Address(), incomplete[i].operation.capability));
      }
    }
    assert incomplete[..|incomplete|] == incomplete;
    refusal := None;
  }

  function Keyed(incomplete: seq<IncompleteEffect>): map<Handle, IncompleteEffect> {
    if incomplete == [] then
      map[]
    else
      var last := incomplete[|incomplete| - 1];
      Keyed(incomplete[..|incomplete| - 1])[last.Address() := last]
  }

  lemma {:induction false} KeyedSpec(incomplete: seq<IncompleteEffect>, h: Handle)
    ensures h in Keyed(incomplete) <==> h in EffectHandles(incomplete)
    ensures h in Keyed(incomplete) ==> Keyed(incomplete)[h] in incomplete && Keyed(incomplete)[h].Address() == h
  {
    if incomplete != [] {
      var front, last := incomplete[..|incomplete| - 1], incomplete[|incomplete| - 1];
      KeyedSpec(front, h);
      assert EffectHandles(incomplete) == EffectHandles(front) + [last.Address()];
      assert incomplete == front + [last];
    }
  }

  lemma KeyedIsByAddress(incomplete: seq<IncompleteEffect>)
    requires NoRepeat(EffectHandles(incomplete))
    ensures ByAddress(Keyed(incomplete), incomplete)
  {
    forall h: Handle
      ensures h in Keyed(incomplete) <==> h in EffectHandles(incomplete)
      ensures h in Keyed(incomplete) ==> Keyed(incomplete)[h] in incomplete && Keyed(incomplete)[h].Address() == h
    {
      KeyedSpec(incomplete, h);
    }
    forall e | e in incomplete ensures e.Address() in EffectHandles(incomplete) {
      var i :| 0 <= i < |incomplete| && incomplete[i] == e;
      assert EffectHandles(incomplete)[i] == e.Address();
    }
  }

  /** Rule 2, and on success the unfinished effects by address. */
  method Unfinished(incomplete: seq<IncompleteEffect>)
    returns (twice: Option<Handle>, unfinished: map<Handle, IncompleteEffect>)
    ensures twice == FirstRepeat(EffectHandles(incomplete))
    ensures twice.None? ==> ByAddress(unfinished, incomplete)
  {
    unfinished := map[];
    ghost var handles := EffectHandles(incomplete);
    for i := 0 to |incomplete|
      invariant FirstRepeat(handles[..i]).None?
      invariant unfinished == Keyed(incomplete[..i])
    {
      FirstRepeatStep(handles, i);
      var address := incomplete[i].Address();
      KeyedSpec(incomplete[..i], address);
      assert EffectHandles(incomplete[..i]) == handles[..i];
      if address in unfinished {
        return Some(address), map[];
      }
      assert incomplete[..i + 1][..i] == incomplete[..i];
      unfinished := unfinished[address := incomplete[i]];
    }
    assert handles[..|handles|] == handles && incomplete[..|incomplete|] == incomplete;
    KeyedIsByAddress(incomplete);
    twice := None;
  }

  /** Rule 4. */
  method Reissued(grants: seq<LedgerEntry>) returns (twice: Option<Handle>)
    ensures twice == FirstRepeat(RecordHandles(grants))
  {
    var issued: set<Handle> := {};
    ghost var handles := RecordHandles(grants);
    for i := 0 to |grants|
      invariant FirstRepeat(handles[..i]).None?
      invariant issued == set h | h in handles[..i]
    {
      FirstRepeatStep(handles, i);
      assert handles[..i + 1] == handles[..i] + [grants[i].handle];
      if grants[i].handle in issued {
        return Some(grants[i].handle);
      }
      issued := issued + {grants[i].handle};
    }
    assert handles[..|handles|] == handles;
    twice := None;
  }

  ghost predicate ByAddress(unfinished: map<Handle, IncompleteEffect>, incomplete: seq<IncompleteEffect>) {
    && NoRepeat(EffectHandles(incomplete))
    && (forall e | e in incomplete :: e.Address() in unfinished)
    && (forall h | h in unfinished :: unfinished[h] in incomplete && unfinished[h].Address() == h)
  }

  /** Rules 5 and 6: the first record another row contradicts, then the first without a row. */
  method Unsupported(state: Objects, grants: seq<LedgerEntry>, incomplete: seq<IncompleteEffect>,
                     unfinished: map<Handle, IncompleteEffect>)
    returns (differs: Option<LedgerEntry>, orphan: Option<LedgerEntry>)
    requires ByAddress(unfinished, incomplete)
    ensures differs == First(grants, (g: LedgerEntry) => !Agrees(state, incomplete, g))
    ensures differs.None? ==> orphan == First(grants, (g: LedgerEntry) => !Held(state, incomplete, g.handle))
  {
    ghost var bad := (g: LedgerEntry) => !Agrees(state, incomplete, g);
    for i := 0 to |grants|
      invariant First(grants[..i], bad).None?
    {
      FirstStep(grants, bad, i);
      var g := grants[i];
      EffectsAgree(state, incomplete, unfinished, g);
      if (g.handle in state && ContentOf(state[g.handle]) != (g.owner, g.capability))
         || (g.handle !in state && g.handle in unfinished && unfinished[g.handle].Content() != (g.owner, g.capability)) {
        return Some(g), None;
      }
    }
    assert grants[..|grants|] == grants;
    differs := None;
    ghost var lost := (g: LedgerEntry) => !Held(state, incomplete, g.handle);
    for i := 0 to |grants|
      invariant First(grants[..i], lost).None?
    {
      FirstStep(grants, lost, i);
      if grants[i].handle !in state && grants[i].handle !in unfinished {
        return None, Some(grants[i]);
      }
    }
    assert grants[..|grants|] == grants;
    orphan := None;
  }

  lemma EffectsAgree(state: Objects, incomplete: seq<IncompleteEffect>, unfinished: map<Handle, IncompleteEffect>,
                     g: LedgerEntry)
    requires ByAddress(unfinished, incomplete)
    ensures g.handle !in state && g.handle in unfinished ==>
              (Agrees(state, incomplete, g) <==> unfinished[g.handle].Content() == (g.owner, g.capability))
    ensures g.handle !in state && g.handle !in unfinished ==> Agrees(state, incomplete, g)
  {
    forall e | e in incomplete && e.Address() == g.handle ensures e == unfinished[g.handle] {
      var i :| 0 <= i < |incomplete| && incomplete[i] == e;
      var j :| 0 <= j < |incomplete| && incomplete[j] == unfinished[g.handle];
      assert EffectHandles(incomplete)[i] == EffectHandles(incomplete)[j];
    }
  }

  /** `EnforcementSnapshot::new`. */
  method New(state: Objects, grants: seq<LedgerEntry>, incomplete: seq<IncompleteEffect>)
    returns (r: Result<EnforcementSnapshot, BackendError>)
    ensures r == Account(state, grants, incomplete)
  {
    var row := CheckRows(state, grants, incomplete);
    if row.Some? {
      return Err(row.value);
    }
    var twice, unfinished := Unfinished(incomplete);
    if twice.Some? {
      return Err(IdentityConflict(twice.value));
    }
    ghost var both := (e: IncompleteEffect) => e.Address() in state;
    for i := 0 to |incomplete|
      invariant First(incomplete[..i], both).None?
    {
      FirstStep(incomplete, both, i);
      if incomplete[i].Address() in state {
        return Err(IdentityConflict(incomplete[i].Address()));
      }
    }
    assert incomplete[..|incomplete|] == incomplete;
    var reissued := Reissued(grants);
    if reissued.Some? {
      return Err(IdentityConflict(reissued.value));
    }
    var differs, orphan := Unsupported(state, grants, incomplete, unfinished);
    if differs.Some? {
      return Err(IdentityConflict(differs.value.handle));
    }
    if orphan.Some? {
      return Err(Fault(NoHolding(orphan.value.handle)));
    }
    r := Ok(EnforcementSnapshot(
              state, Sorting.Sort(RecordBefore, grants), Sorting.Sort(EffectBefore, incomplete)));
  }

  // ---------------------------------------------------------------- normal form

  lemma OrdersAreStrict()
    ensures Sorting.StrictOrder(RecordBefore) && Sorting.StrictOrder(EffectBefore)
  {
    BeforeIsStrict();
  }

  lemma NoRepeatNoTies(grants: seq<LedgerEntry>, incomplete: seq<IncompleteEffect>)
    ensures NoRepeat(RecordHandles(grants)) ==> Sorting.NoTies(RecordBefore, grants)
    ensures NoRepeat(EffectHandles(incomplete)) ==> Sorting.NoTies(EffectBefore, incomplete)
  {
    BeforeIsTotal();
    forall i, j | 0 <= i < j < |grants| && NoRepeat(RecordHandles(grants))
      ensures grants[i].handle != grants[j].handle
    {
      assert RecordHandles(grants)[i] != RecordHandles(grants)[j];
    }
    forall i, j | 0 <= i < j < |incomplete| && NoRepeat(EffectHandles(incomplete))
      ensures incomplete[i].Address() != incomplete[j].Address()
    {
      assert EffectHandles(incomplete)[i] != EffectHandles(incomplete)[j];
    }
  }

  lemma NoTiesNoRepeat(grants: seq<LedgerEntry>, incomplete: seq<IncompleteEffect>)
    ensures Sorting.NoTies(RecordBefore, grants) ==> NoRepeat(RecordHandles(grants))
    ensures Sorting.NoTies(EffectBefore, incomplete) ==> NoRepeat(EffectHandles(incomplete))
  {
    BeforeIsStrict();
  }

  /** The rules read their rows as sets, so reordering the rows breaks none of them. */
  lemma ConsistencyIsOrderFree(state: Objects, grants: seq<LedgerEntry>, grants': seq<LedgerEntry>,
                               incomplete: seq<IncompleteEffect>, incomplete': seq<IncompleteEffect>)
    requires multiset(grants) == multiset(grants') && multiset(incomplete) == multiset(incomplete')
    requires Consistent(state, grants, incomplete)
    ensures Consistent(state, grants', incomplete')
  {
    Sorting.SameMembers(grants, grants');
    Sorting.SameMembers(incomplete, incomplete');
    assert forall n | 1 <= n <= 6 :: Rule(n, state, grants, incomplete);
    assert Rule(1, state, grants, incomplete) && Rule(2, state, grants, incomplete);
    assert Rule(3, state, grants, incomplete) && Rule(4, state, grants, incomplete);
    assert Rule(5, state, grants, incomplete) && Rule(6, state, grants, incomplete);
    OrdersAreStrict();
    NoRepeatNoTies(grants, incomplete);
    Sorting.NoTiesIsOrderFree(RecordBefore, grants, grants');
    Sorting.NoTiesIsOrderFree(EffectBefore, incomplete, incomplete');
    NoTiesNoRepeat(grants', incomplete');
    AgreementIsOrderFree(state, grants', incomplete, incomplete');
  }

  lemma AgreementIsOrderFree(state: Objects, grants: seq<LedgerEntry>,
                             incomplete: seq<IncompleteEffect>, incomplete': seq<IncompleteEffect>)
    requires forall e :: e in incomplete <==> e in incomplete'
    ensures forall g: LedgerEntry :: Agrees(state, incomplete, g) <==> Agrees(state, incomplete', g)
    ensures forall h: Handle :: Held(state, incomplete, h) <==> Held(state, incomplete', h)
  {
  }

  /** Every order of the same rows gives the same account, with rows in strict address order, or
      is refused too. */
  lemma AccountIsNormalForm(state: Objects, grants: seq<LedgerEntry>, grants': seq<LedgerEntry>,
                            incomplete: seq<IncompleteEffect>, incomplete': seq<IncompleteEffect>)
    requires multiset(grants) == multiset(grants') && multiset(incomplete) == multiset(incomplete')
    ensures Account(state, grants, incomplete).Ok? <==> Account(state, grants', incomplete').Ok?
    ensures Account(state, grants, incomplete).Ok? ==>
              var s := Account(state, grants, incomplete).value;
              && Account(state, grants', incomplete') == Ok(s)
              && s.state == state
              && multiset(s.grants) == multiset(grants) && Sorting.StrictlySorted(RecordBefore, s.grants)
              && multiset(s.incomplete) == multiset(incomplete) && Sorting.StrictlySorted(EffectBefore, s.incomplete)
  {
    VerdictFollowsTheRules(state, grants, incomplete);
    VerdictFollowsTheRules(state, grants', incomplete');
    if Consistent(state, grants, incomplete) {
      ConsistencyIsOrderFree(state, grants, grants', incomplete, incomplete');
      ConsistentSortsAlike(state, grants, grants', incomplete, incomplete');
    } else if Consistent(state, grants', incomplete') {
      ConsistencyIsOrderFree(state, grants', grants, incomplete', incomplete);
    }
  }

  lemma ConsistentSortsAlike(state: Objects, grants: seq<LedgerEntry>, grants': seq<LedgerEntry>,
                             incomplete: seq<IncompleteEffect>, incomplete': seq<IncompleteEffect>)
    requires multiset(grants) == multiset(grants') && multiset(incomplete) == multiset(incomplete')
    requires Consistent(state, grants, incomplete)
    ensures Sorting.Sort(RecordBefore, grants) == Sorting.Sort(RecordBefore, grants')
    ensures Sorting.Sort(EffectBefore, incomplete) == Sorting.Sort(EffectBefore, incomplete')
    ensures Sorting.StrictlySorted(RecordBefore, Sorting.Sort(RecordBefore, grants))
    ensures Sorting.StrictlySorted(EffectBefore, Sorting.Sort(EffectBefore, incomplete))
  {
    assert Rule(2, state, grants, incomplete) && Rule(4, state, grants, incomplete);
    OrdersAreStrict();
    NoRepeatNoTies(grants, incomplete);
    Sorting.PermutationSortsAlike(RecordBefore, grants, grants');
    Sorting.PermutationSortsAlike(EffectBefore, incomplete, incomplete');
  }
}
