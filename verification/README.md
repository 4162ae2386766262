# A model of the plasmosome enforcement backend

plasmosome grants a guest cell its mounts, sockets, proxies and brokered credentials through
enforcement backends. This project models the logic that the rest of the system leans on and proves
what that logic promises, over every input, every call sequence or every clock run:

- **The ledger.** A backend keeps three maps by address: standing objects, issued records and
  unfinished effects, and a few tables of armed faults. `Ledgers` states each call as a step on a
  value, `FakeBackends.FakeBackend` is the mutable backend proved call by call against those steps,
  `LedgerContracts` states what each
  call owes its caller, how long things stand and where an armed fault bites, and `LedgerTheorems`
  holds the results over whole runs. `Snapshots` is the account a backend
  gives of itself, with its six ordered rules, and `OsStates` the standing objects with their exact
  diff and their canonical comparison.
- **The composite.** Three class-routed leaves answer every call exactly as one backend would
  (`Composites`), and the routing backend is proved against that (`CompositeBackends`).
- **Lifetimes.** `Calendar`, `Timestamps` and `TimestampTexts` cover civil dates and exactly which
  RFC 3339 texts are instants (sections 5.6 and 5.7 of RFC 3339), `Lifetimes` the two-clock bound, and `Fences` the rule that
  keeps a passed bound passed while the wall clock steps either way.
- **Paging.** `Paging` and `PagingRuns` are the responder's capture slot over whole runs, `PageAssembly` the caller's
  reassembly from a peer that may misbehave, and the two driven against each other.
- **Pinned trees.** `Listings`, `ListingRules`, `PinnedTrees`, `Pins`, `TreePaths` and `Digests` cover what a package listing may
  say, the walk that compares it with a tree, and the text whose hash names the result.
- **The ignored-test report.** `IgnoredTests` folds a job's log into blocks in place, and proves that
  nothing in the log is lost on the way to the table; `ReportRules` says exactly when the report
  refuses, and for what.

`Wrappers`, `Widths`, `Sorting`, `Maps`, `Texts` and `Decimals` are the shared ground.

## How to read it

State the source changes in place is a class here (`OsState`, `FakeBackend`, `CompositeBackend`,
`ManualClock`, `CaptureSlot`, `PageAssembler`, `Walk`, `Block`). Each of its methods is proved equal to
a step function on values, its new state and its answer both, and the theorems are about the runs
of those functions.

- Capability validity (`FirstBrokenRule`), SHA-256 (`Sha256`), the JSON decoder (`DecodeJson`) and
  the test for UTF-8 names (`IsUtf8`) are constants with no value given, so every result holds
  whatever they are. Nothing here assumes that SHA-256 has no collisions.
- A grant identity is a natural number, an owner a pair of names, a recipe an opaque record. An
  operation is one record of identity, owner and capability, where the source has a variant per
  class with the same fields inline. A fault names its cause by kind, not by wording.
- Texts and byte strings are sequences of characters, one character a byte.
- Stored readings keep the source's 64-bit bounds. Instants and signed nanoseconds are unbounded
  integers, so the fallback for an instant the platform cannot hold has no counterpart.
- The fence follows the documented rule, whose subtraction saturates. The helper `fenced`
  (crates/plasmosome-backend/src/lifetime.rs:668-680) converts the time overdue to 64 bits first
  and panics on one that does not fit.

## Where the code and its documentation part

- The report's header (tools/ignored_tests.py:20-24) says that a repeated block outside a failing
  test's output refuses the report. The code never refuses a block for repeating: among blocks that
  are not folded, exactly the unlisted ones refuse (`ElsewhereRefusesUnlisted`,
  `RepeatIsNeverRefused`, and the log in `RepeatedRunIsVouchedFor`).
- The fence rule is said to give the old bound back at a refused reading
  (crates/plasmosome-backend/src/lifetime.rs:190-193). For a passed bound it does so exactly when
  the bound is of the reading's own boot session and either the wall reading is overdue by no more
  than the continuous one or the deadline is 0 already (`RefusedReadingKeepsBound`, with a failing
  reading of each kind in `RefusedReadingCanMoveBound`).
- Applying the rule again is said to keep a reached cap reached
  (crates/plasmosome-backend/src/lifetime.rs:186-189). Over a run, and wherever the wall clock is
  put, that holds exactly when no reading since has zeroed the deadline, by a saturated fence or a
  refusal, or the extra time since boot has gone by (`KeptCapStaysReached`, with a failing run in
  `CapCanBeLost`; `CapStaysReached` is the case of a single fence).

## Model

| member | source | states |
|---|---|---|
| `OsStates.OsState.Insert` | crates/plasmosome-backend/src/universe.rs:370-383 | The new state and answer are those of `Inserted`: a vacant slot takes the object, an equal one answers false, another conflicts and nothing changes; every object still stands at its own address. |
| `OsStates.OsState.Remove` | crates/plasmosome-backend/src/universe.rs:387-394 | Takes exactly the object the removal and owner select, or nothing. |
| `OsStates.RemoveUndoesInsert` | crates/plasmosome-backend/src/universe.rs:370-402 | A removal selects an address exactly when the very object stands there, and taking an object just inserted gives the old state back. |
| `OsStates.InsertAndRemoveOutcomes` | crates/plasmosome-backend/src/universe.rs:370-402 | An insertion takes a vacant slot, answers false for the same object and conflicts with any other; a removal takes the very object it spells out or nothing. |
| `OsStates.OsState.CanonicalMultiset` | crates/plasmosome-backend/src/universe.rs:427-435 | The counting loop yields, for each owner and capability, how many addresses hold it. |
| `OsStates.EquivalentIsRenaming` | crates/plasmosome-backend/src/universe.rs:422-435 | The counts agree exactly when some bijection of the addresses keeps owner and capability. |
| `OsStates.OsState.CanonicallyEquivalent` | crates/plasmosome-backend/src/universe.rs:423-425 | Answers true exactly when such a bijection exists. |
| `OsStates.DiffEmptyIffEqual` | crates/plasmosome-backend/src/universe.rs:508-526 | The exact diff is empty exactly when the two states are equal. |
| `OsStates.DiffIsPatch` | crates/plasmosome-backend/src/universe.rs:507-522 | Taking every removed object out of the first state and putting every added one into a vacant slot always succeeds and gives the second state. |
| `OsStates.DiffIsExact` | crates/plasmosome-backend/src/universe.rs:507-522 | The diff lists exactly the objects one state holds and the other does not, each side in address order. |
| `Universe.DrainSpec.DeadlineMs` | crates/plasmosome-backend/src/backend.rs:325-327 | The deadline in milliseconds, rounded up, so only a zero deadline reports 0; saturates at the 64-bit maximum. |
| `Universe.OneAddress` | crates/plasmosome-backend/src/universe.rs:312-318 | An operation, its object, its removal and its record name one address, and an object gives its operation back. |
| `Universe.ClassesAndKeys` | crates/plasmosome-backend/src/backend.rs:124-134 | Each capability's class and diagnostic key, and the order of the classes in addresses. |
| `Snapshots.VerdictFollowsTheRules` | crates/plasmosome-backend/src/snapshot.rs:51-145 | An account is accepted exactly when all six rules hold; otherwise its error names the first offender of the first broken rule, in the documented order and with that rule's kind of error. |
| `Snapshots.RulesSpelledOut` | crates/plasmosome-backend/src/snapshot.rs:51-69 | The six rules hold exactly when every row is valid, every record is of its own class, no address is unfinished twice, unfinished and standing, or issued twice, and every record has a row with its owner and capability. |
| `Snapshots.CheckRows` | crates/plasmosome-backend/src/snapshot.rs:75-89 | The first invalid row, over objects, then records, then effects. |
| `Snapshots.Unfinished` | crates/plasmosome-backend/src/snapshot.rs:90-95 | The loop finds the first repeated effect address or builds the map of effects by address. |
| `Snapshots.Reissued` | crates/plasmosome-backend/src/snapshot.rs:112-117 | The loop finds the first repeated record address, if there is one. |
| `Snapshots.Unsupported` | crates/plasmosome-backend/src/snapshot.rs:118-137 | The first record that disagrees with its row, before the first record with no row at all. |
| `Snapshots.New` | crates/plasmosome-backend/src/snapshot.rs:70-145 | The whole constructor gives the verdict's first error or the rows in address order. |
| `Snapshots.ConsistencyIsOrderFree` | crates/plasmosome-backend/src/snapshot.rs:68-145 | Reordering records and effects breaks no rule. |
| `Snapshots.AccountIsNormalForm` | crates/plasmosome-backend/src/snapshot.rs:68-145 | Every order of the same rows gives the same account, holding exactly those rows in strict address order, or every order is refused. |
| `Ledgers.StepIsLocal` | crates/plasmosome-backend/src/fake.rs:139-261 | Every call leaves every address but its own exactly as it was: object, record and unfinished effect. |
| `Ledgers.StepKeepsSound` | crates/plasmosome-backend/src/fake.rs:106-261 | Every call keeps the invariant: nothing stands and is unfinished at once, every row is valid and at its own address, and every record agrees with the one row there. |
| `Ledgers.RunKeepsSound` | crates/plasmosome-backend/src/fake.rs:106-261 | So does every sequence of calls and armed faults. |
| `LedgerTheorems.SnapshotShowsLedger` | crates/plasmosome-backend/src/fake.rs:179-193 | A sound ledger always has an account, which is its three maps, in strict address order. |
| `LedgerTheorems.SnapshotIsTotal` | crates/plasmosome-backend/src/fake.rs:179-193 | After any calls from a new backend, a snapshot fails only for an armed observation fault, once, changing nothing else, and the next one shows everything. |
| `LedgerTheorems.RevokeFindsItsHolding` | crates/plasmosome-backend/src/fake.rs:168-177 | After any calls, revoking a live handle returns its record, times out gracefully or meets an armed failure, and never reports an unknown object; any other handle is unknown. |
| `LedgerTheorems.GrantAll` | crates/plasmosome-backend/src/fake.rs:139-166 | Granting any list of valid operations at unused addresses issues every record and adds exactly those holdings. |
| `LedgerTheorems.RevokeAll` | crates/plasmosome-backend/src/fake.rs:168-177 | Force-revoking them in any order returns each its record and takes exactly those holdings away. |
| `LedgerTheorems.GrantsAreReversible` | crates/plasmosome-backend/src/fake.rs:139-251 | Granting and then force-revoking in any order restores the ledger exactly; only the revocation log grows and the stuck marks at those addresses clear. |
| `LedgerTheorems.UnfinishedStep` | crates/plasmosome-backend/src/fake.rs:106-260 | A call ends an unfinished effect if and only if it withdraws exactly that holding and succeeds. |
| `LedgerTheorems.UnfinishedUntilWithdrawn` | crates/plasmosome-backend/src/fake.rs:203-260 | Over any run without such a withdrawal, the unfinished operation stays. |
| `LedgerTheorems.UnfinishedAnswers` | crates/plasmosome-backend/src/backend.rs:427-482 | While it stays, a grant or apply of it answers with the incomplete effect and its kept detail, and any other valid operation or plant there conflicts; nothing changes. |
| `LedgerTheorems.DetailStep` | crates/plasmosome-backend/src/fake.rs:203-251 | While it stays, one call changes its detail only by a failed withdrawal of exactly that holding, to the text armed there, which the answer carries. |
| `LedgerTheorems.DetailIsLatest` | crates/plasmosome-backend/src/backend.rs:435-438 | Over any run in which it stays, the detail kept is the latest failure's among the answers. |
| `LedgerTheorems.RetryReportsLatest` | crates/plasmosome-backend/src/backend.rs:435-438 | So after any such run a grant or apply of it answers with the latest failure's detail and changes nothing. |
| `LedgerTheorems.ForcedRemoval` | crates/plasmosome-backend/src/fake.rs:203-251 | A forced exact removal clears an unfinished address, unless a failure is armed there: then it uses that up and keeps the operation and its record. |
| `LedgerTheorems.TwoForcedRemovalsClear` | crates/plasmosome-backend/src/fake.rs:203-251 | Two forced exact removals always clear it, whatever calls come between that neither arm a failure there nor withdraw it. |
| `LedgerTheorems.FailedWithdrawalKeepsRecord` | crates/plasmosome-backend/src/fake.rs:237-246 | A withdrawal that fails after release moves the holding to unfinished, keeps its record and uses the armed failure up. |
| `LedgerContracts.InvalidIsRefused` | crates/plasmosome-backend/src/fake.rs:106-260 | A grant, apply or plant of an invalid capability names the first broken rule, before any fault, and changes nothing. |
| `LedgerContracts.RefusedOwnerIsRefused` | crates/plasmosome-backend/src/fake.rs:106-116 | A refused owner's valid grant or apply fails with the armed cause and changes nothing, unless an unfinished effect comes first. |
| `LedgerContracts.ApplyRecords` | crates/plasmosome-backend/src/fake.rs:195-201 | An apply records its object at a vacant address and leaves everything else; the same object again is nothing, another conflicts, and a doomed owner's operation is left unfinished only where nothing stands. |
| `LedgerContracts.GrantIssues` | crates/plasmosome-backend/src/backend.rs:426-446 | A grant issues the operation's own address, owner and capability with the asked kind; a retry returns the record; another owner, capability or kind, or an applied or planted object, conflicts. |
| `LedgerContracts.PlantRecords` | crates/plasmosome-backend/src/fake.rs:253-260 | A plant records its object whatever its owner's faults, repeats as nothing, and conflicts with another object or an unfinished effect. |
| `LedgerContracts.RemovalOutcome` | crates/plasmosome-backend/src/backend.rs:459-476 | A removal is unknown exactly when neither a standing object nor an unfinished operation is that very holding, times out exactly when graceful with the address stuck or the owner stalled, fails exactly when a failure is armed, and otherwise clears the address; the first two change nothing. |
| `LedgerContracts.RevokeOutcome` | crates/plasmosome-backend/src/backend.rs:447-451 | A revocation of a live handle times out, fails or clears under the same conditions, returning and logging its record on success; any other handle is unknown. |
| `LedgerContracts.StandingStep` | crates/plasmosome-backend/src/fake.rs:139-260 | A standing object goes if and only if a withdrawal of exactly that holding releases it. |
| `LedgerContracts.StandsUntilReleased` | crates/plasmosome-backend/src/fake.rs:139-260 | Over every run that does not release it, an object stands, and the account shows the whole ledger. |
| `LedgerContracts.RecordStep` | crates/plasmosome-backend/src/fake.rs:139-260 | An issued record is retired if and only if exactly its holding is withdrawn successfully, and never changes otherwise. |
| `LedgerContracts.ArmingArms` | crates/plasmosome-backend/src/fake.rs:56-96 | Arming puts the fault in force and touches no address. |
| `LedgerContracts.ArmedStep` | crates/plasmosome-backend/src/fake.rs:56-260 | Only a call that replaces a fault or uses it up takes it out of force. |
| `LedgerContracts.ArmedFaultBites` | crates/plasmosome-backend/src/fake.rs:56-260 | After arming a fault and any run that does not disarm it, it bites exactly where it was aimed, with its own text: that owner's creations, graceful drains, the next release at that address, the next observation. |
| `FakeBackends.FakeBackend.constructor` | crates/plasmosome-backend/src/fake.rs:40-42 | A new backend holds nothing, and the invariant holds. |
| `FakeBackends.FakeBackend.Occupied` | crates/plasmosome-backend/src/fake.rs:118-122 | The scan finds an address exactly when something stands at it. |
| `FakeBackends.FakeBackend.FailAfterTheFirstEffect` | crates/plasmosome-backend/src/fake.rs:124-135 | Leaves the operation unfinished for a doomed owner, and does nothing for any other. |
| `FakeBackends.FakeBackend.Grant` | crates/plasmosome-backend/src/fake.rs:139-166 | New state and answer are the grant step's, whose outcomes are `GrantIssues`, and the invariant is kept. |
| `FakeBackends.FakeBackend.Revoke` | crates/plasmosome-backend/src/fake.rs:168-177 | New state and answer are the revocation step's, whose outcomes are `RevokeOutcome`, and the invariant is kept. |
| `FakeBackends.FakeBackend.SnapshotOsState` | crates/plasmosome-backend/src/fake.rs:179-193 | New state and answer are the observation step's, an armed fault being used up. |
| `FakeBackends.FakeBackend.Apply` | crates/plasmosome-backend/src/fake.rs:195-201 | New state and answer are the apply step's, whose outcomes are `ApplyRecords`, and the invariant is kept. |
| `FakeBackends.FakeBackend.Withdraw` | crates/plasmosome-backend/src/fake.rs:234-250 | Releasing a selected holding: an armed failure leaves it unfinished, otherwise object, record, effect and stuck mark all go. |
| `FakeBackends.FakeBackend.ApplyRemoval` | crates/plasmosome-backend/src/fake.rs:203-251 | New state and answer are the removal step's, whose outcomes are `RemovalOutcome`: the holding is resolved before the drain, the drain before the release. |
| `FakeBackends.FakeBackend.Plant` | crates/plasmosome-backend/src/fake.rs:253-260 | New state and answer are the plant step's, whose outcomes are `PlantRecords`, and the invariant is kept. |
| `FakeBackends.FakeBackend.FailBeforeEffectForOwner` | crates/plasmosome-backend/src/fake.rs:56-58 | Arms a refusal for one owner and changes nothing else. |
| `FakeBackends.FakeBackend.FailAfterEffectForOwner` | crates/plasmosome-backend/src/fake.rs:66-68 | Arms a failure after the first effect for one owner and changes nothing else. |
| `FakeBackends.FakeBackend.FailNextWithdrawalAt` | crates/plasmosome-backend/src/fake.rs:75-77 | Arms one withdrawal failure at an address and changes nothing else. |
| `FakeBackends.FakeBackend.MarkStuckAt` | crates/plasmosome-backend/src/fake.rs:81-83 | Marks one address stuck and changes nothing else. |
| `FakeBackends.FakeBackend.StallGracefulDrainsForOwner` | crates/plasmosome-backend/src/fake.rs:88-90 | Stalls one owner's graceful drains and changes nothing else. |
| `FakeBackends.FakeBackend.FailNextObservationWith` | crates/plasmosome-backend/src/fake.rs:94-96 | Arms one observation failure and changes nothing else. |
| `Composites.LeavesPartitionClasses` | crates/plasmosome-backend/src/composite.rs:38-163 | A class belongs to a leaf exactly when calls of that class are routed to it. |
| `Composites.RoutingTable` | crates/plasmosome-backend/src/composite.rs:38-44 | Which leaf each of the five classes is routed to. |
| `Composites.ObservationSplits` | crates/plasmosome-backend/src/composite.rs:56-75 | Observing the three leaves of a sound ledger answers exactly as observing the whole, with no foreign row and no conflict, and an armed fault refuses it once. |
| `Composites.CompositeStepRefines` | crates/plasmosome-backend/src/composite.rs:38-113 | For every call, the leaves of a sound ledger answer as the one backend and become the leaves of its next state. |
| `Composites.CompositeRefines` | crates/plasmosome-backend/src/composite.rs:38-113 | The same over every sequence of calls from any sound ledger. |
| `Composites.CompositeIsOneBackend` | crates/plasmosome-backend/src/composite.rs:38-113 | Three new leaves give, for every sequence of calls and faults, the same answers and the same holdings as one new backend. |
| `Composites.ForeignIsFirst` | crates/plasmosome-backend/src/composite.rs:115-163 | Whatever a leaf reports, the class check passes exactly when every row is routed to that leaf, and otherwise names the first row that is not, over records, then objects, then effects. |
| `Composites.JoinFailsOnTaken` | crates/plasmosome-backend/src/composite.rs:63-70 | Joining a leaf's rows fails exactly when one of their addresses is taken, naming such an address, and otherwise adds exactly those rows. |
| `Composites.GatherOutcome` | crates/plasmosome-backend/src/composite.rs:56-75 | One leaf's turn, whatever it answers: its own refusal, then an out-of-class fault, then a conflict, and otherwise exactly its rows added to the union. |
| `Composites.LeafShowsItsPart` | crates/plasmosome-backend/src/composite.rs:48-54 | A leaf's own snapshot is the account of exactly its classes' addresses of the whole. |
| `CompositeBackends.OnlyItsOwnClasses` | crates/plasmosome-backend/src/composite.rs:115-150 | Finds the first row of another leaf's class, over records, then objects, then effects. |
| `CompositeBackends.Join` | crates/plasmosome-backend/src/composite.rs:63-70 | Inserts a leaf's objects one by one, stopping at the first conflict. |
| `CompositeBackends.NewComposite` | crates/plasmosome-backend/src/composite.rs:24-36 | Construction observes every leaf and fails with the first failed observation. |
| `CompositeBackends.CompositeBackend.LeafSnapshot` | crates/plasmosome-backend/src/composite.rs:48-54 | One leaf's own observation, the others untouched. |
| `CompositeBackends.CompositeBackend.ObserveLeaf` | crates/plasmosome-backend/src/composite.rs:59-73 | One leaf's turn: observe, check its classes, join its rows; each failure ends it with that error. |
| `CompositeBackends.CompositeBackend.ObserveEveryLeaf` | crates/plasmosome-backend/src/composite.rs:56-75 | The loop over the leaves gives the union account or the first leaf's error. |
| `CompositeBackends.CompositeBackend.Grant` | crates/plasmosome-backend/src/composite.rs:79-86 | The grant reaches the leaf of its class, whose answer comes back unchanged. |
| `CompositeBackends.CompositeBackend.Revoke` | crates/plasmosome-backend/src/composite.rs:88-90 | The revocation reaches the leaf of the handle's class. |
| `CompositeBackends.CompositeBackend.SnapshotOsState` | crates/plasmosome-backend/src/composite.rs:92-94 | The composite's observation step. |
| `CompositeBackends.CompositeBackend.Apply` | crates/plasmosome-backend/src/composite.rs:96-98 | The operation reaches the leaf of its class. |
| `CompositeBackends.CompositeBackend.ApplyRemoval` | crates/plasmosome-backend/src/composite.rs:100-108 | The removal, its owner and its drain reach the leaf of its class. |
| `CompositeBackends.CompositeBackend.Plant` | crates/plasmosome-backend/src/composite.rs:110-112 | The residue reaches the leaf of its class. |
| `Calendar.YearOfEraIsFound` | crates/plasmosome-backend/src/lifetime.rs:361-363 | The closed formula for the year of an era is the year whose days contain the given day. |
| `Calendar.CivilThenDays` | crates/plasmosome-backend/src/lifetime.rs:348-373 | Every day number names a valid date from 1970 on, and that date counts back to it. |
| `Calendar.DaysThenCivil` | crates/plasmosome-backend/src/lifetime.rs:348-373 | Every valid date from 1970 on counts to a day number that names it. |
| `Calendar.NextDateCountsOne` | crates/plasmosome-backend/src/lifetime.rs:348-355 | The calendar's next date, by month lengths and leap years, is one day later in the count. |
| `Calendar.CivilCountsDays` | crates/plasmosome-backend/src/lifetime.rs:357-373 | Day 0 is 1970-01-01, and each next day number names the calendar's next date. |
| `Calendar.DaysOrderDates` | crates/plasmosome-backend/src/lifetime.rs:348-355 | One date is earlier than another if and only if its day number is less. |
| `Calendar.CivilIsMonotone` | crates/plasmosome-backend/src/lifetime.rs:357-373 | A later day number names a later date. |
| `Decimals.ReadNumber` | crates/plasmosome-backend/src/lifetime.rs:68-74 | The digit loop reads the decimal number, or nothing when a character is not a digit. |
| `Timestamps.ReadMillis` | crates/plasmosome-backend/src/lifetime.rs:82-85 | The scaling loop gives a fraction of up to three digits in milliseconds. |
| `Timestamps.ParseRfc3339` | crates/plasmosome-backend/src/lifetime.rs:56-108 | The parser decides as `Parsed`, which `FormIsExact` and `WrittenIsJudged` characterise text by text. |
| `Timestamps.FieldsNameInstant` | crates/plasmosome-backend/src/lifetime.rs:112-122 | The printed fields of every instant are in range and name it. |
| `Timestamps.InstantNamesFields` | crates/plasmosome-backend/src/lifetime.rs:87-122 | The instant that fields in range name has exactly those fields. |
| `Timestamps.PrintThenParse` | crates/plasmosome-backend/src/lifetime.rs:52-122 | Every instant up to 9999-12-31T23:59:59.999Z parses back from its text, and every later text is refused for its form. |
| `Timestamps.ParseThenPrint` | crates/plasmosome-backend/src/lifetime.rs:56-122 | Every accepted text reprints as itself with its fraction filled to three digits. |
| `Timestamps.PrintedOrder` | crates/plasmosome-backend/src/lifetime.rs:110-122 | In that range the byte order of texts is the order of the instants. |
| `TimestampTexts.FormIsExact` | crates/plasmosome-backend/src/lifetime.rs:52-80 | A text is refused for its form if and only if it does not write four, two, two, two, two and two digits with these separators, then nothing or a point and one to three digits, then `Z`. |
| `TimestampTexts.WrittenIsJudged` | crates/plasmosome-backend/src/lifetime.rs:68-108 | A text so written is refused for its month, day, hour, minute or second, whichever comes first, then for a year before 1970, and otherwise is the one instant whose fields it writes. |
| `TimestampTexts.ShorterTextsRead` | crates/plasmosome-backend/src/lifetime.rs:52-108 | Every instant up to the last reads back from its text with three fraction digits and from each shorter one that drops only zeros, down to none. |
| `TimestampTexts.PrintedIsWritten` | crates/plasmosome-backend/src/lifetime.rs:110-122 | Printing writes exactly that format with three fraction digits. |
| `TimestampTexts.FirstText` | crates/plasmosome-backend/src/lifetime.rs:110-122 | The first instant prints as 1970-01-01T00:00:00.000Z. |
| `TimestampTexts.LastText` | crates/plasmosome-backend/src/lifetime.rs:110-122 | The last instant of the range prints as 9999-12-31T23:59:59.999Z. |
| `Lifetimes.Bound.RemainingNs` | crates/plasmosome-backend/src/lifetime.rs:285-292 | Nothing is left on the lesser reading exactly when the bound has passed. |
| `Lifetimes.Bound.RemainingMs` | crates/plasmosome-backend/src/lifetime.rs:234-237 | The remaining time rounded up, and 0 exactly when the bound has passed. |
| `Lifetimes.Bound.WaitDeadline` | crates/plasmosome-backend/src/lifetime.rs:274-283 | The wait clock moved by exactly the remaining and the extra time, either way, with no saturation. |
| `Lifetimes.DurationFromNs` | crates/plasmosome-backend/src/lifetime.rs:295-300 | Building a duration from seconds and nanoseconds loses nothing while the seconds fit. |
| `Lifetimes.After` | crates/plasmosome-backend/src/lifetime.rs:209-218 | Exactly the asked time remains at once; the bound is passed at a reading exactly when the wall or, in the same session, the continuous reading has moved on by that time; and there is no bound exactly when a reading would overflow. |
| `Lifetimes.EarlierIsEither` | crates/plasmosome-backend/src/lifetime.rs:224-292 | In one session the earlier bound is passed when either is, with the minimum of both remaining times and both wait deadlines. |
| `Lifetimes.EarlierAcrossSessions` | crates/plasmosome-backend/src/lifetime.rs:244-259 | Across sessions it is passed when either is, except at exactly the readings of the dropped session past only its continuous deadline. |
| `Lifetimes.StepsAddUp` | crates/plasmosome-backend/src/clock.rs:68-101 | Any sequence of awake steps, saturating ones included, is one step of their total. |
| `Lifetimes.RemainingIsAwakeTime` | crates/plasmosome-backend/src/lifetime.rs:224-292 | While no reading saturates, any bound is passed after some awake milliseconds exactly when its remaining ones have gone by, and the remaining time shrinks by exactly those. |
| `Lifetimes.BoundOverAwakeRun` | crates/plasmosome-backend/src/lifetime.rs:209-292 | Over any awake run, a bound of some milliseconds passes exactly when they have gone by, and its wait deadline is one fixed instant while no reading saturates. |
| `Lifetimes.ManualClock.constructor` | crates/plasmosome-backend/src/clock.rs:39-50 | Starts at the given readings. |
| `Lifetimes.ManualClock.AdvanceWallMs` | crates/plasmosome-backend/src/clock.rs:53-55 | Only the wall reading moves, either way, held within 64 bits; continuous and wait time do not. |
| `Lifetimes.ManualClock.AdvanceContinuousMs` | crates/plasmosome-backend/src/clock.rs:58-60 | Only the continuous reading moves, as sleep does; saturating the product and then the sum is saturating once. |
| `Lifetimes.ManualClock.AdvanceWaitMs` | crates/plasmosome-backend/src/clock.rs:63-65 | Only the wait reading moves, by exactly the milliseconds in nanoseconds. |
| `Lifetimes.ManualClock.AdvanceAllMs` | crates/plasmosome-backend/src/clock.rs:68-73 | The three separate steps are one awake step of `Advanced`, whose runs `StepsAddUp` and `BoundOverAwakeRun` follow. |
| `Lifetimes.ManualClock.SetBoot` | crates/plasmosome-backend/src/clock.rs:76-81 | Only the continuous reading changes, to another session's. |
| `Fences.ClockStepsFollow` | crates/plasmosome-backend/src/clock.rs:53-101 | Awake time, sleep, a wall step either way and a refusal each lead from a reading to one that follows it. |
| `Fences.TraceGrows` | crates/plasmosome-backend/src/lifetime.rs:179-195 | A reading that follows the last good one, refusals between them or not, continues a run of the session. |
| `Fences.FenceHolds` | crates/plasmosome-backend/src/lifetime.rs:179-186 | On any run of one session, a fence at a passed good reading is passed at every later one; its wait deadline is earlier than at the fence by at least the time asleep since, or, when it saturated, no later than the extra time after boot. |
| `Fences.FenceIsWhereBoundFell` | crates/plasmosome-backend/src/lifetime.rs:179-182 | The fence keeps the wall deadline and puts the continuous one, in the reading's session, as far back as the wait deadline lies, saturating at 0. |
| `Fences.FenceIsExactAwake` | crates/plasmosome-backend/src/lifetime.rs:179-188 | On an awake host whose wall reading is not the lesser, the kept deadline is the fence's own. |
| `Fences.FenceNeverRises` | crates/plasmosome-backend/src/lifetime.rs:186-189 | Applying the rule again never moves the continuous deadline later. |
| `Fences.CapStaysReached` | crates/plasmosome-backend/src/lifetime.rs:183-189 | A reached cap stays reached for every wall reading if and only if the fence did not saturate or the extra time since boot has gone by. |
| `Fences.EarlierNowIsLater` | crates/plasmosome-backend/src/lifetime.rs:197-199 | The earlier of the bound and one ending now is not a fence: once the wall is set back, its wait deadline is later than the fence's by exactly the time overdue. |
| `Fences.RefusedReadingKeepsBound` | crates/plasmosome-backend/src/lifetime.rs:190-193 | At every refused reading of any session, the rule gives a passed bound back if and only if the bound is of that session and the wall is not more overdue than the continuous reading, or the deadline is 0. |
| `Fences.RefusedReadingCanMoveBound` | crates/plasmosome-backend/src/lifetime.rs:190-193 | Two refused readings at which it moves the bound, with the time overdue within 64 bits: a wall far ahead, and a bound of another session. |
| `Fences.ZeroDeadlineFences` | crates/plasmosome-backend/src/lifetime.rs:193-195 | A deadline of 0 instead is passed at every reading of the session, and its cap is reached wherever the wall is put exactly from the extra time after boot on. |
| `Fences.KeptStaysPassed` | crates/plasmosome-backend/src/lifetime.rs:179-195 | A caller that fences at every passed good reading and sets the deadline to 0 at a refused one never sees the bound as not passed again, over any mixed run. |
| `Fences.KeptDeadlineNeverLater` | crates/plasmosome-backend/src/lifetime.rs:183-189 | Until a reading zeroes the deadline, the kept wait deadline never moves later over the run, and is earlier by at least the time asleep. |
| `Fences.KeptCapStaysReached` | crates/plasmosome-backend/src/lifetime.rs:186-195 | Over a mixed run a reached cap stays reached, wherever the wall is put, if and only if no reading since zeroed the deadline or the extra time since boot has gone by. |
| `Fences.ZeroedStaysZero` | crates/plasmosome-backend/src/lifetime.rs:185-195 | Once a reading zeroed the deadline, it is 0 at every later reading of the run. |
| `Fences.CapCanBeLost` | crates/plasmosome-backend/src/lifetime.rs:186-189 | A run of two readings on which the rule loses a reached cap. |
| `Fences.KeptDeadlineFalls` | crates/plasmosome-backend/src/lifetime.rs:186-189 | Over a run of the bound's session the continuous deadline only falls. |
| `Paging.CheckMeansPiece` | crates/plasmosome-backend/src/paging.rs:61-93 | A page passes exactly when it is a nonempty, bounded piece within its total whose flag tells whether it ends it. |
| `Paging.CheckNamesFirstRule` | crates/plasmosome-backend/src/paging.rs:61-93 | Each fault of a page means its own rule is broken and the rules before it hold. |
| `Paging.CutPagePasses` | crates/plasmosome-backend/src/paging.rs:206-220 | Every page cut from a capture passes that check and carries the account's bytes at its offset. |
| `Paging.WithPageBytes` | crates/plasmosome-backend/src/paging.rs:235-243 | A slot is made exactly for page sizes from 1 to the maximum. |
| `Paging.CaptureSlot.constructor` | crates/plasmosome-backend/src/paging.rs:224-243 | A new slot holds nothing and has issued no identity. |
| `Paging.CaptureSlot.TakeCapture` | crates/plasmosome-backend/src/paging.rs:253-283 | New state and answer are the capture step's: the old capture goes first, the deadline is read before and after collecting, and identities never wrap. |
| `Paging.CaptureSlot.Page` | crates/plasmosome-backend/src/paging.rs:297-334 | New state and answer are the page step's: scope before deadline, the deadline lowered before it is judged, the range last. |
| `Paging.CaptureSlot.Expire` | crates/plasmosome-backend/src/paging.rs:338-346 | Ends the held capture exactly at or past its deadline. |
| `Paging.CaptureSlot.Discard` | crates/plasmosome-backend/src/paging.rs:350-352 | Ends the held capture, which `EndedForGood` shows serves no page again. |
| `Paging.CaptureSlot.End` | crates/plasmosome-backend/src/paging.rs:354-358 | A held capture becomes its ended marker; nothing happens without one. |
| `Paging.SlotStaysSound` | crates/plasmosome-backend/src/paging.rs:253-363 | Over any run a capture and an ended marker never coexist, and either is the newest identity's. |
| `Paging.SnapshotsIncrease` | crates/plasmosome-backend/src/paging.rs:253-283 | Over any run a later capture has a strictly greater identity. |
| `Paging.HeldDeadlineFalls` | crates/plasmosome-backend/src/paging.rs:297-346 | Short of a new capture, the held one changes only in its deadline, and that only falls. |
| `Paging.PagesServedInTime` | crates/plasmosome-backend/src/paging.rs:253-363 | Over any run, a served page is cut from the account its capture froze, for that capture's scope, before the capture's deadline and every deadline since given by a request that named it. |
| `PagingRuns.CaptureOutcome` | crates/plasmosome-backend/src/paging.rs:245-283 | A capture is kept, under the next identity, exactly when both readings come before its deadline, the collection succeeded and an identity is left; otherwise nothing is kept or spent; the previous one is gone either way. |
| `PagingRuns.ServedExactlyWhen` | crates/plasmosome-backend/src/paging.rs:285-334 | A page is served if and only if the request names the held capture from its scope, before its deadline and the request's own, at an offset inside the account. |
| `PagingRuns.PageOutcome` | crates/plasmosome-backend/src/paging.rs:285-334 | A request that names the held capture lowers its deadline whatever the answer and ends it when that has come; any other request changes nothing. |
| `PagingRuns.EndOutcome` | crates/plasmosome-backend/src/paging.rs:336-358 | A discard ends whatever is held, an expiry exactly what has reached its deadline. |
| `PagingRuns.EndedForGood` | crates/plasmosome-backend/src/paging.rs:294-358 | Over any run, once a capture was discarded, expired or refused as expired, no page of it is served again, and until the next capture a request for it is told expired from its own scope and a changed scope from any other. |
| `PagingRuns.SupersededIsUnknown` | crates/plasmosome-backend/src/paging.rs:249-283 | Over any run, once another capture was asked for, whatever came of it, a request for the earlier snapshot is unknown. |
| `PagingRuns.HeldDeadlineIsGiven` | crates/plasmosome-backend/src/paging.rs:297-322 | The held deadline is always the capture's own or that of a request that named it since. |
| `PageAssembly.PageAssembler.NextCursor` | crates/plasmosome-backend/src/paging.rs:465-474 | The start, then the bytes received so far, then nothing once complete. |
| `PageAssembly.PageAssembler.Accept` | crates/plasmosome-backend/src/paging.rs:480-527 | Fault and new state are the accept step's; a fault changes nothing. |
| `PageAssembly.PageAssembler.Finish` | crates/plasmosome-backend/src/paging.rs:533-559 | Length, then hash, then edge whitespace, then the decoder decide. |
| `PageAssembly.AcceptedExactlyWhen` | crates/plasmosome-backend/src/paging.rs:480-527 | A page is accepted if and only if it passes its check and starts an account at 0, or carries the unfinished one on with the same snapshot, total and hash at the bytes received. |
| `PageAssembly.AcceptNamesFirstRule` | crates/plasmosome-backend/src/paging.rs:480-527 | Each refusal means its own rule is broken and the rules before it hold. |
| `PageAssembly.FinishOutcome` | crates/plasmosome-backend/src/paging.rs:529-559 | Missing bytes, then a wrong hash, then one of the five ASCII whitespace bytes at either end, then the decoder. |
| `PageAssembly.NextAsksForMissing` | crates/plasmosome-backend/src/paging.rs:465-474 | After any pages from any peer, the next request asks for the start, then the first missing byte, then nothing. |
| `PageAssembly.AcceptExtends` | crates/plasmosome-backend/src/paging.rs:480-527 | A refused page changes nothing, and an accepted one appends its bytes and keeps the first page's identity, total and hash. |
| `PageAssembly.AssemblerInvariant` | crates/plasmosome-backend/src/paging.rs:480-527 | After any pages from any peer, the buffer is the accepted bytes in order, within the first total, and complete exactly when it reaches it. |
| `PageAssembly.FinishNeedsWholeAccount` | crates/plasmosome-backend/src/paging.rs:533-559 | A record comes only from bytes of the length and hash the first page stated, and it is their decoding. |
| `PageAssembly.NextPageFits` | crates/plasmosome-backend/src/paging.rs:206-220 | The page at the assembler's own offset passes its check, is accepted and extends the same account. |
| `PageAssembly.FirstPage` | crates/plasmosome-backend/src/paging.rs:253-283 | The first round leaves the slot holding capture 1 and the assembler holding the account's first bytes. |
| `PageAssembly.NextPage` | crates/plasmosome-backend/src/paging.rs:297-334 | A later round before both deadlines extends the prefix by a page and lowers the held deadline. |
| `PageAssembly.WholeAccountDecodes` | crates/plasmosome-backend/src/paging.rs:533-559 | Finishing with the whole account passes length and hash and reaches the decoder with the frozen bytes. |
| `PageAssembly.Transfer` | crates/plasmosome-backend/src/paging.rs:253-559 | For every account and page size, with each reading the transfer needs before the deadlines given so far, slot and assembler finish in exactly the rounded-up number of pages with the account's own bytes. |
| `Digests.ToHex` | crates/plasmosome-backend/src/digest.rs:66-74 | The text is 64 lowercase digits, two a byte, the high half first. |
| `Digests.ParseHex` | crates/plasmosome-backend/src/digest.rs:25-42 | Accepts exactly 64 lowercase digits and returns the digest that prints as them; otherwise the wrong length or the first bad offset. |
| `Digests.HexIsInjective` | crates/plasmosome-backend/src/digest.rs:66-74 | Different digests print differently. |
| `TreePaths.HexLayout` | crates/plasmosome-backend/src/digest.rs:66-74 | The text gives each byte's high half, then its low half, as lowercase digits. |
| `Listings.CheckListing` | crates/plasmosome-backend/src/software.rs:287-310 | The two growing sets accept exactly the listings whose every path obeys the rule and no two of which, case folded, are equal or above one another; otherwise the first faulty path. |
| `Listings.AcceptableIsOrderFree` | crates/plasmosome-backend/src/software.rs:287-310 | Whether a listing is accepted does not depend on its order. |
| `Listings.AcceptablePaths` | crates/plasmosome-backend/src/software.rs:312-317 | Accepted paths differ from one another and hold no NUL byte. |
| `ListingRules.PathRuleSpelledOut` | crates/plasmosome-backend/src/software.rs:312-317 | A path obeys the rule if and only if it names no drive, holds no backslash and no control character, and no component between its slashes is empty, a dot or two dots. |
| `ListingRules.ListingSpelledOut` | crates/plasmosome-backend/src/software.rs:287-310 | A listing is accepted if and only if every path obeys the rule and no two are the same but for ASCII case, or one, but for case, a directory on the way to another. |
| `PinnedTrees.Assemble` | crates/plasmosome-backend/src/software.rs:63-77 | The append loop hashes the encoding of the files sorted by path. |
| `PinnedTrees.EncodingIsInjective` | crates/plasmosome-backend/src/software.rs:55-77 | The hashed encoding is uniquely decodable: equal encodings come from equal file lists. |
| `PinnedTrees.EncodingNamesTheFiles` | crates/plasmosome-backend/src/software.rs:55-77 | Two collections of files have equal encodings exactly when they hold the same files, in whatever order collected. |
| `TreePaths.RecordLayout` | crates/plasmosome-backend/src/software.rs:66-75 | A file's record is its path, a NUL, 64 hexadecimal digits, a NUL and a byte that is 1 for a command and 0 otherwise. |
| `TreePaths.EncodingFollowsFiles` | crates/plasmosome-backend/src/software.rs:63-77 | Records follow one another in the order of the files. |
| `TreePaths.AssembledInPathOrder` | crates/plasmosome-backend/src/software.rs:63-77 | The tree holds exactly the files in the order of their paths' bytes, under the hash of their encoding. |
| `PinnedTrees.Walk.VisitFile` | crates/plasmosome-backend/src/software.rs:411-437 | A file is pushed exactly when it is listed with its size and digest; otherwise its refusal. |
| `PinnedTrees.Walk.Directory` | crates/plasmosome-backend/src/software.rs:375-409 | The recursive walk in name order pushes what `Found` finds, or stops at its first refusal. |
| `Pins.FoundSucceeds` | crates/plasmosome-backend/src/software.rs:374-438 | A walk succeeds exactly on a tree with no link, special file, name that is not text or empty inner directory whose every file is listed as it is. |
| `Pins.FoundFiles` | crates/plasmosome-backend/src/software.rs:374-438 | What it finds is exactly the tree's files with the digests of their bytes. |
| `Pins.FoundDistinct` | crates/plasmosome-backend/src/software.rs:374-438 | It finds no path twice. |
| `TreePaths.FileIsFoundByParts` | crates/plasmosome-backend/src/software.rs:375-409 | A tree has a file at a path if and only if following the path's components name by name finds it. |
| `TreePaths.WalkStopsAtFirst` | crates/plasmosome-backend/src/software.rs:375-409 | Entries are visited in the order of their names' bytes, and the walk stops with the refusal of the first that has one. |
| `TreePaths.RefusalIsTrue` | crates/plasmosome-backend/src/software.rs:356-438 | A walk refuses only for what stands at the path it names: a link, a special file, a file not listed or not as listed, an empty directory or a name that is not text. |
| `Pins.FirstUnlisted` | crates/plasmosome-backend/src/software.rs:259-266 | The first command that is not a listed path, if there is one. |
| `Pins.FirstUnseen` | crates/plasmosome-backend/src/software.rs:275-280 | The least listed path the walk did not see, if there is one. |
| `Pins.PinDirectory` | crates/plasmosome-backend/src/software.rs:268-285 | Over an accepted listing, the walk, the missing check and the marking pin exactly the trees that hold the listed files. |
| `Pins.Pin` | crates/plasmosome-backend/src/software.rs:248-285 | Succeeds exactly when the listing is acceptable, every command is listed and the tree holds exactly the listed files; the tree pinned depends only on listing and commands; otherwise the refusal that comes first in the documented order. |
| `Pins.PinIgnoresListingOrder` | crates/plasmosome-backend/src/software.rs:248-310 | Listing the files in another order pins the same tree under the same digest. |
| `IgnoredTests.Block.Absorb` | tools/ignored_tests.py:80-84 | The block takes the other's tests after its own and adds its count; a missing count adds nothing. |
| `IgnoredTests.StartBlock` | tools/ignored_tests.py:120-127 | A header line starts a new empty block after the others. |
| `IgnoredTests.TakeLine` | tools/ignored_tests.py:128-137 | Any other line changes only the newest block, as that kind of line does. |
| `IgnoredTests.NextLine` | tools/ignored_tests.py:116-137 | One turn over a line, with an ignored test before any block as a problem. |
| `IgnoredTests.ParseLog` | tools/ignored_tests.py:112-138 | The loop that changes the newest block in place reads the log as `Parsed` does. |
| `IgnoredTests.CheckOne` | tools/ignored_tests.py:224-244 | One turn folds, refuses or keeps a block, as the blocks kept so far decide. |
| `IgnoredTests.FoldBlocks` | tools/ignored_tests.py:222-244 | The loop that absorbs blocks in place folds the log as `Folded` does. |
| `IgnoredTests.CheckCounts` | tools/ignored_tests.py:245-251 | Every kept block's missing or wrong count, in order. |
| `IgnoredTests.CheckBlocks` | tools/ignored_tests.py:211-252 | The kept blocks and all problems of folding and counting. |
| `IgnoredTests.CheckSteps` | tools/ignored_tests.py:255-269 | Every succeeded step whose log is missing or lacks one of its executables. |
| `IgnoredTests.MakeReport` | tools/ignored_tests.py:341-370 | The report is the table and its status when nothing is a problem, and all the problems otherwise. |
| `IgnoredTests.ParseConserves` | tools/ignored_tests.py:112-138 | Reading without a problem keeps every ignored line in log order. |
| `ReportRules.BlockIsItsLines` | tools/ignored_tests.py:112-138 | A header and the lines up to the next make exactly one block: its ignored tests in order, the sum of its result lines if it has one, and whether a test in it failed. |
| `IgnoredTests.FoldConserves` | tools/ignored_tests.py:211-252 | Folding without a problem keeps every ignored line in order and the sum of all counts. |
| `IgnoredTests.ReportConserves` | tools/ignored_tests.py:211-316 | Whenever there is no problem, the table's tests are exactly the log's ignored lines, in order. |
| `IgnoredTests.ParseCounts` | tools/ignored_tests.py:112-138 | The blocks' counts sum to the log's result lines after its first header, a result line before it belonging to no block. |
| `IgnoredTests.ReportCountsAgree` | tools/ignored_tests.py:211-316 | When every step also succeeded, the rows number the sum of the log's result lines after its first header. |
| `IgnoredTests.NothingIgnoredMeansIt` | tools/ignored_tests.py:255-316 | "No test was ignored" is said only when every step succeeded, every listed executable ran in the log and no line of it is ignored. |
| `IgnoredTests.RepeatIsNeverRefused` | tools/ignored_tests.py:223-244 | A block whose key was kept before adds no problem: it is folded or kept again. |
| `IgnoredTests.ElsewhereRefusesUnlisted` | tools/ignored_tests.py:223-244 | Among unfolded blocks that are unlisted or repeat, exactly the unlisted refuse. |
| `ReportRules.KeptAreWell` | tools/ignored_tests.py:223-244 | A kept block carries exactly the steps that list it and the one package they all give it, with the failure mark and the leading tests of its block of the log. |
| `ReportRules.FoldsWhenNested` | tools/ignored_tests.py:223-234 | A block is folded if and only if it comes right after a block with a failing test, from a step that did not succeed, and no step lists it or it repeats. |
| `ReportRules.TurnOutcome` | tools/ignored_tests.py:223-244 | Nested, a block's tests and count go to the failing block; unlisted or with two packages, it is that problem; otherwise it is kept as it is. |
| `ReportRules.RowsAreBlocks` | tools/ignored_tests.py:296-302 | The table lists each kept block's tests in order, every one under the block's package. |
| `ReportRules.SummaryMeans` | tools/ignored_tests.py:287-316 | The rows are the kept blocks' tests, and the status names an unfinished step, no ignored test, or exactly the number of rows. |
| `ReportRules.ReportIsItsProblems` | tools/ignored_tests.py:341-370 | The report lists exactly its problems, each stated on the log's lines and the steps' listings, and vouches for its list if and only if there are none. |
| `IgnoredTests.RepeatedRunIsVouchedFor` | tools/ignored_tests.py:20-24 | A log in which a repeated block outside any failure is accepted. |

## Left out

- Capability and recipe field rules, beyond one arbitrary verdict per capability: string checks the ledger does not depend on.
- All serde and wire encoding, the JSON text of an account and `FrozenAccount::freeze`.
- SHA-256 itself and `Digest::of_reader`, which feeds it in pieces.
- `Display` texts, error codes and wording; errors are compared by kind and address.
- UUID generation and boot session parsing.
- Lease and drain range checks, `checked_add_ms` and `shutdown_deadline`: single comparisons.
- Composite leaves other than the modelled backend; the class check and the identity conflict it guards against are modelled, and proved never to arise with these leaves.
- `Mutex` sharing of the manual clock and real clocks.
- Filesystem races, link-safe opening, the device and inode comparison of the root and unreadable entries: the tree is fixed and readable, and its names are nonempty and hold no slash.
- The text of a name that is not UTF-8 in its refusal, where the source substitutes characters.
- Attachment name checks (`check_names`) in `software.rs`: an easy comparison of sets.
- The patterns that classify log lines, the cargo listings of the steps (their problems are an input), the notes and the rendered Markdown of the report.
- The `plasmid` command line, the review usage tool and the regression and build scripts.
