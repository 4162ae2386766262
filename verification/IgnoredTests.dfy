/** The ignored-test report: from a job's log lines to a list it can vouch for. */
module IgnoredTests {
  import opened Wrappers

  datatype Outcome = Success | Failure | Cancelled | Skipped

  datatype BlockKind = Executable | Library

  datatype Key = Key(kind: BlockKind, name: string)

  /** One cargo test step with the packages its build listing gives each executable and library. */
  datatype Step = Step(name: string, outcome: Outcome, executables: map<string, string>, libraries: map<string, string>) {
    function Listing(kind: BlockKind): map<string, string> {
      if kind == Executable then executables else libraries
    }
  }

  /** A log line, already classified by the report's patterns. */
  datatype Line =
    | Running(executable: string)
    | DocTests(library: string)
    | Ignored(test: Test)
    | Failed
    | ResultLine(count: nat)
    | Other

  datatype Test = Test(name: string, reason: Option<string>)

  datatype Problem =
    | BeforeAnyBlock(test: Test)
    | Unlisted(key: Key)
    | ManyPackages(key: Key)
    | NoResult(key: Key)
    | Miscounted(key: Key, ignored: nat, counted: nat)
    | NoLog(step: Step)
    | NotInLog(step: Step, executables: set<string>)
    | ListingFailed(reason: string)

  /** The lines after one `Running` or `Doc-tests` line, up to the next one. */
  datatype BlockView = BlockView(
    key: Key, ignored: seq<Test>, counted: Option<nat>, package: Option<string>, steps: seq<Step>, failed: bool)
  {
    function Absorb(other: BlockView): BlockView {
      this.(ignored := ignored + other.ignored, counted := Plus(counted, other.counted))
    }
  }

  function Plus(counted: Option<nat>, more: Option<nat>): Option<nat> {
    if more.None? then counted else Some((if counted.Some? then counted.value else 0) + more.value)
  }

  function NewBlock(key: Key): BlockView {
    BlockView(key, [], None, None, [], false)
  }

  // ---------------------------------------------------------------- reading the log

  datatype Parse = Parse(blocks: seq<BlockView>, problems: seq<Problem>)

  function WithLast(blocks: seq<BlockView>, last: BlockView): seq<BlockView>
    requires blocks != []
  {
    blocks[..|blocks| - 1] + [last]
  }

  function ReadLine(p: Parse, line: Line): Parse {
    match line
    case Running(executable) => p.(blocks := p.blocks + [NewBlock(Key(Executable, executable))])
    case DocTests(library) => p.(blocks := p.blocks + [NewBlock(Key(Library, library))])
    case Ignored(test) =>
      if p.blocks == [] then
        p.(problems := p.problems + [BeforeAnyBlock(test)])
      else
        var last := p.blocks[|p.blocks| - 1];
        p.(blocks := WithLast(p.blocks, last.(ignored := last.ignored + [test])))
    case Failed =>
      if p.blocks == [] then p
      else p.(blocks := WithLast(p.blocks, p.blocks[|p.blocks| - 1].(failed := true)))
    case ResultLine(count) =>
      if p.blocks == [] then
        p
      else
        var last := p.blocks[|p.blocks| - 1];
        p.(blocks := WithLast(p.blocks, last.(counted := Plus(last.counted, Some(count)))))
    case Other => p
  }

  function Parsed(lines: seq<Line>): Parse {
    if lines == [] then Parse([], []) else ReadLine(Parsed(lines[..|lines| - 1]), lines[|lines| - 1])
  }

  // ---------------------------------------------------------------- checking the blocks

  /** The steps that list a key, with the package each gives it, in step order. */
  function Owners(steps: seq<Step>, key: Key): seq<(Step, string)> {
    if steps == [] then
      []
    else
      var listing := steps[0].Listing(key.kind);
      (if key.name in listing then [(steps[0], listing[key.name])] else []) + Owners(steps[1..], key)
  }

  function Packages(found: seq<(Step, string)>): set<string> {
    set f | f in found :: f.1
  }

  function StepsOf(found: seq<(Step, string)>): seq<Step> {
    seq(|found|, i requires 0 <= i < |found| => found[i].0)
  }

  predicate Unfinished(steps: seq<Step>) {
    exists step | step in steps :: step.outcome != Success
  }

  datatype Check = Check(kept: seq<BlockView>, problems: seq<Problem>)

  predicate Repeated(kept: seq<BlockView>, key: Key) {
    exists b | b in kept :: b.key == key
  }

  /** A block right after a failing one of an unfinished step, unlisted or seen before. */
  predicate Folds(steps: seq<Step>, kept: seq<BlockView>, block: BlockView) {
    && kept != []
    && kept[|kept| - 1].failed && Unfinished(kept[|kept| - 1].steps)
    && (Repeated(kept, block.key) || Owners(steps, block.key) == [])
  }

  function CheckBlock(steps: seq<Step>, c: Check, block: BlockView): Check {
    var found := Owners(steps, block.key);
    if Folds(steps, c.kept, block) then
      c.(kept := WithLast(c.kept, c.kept[|c.kept| - 1].Absorb(block)))
    else if found == [] then
      c.(problems := c.problems + [Unlisted(block.key)])
    else if |Packages(found)| > 1 then
      c.(problems := c.problems + [ManyPackages(block.key)])
    else
      c.(kept := c.kept + [block.(package := Some(found[0].1), steps := StepsOf(found))])
  }

  function Folded(steps: seq<Step>, blocks: seq<BlockView>): Check {
    if blocks == [] then
      Check([], [])
    else
      CheckBlock(steps, Folded(steps, blocks[..|blocks| - 1]), blocks[|blocks| - 1])
  }

  function CountProblem(block: BlockView): seq<Problem> {
    if block.counted.None? then
      if Unfinished(block.steps) then [] else [NoResult(block.key)]
    else if block.counted.value != |block.ignored| then
      [Miscounted(block.key, |block.ignored|, block.counted.value)]
    else
      []
  }

  function CountProblems(kept: seq<BlockView>): seq<Problem> {
    if kept == [] then [] else CountProblems(kept[..|kept| - 1]) + CountProblem(kept[|kept| - 1])
  }

  // ---------------------------------------------------------------- checking the steps

  function Logged(blocks: seq<BlockView>): set<string> {
    set b | b in blocks && b.key.kind == Executable :: b.key.name
  }

  function StepProblem(step: Step, log: Option<seq<BlockView>>): seq<Problem> {
    if step.outcome != Success then []
    else if log.None? then [NoLog(step)]
    else
      var missing := step.executables.Keys - Logged(log.value);
      if missing != {} then [NotInLog(step, missing)] else []
  }

  function StepProblems(steps: seq<Step>, log: Option<seq<BlockView>>): seq<Problem> {
    if steps == [] then [] else StepProblems(steps[..|steps| - 1], log) + StepProblem(steps[|steps| - 1], log)
  }

  // ---------------------------------------------------------------- the report

  datatype Row = Row(package: Option<string>, test: Test)

  datatype Status = NotEveryStep | NothingIgnored | SomeIgnored(count: nat)

  datatype Report = Summary(rows: seq<Row>, status: Status) | Refused(problems: seq<Problem>)

  function RowsOf(block: BlockView): seq<Row> {
    seq(|block.ignored|, i requires 0 <= i < |block.ignored| => Row(block.package, block.ignored[i]))
  }

  function AllRows(kept: seq<BlockView>): seq<Row> {
    if kept == [] then [] else AllRows(kept[..|kept| - 1]) + RowsOf(kept[|kept| - 1])
  }

  function StatusOf(steps: seq<Step>, count: nat): Status {
    if Unfinished(steps) then NotEveryStep else if count == 0 then NothingIgnored else SomeIgnored(count)
  }

  /** `main`, given the classified log, the listed steps and the listing's own problems. */
  function Reported(steps: seq<Step>, log: Option<seq<Line>>, listing: seq<Problem>): Report {
    var parsed := if log.Some? then Parsed(log.value) else Parse([], []);
    var check := Folded(steps, parsed.blocks);
    var problems := parsed.problems + listing + check.problems + CountProblems(check.kept)
                    + StepProblems(steps, if log.Some? then Some(parsed.blocks) else None);
    if problems == [] then
      Summary(AllRows(check.kept), StatusOf(steps, |AllRows(check.kept)|))
    else
      Refused(problems)
  }

  // ---------------------------------------------------------------- conservation

  function IgnoredLines(lines: seq<Line>): seq<Test> {
    if lines == [] then
      []
    else
      var last := lines[|lines| - 1];
      IgnoredLines(lines[..|lines| - 1]) + if last.Ignored? then [last.test] else []
  }

  function AllIgnored(blocks: seq<BlockView>): seq<Test> {
    if blocks == [] then [] else AllIgnored(blocks[..|blocks| - 1]) + blocks[|blocks| - 1].ignored
  }

  function CountOf(block: BlockView): nat {
    if block.counted.Some? then block.counted.value else 0
  }

  /** The sum of the blocks' result-line counts. */
  function AllCounted(blocks: seq<BlockView>): nat {
    if blocks == [] then 0 else AllCounted(blocks[..|blocks| - 1]) + CountOf(blocks[|blocks| - 1])
  }

  lemma OneMore(blocks: seq<BlockView>, block: BlockView)
    ensures AllIgnored(blocks + [block]) == AllIgnored(blocks) + block.ignored
    ensures AllCounted(blocks + [block]) == AllCounted(blocks) + CountOf(block)
    ensures AllRows(blocks + [block]) == AllRows(blocks) + RowsOf(block)
  {
    assert (blocks + [block])[..|blocks|] == blocks;
  }

  lemma LastGrows(blocks: seq<BlockView>, last: BlockView)
    requires blocks != []
    ensures var front := blocks[..|blocks| - 1];
            && AllIgnored(WithLast(blocks, last)) == AllIgnored(front) + last.ignored
            && AllCounted(WithLast(blocks, last)) == AllCounted(front) + CountOf(last)
  {
    OneMore(blocks[..|blocks| - 1], last);
  }

  lemma LastKeeps(blocks: seq<BlockView>, last: BlockView, more: seq<Test>)
    requires blocks != [] && last.ignored == blocks[|blocks| - 1].ignored + more
    ensures AllIgnored(WithLast(blocks, last)) == AllIgnored(blocks) + more
  {
    LastGrows(blocks, last);
  }

  lemma LineConserves(p: Parse, line: Line)
    requires ReadLine(p, line).problems == []
    ensures p.problems == []
    ensures AllIgnored(ReadLine(p, line).blocks) == AllIgnored(p.blocks) + if line.Ignored? then [line.test] else []
  {
    match line
    case Running(executable) => OneMore(p.blocks, NewBlock(Key(Executable, executable)));
    case DocTests(library) => OneMore(p.blocks, NewBlock(Key(Library, library)));
    case Ignored(test) =>
      var last := p.blocks[|p.blocks| - 1];
      LastKeeps(p.blocks, last.(ignored := last.ignored + [test]), [test]);
    case Failed =>
      if p.blocks != [] { LastKeeps(p.blocks, p.blocks[|p.blocks| - 1].(failed := true), []); }
    case ResultLine(count) =>
      if p.blocks != [] {
        var last := p.blocks[|p.blocks| - 1];
        LastKeeps(p.blocks, last.(counted := Plus(last.counted, Some(count))), []);
      }
    case Other =>
  }

  /** Reading a log keeps every ignored line, in order, unless it reports a problem. */
  lemma {:induction false} ParseConserves(lines: seq<Line>)
    requires Parsed(lines).problems == []
    ensures AllIgnored(Parsed(lines).blocks) == IgnoredLines(lines)
  {
    if lines != [] {
      LineConserves(Parsed(lines[..|lines| - 1]), lines[|lines| - 1]);
      ParseConserves(lines[..|lines| - 1]);
    }
  }

  predicate IsHeader(line: Line) {
    line.Running? || line.DocTests?
  }

  predicate HasHeader(lines: seq<Line>) {
    exists i :: 0 <= i < |lines| && IsHeader(lines[i])
  }

  /** The sum of the log's result lines after its first header; one before it belongs to no block. */
  function LinesCounted(lines: seq<Line>): nat {
    if lines == [] then
      0
    else
      var front, last := lines[..|lines| - 1], lines[|lines| - 1];
      LinesCounted(front) + if last.ResultLine? && HasHeader(front) then last.count else 0
  }

  lemma HeaderNext(lines: seq<Line>)
    requires lines != []
    ensures HasHeader(lines) <==> HasHeader(lines[..|lines| - 1]) || IsHeader(lines[|lines| - 1])
  {
    if HasHeader(lines[..|lines| - 1]) {
      var i :| 0 <= i < |lines| - 1 && IsHeader(lines[..|lines| - 1][i]);
      assert IsHeader(lines[i]);
    }
  }

  /** What one line adds to the blocks and to their counts. */
  lemma LineCounts(p: Parse, line: Line)
    ensures ReadLine(p, line).blocks == [] <==> p.blocks == [] && !IsHeader(line)
    ensures AllCounted(ReadLine(p, line).blocks)
            == AllCounted(p.blocks) + if line.ResultLine? && p.blocks != [] then line.count else 0
  {
    match line
    case Running(executable) => OneMore(p.blocks, NewBlock(Key(Executable, executable)));
    case DocTests(library) => OneMore(p.blocks, NewBlock(Key(Library, library)));
    case Ignored(test) =>
      if p.blocks != [] {
        var last := p.blocks[|p.blocks| - 1];
        LastGrows(p.blocks, last.(ignored := last.ignored + [test]));
      }
    case Failed =>
      if p.blocks != [] { LastGrows(p.blocks, p.blocks[|p.blocks| - 1].(failed := true)); }
    case ResultLine(count) =>
      if p.blocks != [] {
        var last := p.blocks[|p.blocks| - 1];
        LastGrows(p.blocks, last.(counted := Plus(last.counted, Some(count))));
      }
    case Other =>
  }

  /** The blocks' counts are the log's result lines from the first header on. */
  lemma {:induction false} ParseCounts(lines: seq<Line>)
    ensures Parsed(lines).blocks == [] <==> !HasHeader(lines)
    ensures AllCounted(Parsed(lines).blocks) == LinesCounted(lines)
  {
    if lines != [] {
      ParseCounts(lines[..|lines| - 1]);
      HeaderNext(lines);
      LineCounts(Parsed(lines[..|lines| - 1]), lines[|lines| - 1]);
    }
  }

  lemma TurnConserves(steps: seq<Step>, c: Check, block: BlockView)
    requires CheckBlock(steps, c, block).problems == []
    ensures c.problems == []
    ensures AllIgnored(CheckBlock(steps, c, block).kept) == AllIgnored(c.kept) + block.ignored
    ensures AllCounted(CheckBlock(steps, c, block).kept) == AllCounted(c.kept) + CountOf(block)
  {
    if Folds(steps, c.kept, block) {
      var front, last := c.kept[..|c.kept| - 1], c.kept[|c.kept| - 1];
      assert CheckBlock(steps, c, block).kept == WithLast(c.kept, last.Absorb(block));
      LastGrows(c.kept, last.Absorb(block));
      assert AllIgnored(front) + (last.ignored + block.ignored) == AllIgnored(front) + last.ignored + block.ignored;
    } else {
      var found := Owners(steps, block.key);
      var keep := block.(package := Some(found[0].1), steps := StepsOf(found));
      assert CheckBlock(steps, c, block).kept == c.kept + [keep];
      OneMore(c.kept, keep);
    }
  }

  /** Folding keeps every ignored line in order and every count, unless it reports a problem. */
  lemma {:induction false} FoldConserves(steps: seq<Step>, blocks: seq<BlockView>)
    requires Folded(steps, blocks).problems == []
    ensures AllIgnored(Folded(steps, blocks).kept) == AllIgnored(blocks)
    ensures AllCounted(Folded(steps, blocks).kept) == AllCounted(blocks)
  {
    if blocks != [] {
      var front, block := blocks[..|blocks| - 1], blocks[|blocks| - 1];
      TurnConserves(steps, Folded(steps, front), block);
      FoldConserves(steps, front);
    }
  }

  function Tests(rows: seq<Row>): seq<Test> {
    seq(|rows|, i requires 0 <= i < |rows| => rows[i].test)
  }

  lemma {:induction false} RowsShowIgnored(kept: seq<BlockView>)
    ensures Tests(AllRows(kept)) == AllIgnored(kept)
  {
    if kept != [] {
      RowsShowIgnored(kept[..|kept| - 1]);
    }
  }

  /** Whenever the report vouches for its list, the list is the log's ignored lines, in order. */
  lemma ReportConserves(steps: seq<Step>, log: Option<seq<Line>>, listing: seq<Problem>)
    ensures Reported(steps, log, listing).Summary? ==>
              Tests(Reported(steps, log, listing).rows) == if log.Some? then IgnoredLines(log.value) else []
  {
    if Reported(steps, log, listing).Summary? {
      var parsed := if log.Some? then Parsed(log.value) else Parse([], []);
      if log.Some? { ParseConserves(log.value); }
      FoldConserves(steps, parsed.blocks);
      RowsShowIgnored(Folded(steps, parsed.blocks).kept);
    }
  }

  // ---------------------------------------------------------------- counts and status

  lemma {:induction false} OwnersAreSteps(steps: seq<Step>, key: Key)
    ensures forall f | f in Owners(steps, key) ::
              f.0 in steps && key.name in f.0.Listing(key.kind) && f.0.Listing(key.kind)[key.name] == f.1
    ensures Owners(steps, key) == [] ==> forall s | s in steps :: key.name !in s.Listing(key.kind)
  {
    if steps != [] {
      OwnersAreSteps(steps[1..], key);
      assert steps == [steps[0]] + steps[1..];
    }
  }

  ghost predicate KeptFromSteps(steps: seq<Step>, kept: seq<BlockView>) {
    forall b | b in kept :: forall s | s in b.steps :: s in steps
  }

  lemma {:induction false} KeptStepsAreListed(steps: seq<Step>, blocks: seq<BlockView>)
    ensures KeptFromSteps(steps, Folded(steps, blocks).kept)
  {
    if blocks != [] {
      var block := blocks[|blocks| - 1];
      KeptStepsAreListed(steps, blocks[..|blocks| - 1]);
      OwnersAreSteps(steps, block.key);
    }
  }

  lemma {:induction false} CountsAgree(steps: seq<Step>, kept: seq<BlockView>)
    requires !Unfinished(steps) && KeptFromSteps(steps, kept) && CountProblems(kept) == []
    ensures AllCounted(kept) == |AllIgnored(kept)|
  {
    if kept != [] {
      var front, last := kept[..|kept| - 1], kept[|kept| - 1];
      assert last in kept && forall b | b in front :: b in kept;
      CountsAgree(steps, front);
    }
  }

  /** When every step succeeded, the rows number exactly what the log's result lines count from
      the first header on. */
  lemma ReportCountsAgree(steps: seq<Step>, lines: seq<Line>, listing: seq<Problem>)
    requires Reported(steps, Some(lines), listing).Summary? && !Unfinished(steps)
    ensures |Reported(steps, Some(lines), listing).rows| == LinesCounted(lines)
  {
    var blocks := Parsed(lines).blocks;
    FoldConserves(steps, blocks);
    KeptStepsAreListed(steps, blocks);
    CountsAgree(steps, Folded(steps, blocks).kept);
    ParseCounts(lines);
    RowsShowIgnored(Folded(steps, blocks).kept);
  }

  lemma {:induction false} NoStepProblem(steps: seq<Step>, log: Option<seq<BlockView>>, step: Step)
    requires StepProblems(steps, log) == [] && step in steps
    ensures StepProblem(step, log) == []
  {
    if step != steps[|steps| - 1] {
      assert step in steps[..|steps| - 1];
      NoStepProblem(steps[..|steps| - 1], log, step);
    }
  }

  lemma StepRan(step: Step, blocks: seq<BlockView>)
    requires step.outcome == Success && StepProblem(step, Some(blocks)) == []
    ensures step.executables.Keys <= Logged(blocks)
  {
    forall name | name in step.executables.Keys ensures name in Logged(blocks) {
      assert name !in step.executables.Keys - Logged(blocks);
    }
  }

  /** "No test was ignored" is said only when every step succeeded, the log exists, every listed
      executable of every step ran in it, and it holds no ignored line. */
  lemma NothingIgnoredMeansIt(steps: seq<Step>, log: Option<seq<Line>>, listing: seq<Problem>)
    requires steps != []
    requires Reported(steps, log, listing).Summary? && Reported(steps, log, listing).status == NothingIgnored
    ensures forall s | s in steps :: s.outcome == Success
    ensures log.Some? && IgnoredLines(log.value) == []
    ensures forall s | s in steps :: s.executables.Keys <= Logged(Parsed(log.value).blocks)
  {
    ReportConserves(steps, log, listing);
    assert Tests(Reported(steps, log, listing).rows) == [];
    var seen := if log.Some? then Some(Parsed(log.value).blocks) else None;
    assert steps[0] in steps;
    NoStepProblem(steps, seen, steps[0]);
    forall s | s in steps ensures s.executables.Keys <= Logged(Parsed(log.value).blocks) {
      NoStepProblem(steps, seen, s);
      StepRan(s, Parsed(log.value).blocks);
    }
  }

  // ---------------------------------------------------------------- repeated blocks

  ghost predicate KeptOwned(steps: seq<Step>, kept: seq<BlockView>) {
    forall b | b in kept :: Owners(steps, b.key) != [] && |Packages(Owners(steps, b.key))| <= 1
  }

  lemma TurnKeepsOwned(steps: seq<Step>, c: Check, block: BlockView)
    requires KeptOwned(steps, c.kept)
    ensures KeptOwned(steps, CheckBlock(steps, c, block).kept)
  {
    forall b | b in CheckBlock(steps, c, block).kept
      ensures Owners(steps, b.key) != [] && |Packages(Owners(steps, b.key))| <= 1
    {
      assert b.key == block.key || exists k | k in c.kept :: k.key == b.key;
    }
  }

  lemma {:induction false} KeptAreOwned(steps: seq<Step>, blocks: seq<BlockView>)
    ensures KeptOwned(steps, Folded(steps, blocks).kept)
  {
    if blocks != [] {
      KeptAreOwned(steps, blocks[..|blocks| - 1]);
      TurnKeepsOwned(steps, Folded(steps, blocks[..|blocks| - 1]), blocks[|blocks| - 1]);
    }
  }

  /** A block whose key was kept before is never refused, whatever comes before it: it is folded
      into a failing block, and otherwise kept a second time. */
  lemma RepeatIsNeverRefused(steps: seq<Step>, blocks: seq<BlockView>, block: BlockView)
    requires Repeated(Folded(steps, blocks).kept, block.key)
    ensures Folded(steps, blocks + [block]).problems == Folded(steps, blocks).problems
    ensures |Folded(steps, blocks + [block]).kept|
            == |Folded(steps, blocks).kept| + if Folds(steps, Folded(steps, blocks).kept, block) then 0 else 1
  {
    var c := Folded(steps, blocks);
    KeptAreOwned(steps, blocks);
    var b :| b in c.kept && b.key == block.key;
    NextFold(steps, blocks, block);
  }

  lemma NextFold(steps: seq<Step>, blocks: seq<BlockView>, block: BlockView)
    ensures Folded(steps, blocks + [block]) == CheckBlock(steps, Folded(steps, blocks), block)
  {
    assert (blocks + [block])[..|blocks|] == blocks;
  }

  /** Of the blocks that are not folded and are unlisted or repeat, exactly the unlisted refuse. */
  lemma ElsewhereRefusesUnlisted(steps: seq<Step>, blocks: seq<BlockView>, block: BlockView)
    requires !Folds(steps, Folded(steps, blocks).kept, block)
    requires Repeated(Folded(steps, blocks).kept, block.key) || Owners(steps, block.key) == []
    ensures Folded(steps, blocks + [block]).problems
            == Folded(steps, blocks).problems
               + if Repeated(Folded(steps, blocks).kept, block.key) then [] else [Unlisted(block.key)]
  {
    var c := Folded(steps, blocks);
    KeptAreOwned(steps, blocks);
    NextFold(steps, blocks, block);
    if Repeated(c.kept, block.key) {
      var b :| b in c.kept && b.key == block.key;
    }
    assert c.problems + [] == c.problems;
  }

  lemma TwoRunsParse(key: Key, block: BlockView)
    requires key == Key(Executable, "a") && block == BlockView(key, [], Some(0), None, [], false)
    ensures Parsed([Running("a"), ResultLine(0), Running("a"), ResultLine(0)]) == Parse([block, block], [])
  {
    var lines := [Running("a"), ResultLine(0), Running("a"), ResultLine(0)];
    assert lines[..3][..2][..1] == [Running("a")] && lines[..3][..2] == lines[..2];
    assert Parsed([Running("a")]) == Parse([NewBlock(key)], []);
    assert Parsed(lines[..2]) == Parse([block], []);
    assert Parsed(lines[..3]) == Parse([block, NewBlock(key)], []);
  }

  lemma TwoRunsFold(step: Step, block: BlockView, kept: BlockView)
    requires block == BlockView(Key(Executable, "a"), [], Some(0), None, [], false)
    requires step.executables == map["a" := "p"] && kept == block.(package := Some("p"), steps := [step])
    ensures Folded([step], [block, block]) == Check([kept, kept], [])
  {
    var found := [(step, "p")];
    assert [step][1..] == [] && found[0] in found;
    assert Owners([step], block.key) == found;
    assert Packages(found) == {"p"};
    assert StepsOf(found) == [step];
    assert [block, block][..1] == [block];
    assert Folded([step], [block]) == Check([kept], []);
  }

  lemma TwoRunsCount(step: Step, block: BlockView, kept: BlockView)
    requires block == BlockView(Key(Executable, "a"), [], Some(0), None, [], false)
    requires step.executables == map["a" := "p"] && kept == block.(package := Some("p"), steps := [step])
    ensures CountProblems([kept, kept]) == [] && AllRows([kept, kept]) == []
    ensures StepProblem(step, Some([block, block])) == []
  {
    assert [kept, kept][..1] == [kept];
    assert [kept][..0] == [] && RowsOf(kept) == [];
    assert CountProblems([kept]) == [];
    assert AllRows([kept]) == [];
    assert block in [block, block];
    assert step.executables.Keys - Logged([block, block]) == {};
  }

  /** A log in which one executable runs twice is vouched for. */
  lemma RepeatedRunIsVouchedFor(step: Step, lines: seq<Line>)
    requires step == Step("unit", Success, map["a" := "p"], map[])
    requires lines == [Running("a"), ResultLine(0), Running("a"), ResultLine(0)]
    ensures Reported([step], Some(lines), []) == Summary([], NothingIgnored)
  {
    var block := BlockView(Key(Executable, "a"), [], Some(0), None, [], false);
    var kept := block.(package := Some("p"), steps := [step]);
    TwoRunsParse(block.key, block);
    TwoRunsFold(step, block, kept);
    TwoRunsCount(step, block, kept);
    assert StepProblems([step], Some([block, block])) == [];
  }

  // ---------------------------------------------------------------- the blocks, changed in place

  class Block {
    const key: Key
    var ignored: seq<Test>
    var counted: Option<nat>
    var package: Option<string>
    var steps: seq<Step>
    var failed: bool

    function View(): BlockView
      reads this
    {
      BlockView(key, ignored, counted, package, steps, failed)
    }

    constructor (key: Key)
      ensures View() == NewBlock(key)
    {
      this.key := key;
      ignored, counted, package, steps, failed := [], None, None, [], false;
    }

    method Absorb(other: Block)
      requires other != this
      modifies this
      ensures View() == old(View()).Absorb(other.View())
    {
      ignored := ignored + other.ignored;
      if other.counted.Some? {
        counted := Some((if counted.Some? then counted.value else 0) + other.counted.value);
      }
    }
  }

  ghost predicate Separate(blocks: seq<Block>) {
    forall i, j | 0 <= i < j < |blocks| :: blocks[i] != blocks[j]
  }

  function Views(blocks: seq<Block>): (views: seq<BlockView>)
    reads blocks
    ensures |views| == |blocks| && forall i | 0 <= i < |blocks| :: views[i] == blocks[i].View()
  {
    seq(|blocks|, i requires 0 <= i < |blocks| reads blocks => blocks[i].View())
  }

  lemma LastView(before: seq<BlockView>, after: seq<BlockView>)
    requires before != [] && |after| == |before| && forall i | 0 <= i < |before| - 1 :: after[i] == before[i]
    ensures after == WithLast(before, after[|after| - 1])
  {
  }

  method StartBlock(blocks: seq<Block>, key: Key) returns (more: seq<Block>)
    requires Separate(blocks)
    ensures Separate(more) && Views(more) == Views(blocks) + [NewBlock(key)]
    ensures |more| == |blocks| + 1 && more[..|blocks|] == blocks && fresh(more[|blocks|])
  {
    var block := new Block(key);
    more := blocks + [block];
  }

  /** A line that is not a header changes only the newest block. */
  method TakeLine(blocks: seq<Block>, line: Line)
    requires Separate(blocks) && blocks != [] && !line.Running? && !line.DocTests?
    modifies blocks[|blocks| - 1]
    ensures Parse(Views(blocks), []) == ReadLine(Parse(old(Views(blocks)), []), line)
  {
    ghost var before := Views(blocks);
    var block := blocks[|blocks| - 1];
    match line {
      case Ignored(test) => block.ignored := block.ignored + [test];
      case Failed => block.failed := true;
      case ResultLine(count) =>
        block.counted := Some((if block.counted.Some? then block.counted.value else 0) + count);
      case Other =>
    }
    LastView(before, Views(blocks));
  }

  lemma ProblemsRideAlong(blocks: seq<BlockView>, problems: seq<Problem>, line: Line)
    requires blocks != []
    ensures ReadLine(Parse(blocks, problems), line) == Parse(ReadLine(Parse(blocks, []), line).blocks, problems)
  {
  }

  /** One turn of `parse_log`: a header starts a block, and the newest block takes other lines. */
  method NextLine(blocks: seq<Block>, problems: seq<Problem>, line: Line)
    returns (blocks': seq<Block>, problems': seq<Problem>)
    requires Separate(blocks)
    modifies if blocks == [] then {} else {blocks[|blocks| - 1]}
    ensures Separate(blocks') && forall i | 0 <= i < |blocks'| :: blocks'[i] in blocks || fresh(blocks'[i])
    ensures Parse(Views(blocks'), problems') == ReadLine(Parse(old(Views(blocks)), problems), line)
  {
    blocks', problems' := blocks, problems;
    if line.Running? {
      blocks' := StartBlock(blocks, Key(Executable, line.executable));
    } else if line.DocTests? {
      blocks' := StartBlock(blocks, Key(Library, line.library));
    } else if blocks != [] {
      ProblemsRideAlong(Views(blocks), problems, line);
      TakeLine(blocks, line);
    } else if line.Ignored? {
      problems' := problems + [BeforeAnyBlock(line.test)];
    }
  }

  /** `parse_log`, over classified lines. */
  method ParseLog(lines: seq<Line>) returns (blocks: seq<Block>, problems: seq<Problem>)
    ensures Separate(blocks) && fresh(blocks) && Parsed(lines) == Parse(Views(blocks), problems)
  {
    blocks, problems := [], [];
    for i := 0 to |lines|
      invariant Separate(blocks) && fresh(blocks)
      invariant Parsed(lines[..i]) == Parse(Views(blocks), problems)
    {
      assert lines[..i + 1][..i] == lines[..i];
      blocks, problems := NextLine(blocks, problems, lines[i]);
    }
    assert lines[..|lines|] == lines;
  }

  ghost function KeysOf(kept: seq<BlockView>): set<Key> {
    set b | b in kept :: b.key
  }

  lemma KeysAfter(c: Check, c': Check, steps: seq<Step>, block: BlockView)
    requires c' == CheckBlock(steps, c, block)
    ensures Folds(steps, c.kept, block) ==> KeysOf(c'.kept) == KeysOf(c.kept)
    ensures |c'.kept| == |c.kept| + 1 ==> KeysOf(c'.kept) == KeysOf(c.kept) + {block.key}
    ensures !Folds(steps, c.kept, block) && |c'.kept| == |c.kept| ==> c'.kept == c.kept
  {
    if Folds(steps, c.kept, block) {
      var last := c.kept[|c.kept| - 1];
      assert c.kept == c.kept[..|c.kept| - 1] + [last];
      assert KeysOf(c'.kept) == KeysOf(c.kept[..|c.kept| - 1]) + {last.key};
      assert KeysOf(c.kept) == KeysOf(c.kept[..|c.kept| - 1]) + {last.key};
    }
  }

  /** One turn of `check_blocks`: the block is folded, refused or kept. */
  method CheckOne(steps: seq<Step>, kept: seq<Block>, seen: set<Key>, problems: seq<Problem>, block: Block)
    returns (kept': seq<Block>, seen': set<Key>, problems': seq<Problem>)
    requires Separate(kept) && block !in kept && seen == KeysOf(Views(kept))
    modifies set b | b in kept
    modifies block
    ensures Separate(kept') && (kept' == kept || kept' == kept + [block])
    ensures seen' == KeysOf(Views(kept'))
    ensures Check(Views(kept'), problems')
            == CheckBlock(steps, Check(old(Views(kept)), problems), old(block.View()))
  {
    ghost var c := Check(Views(kept), problems);
    ghost var view := block.View();
    KeysAfter(c, CheckBlock(steps, c, view), steps, view);
    var found := Owners(steps, block.key);
    var repeated := block.key in seen;
    assert repeated <==> Repeated(Views(kept), block.key);
    kept', seen', problems' := kept, seen, problems;
    if kept != [] && kept[|kept| - 1].failed && Unfinished(kept[|kept| - 1].steps) && (repeated || found == []) {
      kept[|kept| - 1].Absorb(block);
      LastView(c.kept, Views(kept));
      return;
    }
    if found == [] {
      problems' := problems + [Unlisted(block.key)];
      return;
    }
    if |Packages(found)| > 1 {
      problems' := problems + [ManyPackages(block.key)];
      return;
    }
    block.package := Some(found[0].1);
    block.steps := StepsOf(found);
    kept' := kept + [block];
    seen' := seen + {block.key};
    assert Views(kept') == c.kept + [block.View()];
  }

  method CheckCounts(kept: seq<Block>) returns (problems: seq<Problem>)
    ensures problems == CountProblems(Views(kept))
  {
    problems := [];
    ghost var views := Views(kept);
    for i := 0 to |kept|
      invariant problems == CountProblems(views[..i])
    {
      assert views[..i + 1][..i] == views[..i];
      var block := kept[i];
      if block.counted.None? {
        if !Unfinished(block.steps) {
          problems := problems + [NoResult(block.key)];
        }
      } else if block.counted.value != |block.ignored| {
        problems := problems + [Miscounted(block.key, |block.ignored|, block.counted.value)];
      }
    }
    assert views[..|views|] == views;
  }

  /** The first loop of `check_blocks`: folds a failing test's printed run into that test's block. */
  method FoldBlocks(steps: seq<Step>, blocks: seq<Block>) returns (kept: seq<Block>, problems: seq<Problem>)
    requires Separate(blocks)
    modifies set b | b in blocks
    ensures Check(Views(kept), problems) == Folded(steps, old(Views(blocks)))
  {
    kept, problems := [], [];
    var seen: set<Key> := {};
    ghost var views := Views(blocks);
    for i := 0 to |blocks|
      invariant Separate(kept) && forall b | b in kept :: b in blocks
      invariant forall j | i <= j < |blocks| :: blocks[j] !in kept
      invariant seen == KeysOf(Views(kept))
      invariant forall j | i <= j < |blocks| :: blocks[j].View() == views[j]
      invariant Check(Views(kept), problems) == Folded(steps, views[..i])
    {
      assert views[..i + 1][..i] == views[..i];
      assert blocks[i] in blocks;
      kept, seen, problems := CheckOne(steps, kept, seen, problems, blocks[i]);
    }
    assert views[..|views|] == views;
  }

  /** `check_blocks`: the folded blocks, with every fold's and every count's problem. */
  method CheckBlocks(steps: seq<Step>, blocks: seq<Block>) returns (kept: seq<Block>, problems: seq<Problem>)
    requires Separate(blocks)
    modifies set b | b in blocks
    ensures var check := Folded(steps, old(Views(blocks)));
            && Views(kept) == check.kept
            && problems == check.problems + CountProblems(check.kept)
  {
    kept, problems := FoldBlocks(steps, blocks);
    var miscounts := CheckCounts(kept);
    problems := problems + miscounts;
  }

  method CheckSteps(steps: seq<Step>, log: Option<seq<Block>>) returns (problems: seq<Problem>)
    ensures problems == StepProblems(steps, if log.Some? then Some(Views(log.value)) else None)
  {
    problems := [];
    var logged: set<string> := {};
    if log.Some? {
      var blocks := log.value;
      logged := set b | b in blocks && b.key.kind == Executable :: b.key.name;
      LoggedViews(blocks, logged);
    }
    ghost var seen := if log.Some? then Some(Views(log.value)) else None;
    for i := 0 to |steps|
      invariant problems == StepProblems(steps[..i], seen)
    {
      assert steps[..i + 1][..i] == steps[..i];
      if steps[i].outcome == Success {
        if log.None? {
          problems := problems + [NoLog(steps[i])];
        } else if steps[i].executables.Keys - logged != {} {
          problems := problems + [NotInLog(steps[i], steps[i].executables.Keys - logged)];
        }
      }
    }
    assert steps[..|steps|] == steps;
  }

  lemma LoggedViews(blocks: seq<Block>, logged: set<string>)
    requires logged == set b | b in blocks && b.key.kind == Executable :: b.key.name
    ensures logged == Logged(Views(blocks))
  {
    forall b | b in blocks ensures b.View() in Views(blocks) {
      var i :| 0 <= i < |blocks| && blocks[i] == b;
      assert Views(blocks)[i] == b.View();
    }
    forall v | v in Views(blocks) ensures exists b | b in blocks :: b.key == v.key {
      var i :| 0 <= i < |blocks| && Views(blocks)[i] == v;
      assert blocks[i] in blocks;
    }
  }

  /** `main` from the log on: read, fold, check, and only then list. */
  method MakeReport(steps: seq<Step>, log: Option<seq<Line>>, listing: seq<Problem>) returns (report: Report)
    ensures report == Reported(steps, log, listing)
  {
    var blocks: seq<Block>, early: seq<Problem> := [], [];
    if log.Some? {
      blocks, early := ParseLog(log.value);
    }
    ghost var views := Views(blocks);
    var missing := CheckSteps(steps, if log.Some? then Some(blocks) else None);
    var kept, broken := CheckBlocks(steps, blocks);
    var problems := early + listing + broken + missing;
    assert problems == early + listing + Folded(steps, views).problems + CountProblems(Folded(steps, views).kept) + missing;
    if problems != [] {
      return Refused(problems);
    }
    var rows := AllRows(Views(kept));
    report := Summary(rows, StatusOf(steps, |rows|));
  }
}
