/** What the ignored-test report says, in terms of the log's lines and the steps' listings. */
module ReportRules {
  import opened Wrappers
  import opened IgnoredTests

  // ---------------------------------------------------------------- a block is its lines

  function KeyOf(header: Line): Key
    requires IsHeader(header)
  {
    if header.Running? then Key(Executable, header.executable) else Key(Library, header.library)
  }

  function ResultSum(lines: seq<Line>): nat {
    if lines == [] then 0
    else ResultSum(lines[..|lines| - 1]) + (if lines[|lines| - 1].ResultLine? then lines[|lines| - 1].count else 0)
  }

  predicate HasResult(lines: seq<Line>) {
    exists line | line in lines :: line.ResultLine?
  }

  /** The block of a header and the lines after it: its ignored tests in order, the sum of its
      result lines if it has one, and whether a test in it failed. */
  function BlockOf(key: Key, body: seq<Line>): BlockView {
    BlockView(key, IgnoredLines(body),
              if HasResult(body) then Some(ResultSum(body)) else None,
              None, [], Failed in body)
  }

  lemma BodyGrows(blocks: seq<BlockView>, problems: seq<Problem>, key: Key, body: seq<Line>)
    requires body != [] && !IsHeader(body[|body| - 1])
    ensures ReadLine(Parse(blocks + [BlockOf(key, body[..|body| - 1])], problems), body[|body| - 1])
            == Parse(blocks + [BlockOf(key, body)], problems)
  {
    var before := BlockOf(key, body[..|body| - 1]);
    BlockGrows(key, body);
    assert (blocks + [before])[..|blocks|] == blocks;
    assert ReadLine(Parse(blocks + [before], problems), body[|body| - 1]).problems == problems;
    assert WithLast(blocks + [before], BlockOf(key, body)) == blocks + [BlockOf(key, body)];
  }

  lemma BlockGrows(key: Key, body: seq<Line>)
    requires body != [] && !IsHeader(body[|body| - 1])
    ensures var before, after := BlockOf(key, body[..|body| - 1]), BlockOf(key, body);
            match body[|body| - 1]
            case Ignored(test) => after == before.(ignored := before.ignored + [test])
            case Failed => after == before.(failed := true)
            case ResultLine(count) => after == before.(counted := Plus(before.counted, Some(count)))
            case _ => after == before
  {
    var front, last := body[..|body| - 1], body[|body| - 1];
    assert body == front + [last];
    ResultsGrow(front, last);
    NoResultNoSum(front);
    assert !last.Ignored? ==> IgnoredLines(front) + [] == IgnoredLines(front);
  }

  lemma ResultsGrow(front: seq<Line>, last: Line)
    ensures HasResult(front + [last]) <==> HasResult(front) || last.ResultLine?
    ensures ResultSum(front + [last]) == ResultSum(front) + (if last.ResultLine? then last.count else 0)
    ensures IgnoredLines(front + [last]) == IgnoredLines(front) + (if last.Ignored? then [last.test] else [])
    ensures Failed in front + [last] <==> Failed in front || last == Failed
  {
    assert (front + [last])[..|front|] == front;
    if HasResult(front) {
      var line :| line in front && line.ResultLine?;
      assert line in front + [last];
    }
    if last.ResultLine? { assert last in front + [last]; }
  }

  lemma {:induction false} NoResultNoSum(lines: seq<Line>)
    ensures !HasResult(lines) ==> ResultSum(lines) == 0
  {
    if lines != [] {
      assert lines == lines[..|lines| - 1] + [lines[|lines| - 1]];
      ResultsGrow(lines[..|lines| - 1], lines[|lines| - 1]);
      NoResultNoSum(lines[..|lines| - 1]);
    }
  }

  /** Reading a header and the lines up to the next one adds exactly their block. */
  lemma {:induction false} BlockIsItsLines(front: seq<Line>, header: Line, body: seq<Line>)
    requires IsHeader(header) && forall i | 0 <= i < |body| :: !IsHeader(body[i])
    ensures Parsed(front + [header] + body)
            == Parse(Parsed(front).blocks + [BlockOf(KeyOf(header), body)], Parsed(front).problems)
    decreases |body|
  {
    var lines := front + [header] + body;
    if body == [] {
      assert lines[..|lines| - 1] == front;
      assert BlockOf(KeyOf(header), body) == NewBlock(KeyOf(header));
    } else {
      var less := body[..|body| - 1];
      assert lines[..|lines| - 1] == front + [header] + less;
      BlockIsItsLines(front, header, less);
      BodyGrows(Parsed(front).blocks, Parsed(front).problems, KeyOf(header), body);
    }
  }

  // ---------------------------------------------------------------- what is kept

  predicate Lists(step: Step, key: Key) {
    key.name in (if key.kind == Executable then step.executables else step.libraries)
  }

  function PackageIn(step: Step, key: Key): string
    requires Lists(step, key)
  {
    (if key.kind == Executable then step.executables else step.libraries)[key.name]
  }

  ghost predicate IsListed(steps: seq<Step>, key: Key) {
    exists s :: s in steps && Lists(s, key)
  }

  ghost predicate OnePackage(steps: seq<Step>, key: Key) {
    forall s, t | s in steps && t in steps && Lists(s, key) && Lists(t, key) :: PackageIn(s, key) == PackageIn(t, key)
  }

  /** The owners found are the steps that list the key, each with its package for it. */
  lemma {:induction false} OwnersAreLists(steps: seq<Step>, key: Key)
    ensures forall f | f in Owners(steps, key) :: f.0 in steps && Lists(f.0, key) && f.1 == PackageIn(f.0, key)
    ensures forall s | s in steps && Lists(s, key) :: (s, PackageIn(s, key)) in Owners(steps, key)
  {
    if steps != [] {
      OwnersAreLists(steps[1..], key);
      assert steps == [steps[0]] + steps[1..];
    }
  }

  lemma OwnersMean(steps: seq<Step>, key: Key)
    ensures Owners(steps, key) != [] <==> IsListed(steps, key)
    ensures |Packages(Owners(steps, key))| <= 1 <==> OnePackage(steps, key)
    ensures forall s :: s in StepsOf(Owners(steps, key)) <==> s in steps && Lists(s, key)
  {
    var found := Owners(steps, key);
    OwnersAreLists(steps, key);
    if found != [] { assert found[0] in found; }
    forall s: Step ensures s in StepsOf(found) <==> s in steps && Lists(s, key) {
      if s in StepsOf(found) {
        var i :| 0 <= i < |found| && StepsOf(found)[i] == s;
        assert found[i] in found;
      }
      if s in steps && Lists(s, key) {
        var i :| 0 <= i < |found| && found[i] == (s, PackageIn(s, key));
        assert StepsOf(found)[i] == s;
      }
    }
    SmallSet(Packages(found));
    if OnePackage(steps, key) {
      forall p, q | p in Packages(found) && q in Packages(found) ensures p == q {
        var f :| f in found && f.1 == p;
        var g :| g in found && g.1 == q;
      }
    } else {
      var s, t :| s in steps && t in steps && Lists(s, key) && Lists(t, key) && PackageIn(s, key) != PackageIn(t, key);
      assert (s, PackageIn(s, key)) in found && (t, PackageIn(t, key)) in found;
      assert PackageIn(s, key) in Packages(found) && PackageIn(t, key) in Packages(found);
    }
  }

  lemma SmallSet(s: set<string>)
    ensures |s| <= 1 <==> forall p, q | p in s && q in s :: p == q
  {
    if s != {} {
      var p :| p in s;
      assert s == {p} + (s - {p});
      if s - {p} == {} {
        assert s == {p};
      } else {
        var q :| q in s - {p};
        assert |s - {p}| >= 1;
      }
    }
  }

  /** A kept block carries exactly the steps that list it, the one package they all give it, and
      the failure mark of a block of the log with its key, whose tests come first in it. */
  ghost predicate WellKept(steps: seq<Step>, blocks: seq<BlockView>, b: BlockView) {
    && (forall s :: s in b.steps <==> s in steps && Lists(s, b.key))
    && IsListed(steps, b.key) && OnePackage(steps, b.key)
    && (forall s | s in steps && Lists(s, b.key) :: b.package == Some(PackageIn(s, b.key)))
    && (exists o :: o in blocks && o.key == b.key && o.failed == b.failed && o.ignored <= b.ignored)
  }

  lemma {:induction false} KeptAreWell(steps: seq<Step>, blocks: seq<BlockView>, b: BlockView)
    requires b in Folded(steps, blocks).kept
    ensures WellKept(steps, blocks, b)
    decreases |blocks|
  {
    var front, block := blocks[..|blocks| - 1], blocks[|blocks| - 1];
    var c := Folded(steps, front);
    assert blocks == front + [block];
    if b in c.kept {
      KeptAreWell(steps, front, b);
      StillWell(steps, front, block, b, b);
    } else if Folds(steps, c.kept, block) {
      var last := c.kept[|c.kept| - 1];
      assert last in c.kept && b == last.Absorb(block);
      KeptAreWell(steps, front, last);
      StillWell(steps, front, block, last, b);
    } else {
      NewlyWell(steps, front, block, b);
    }
  }

  lemma StillWell(steps: seq<Step>, front: seq<BlockView>, block: BlockView, was: BlockView, b: BlockView)
    requires WellKept(steps, front, was)
    requires b.key == was.key && b.steps == was.steps && b.package == was.package && b.failed == was.failed && was.ignored <= b.ignored
    ensures WellKept(steps, front + [block], b)
  {
    var o :| o in front && o.key == was.key && o.failed == was.failed && o.ignored <= was.ignored;
    assert o in front + [block] && o.ignored <= b.ignored;
  }

  lemma NewlyWell(steps: seq<Step>, front: seq<BlockView>, block: BlockView, b: BlockView)
    requires var found := Owners(steps, block.key);
             found != [] && |Packages(found)| <= 1 && b == block.(package := Some(found[0].1), steps := StepsOf(found))
    ensures WellKept(steps, front + [block], b)
  {
    var found := Owners(steps, block.key);
    OwnersMean(steps, block.key);
    OwnersAreLists(steps, block.key);
    assert found[0] in found;
    assert block in front + [block];
  }

  // ---------------------------------------------------------------- folding

  /** The newest kept block has a failing test of its own, in a step that did not succeed. */
  ghost predicate AfterFailure(steps: seq<Step>, kept: seq<BlockView>) {
    && kept != [] && kept[|kept| - 1].failed
    && exists s :: s in steps && Lists(s, kept[|kept| - 1].key) && s.outcome != Success
  }

  ghost predicate IsNested(steps: seq<Step>, kept: seq<BlockView>, key: Key) {
    AfterFailure(steps, kept) && (!IsListed(steps, key) || exists b :: b in kept && b.key == key)
  }

  /** A block is read as a failing test's output exactly when it comes right after a block with a
      failing test, from a step that did not succeed, and no step lists it or it repeats. */
  lemma FoldsWhenNested(steps: seq<Step>, blocks: seq<BlockView>, block: BlockView)
    ensures Folds(steps, Folded(steps, blocks).kept, block) <==> IsNested(steps, Folded(steps, blocks).kept, block.key)
  {
    var kept := Folded(steps, blocks).kept;
    OwnersMean(steps, block.key);
    if kept != [] {
      assert kept[|kept| - 1] in kept;
      UnfinishedMeans(steps, blocks, kept[|kept| - 1]);
    }
  }

  lemma UnfinishedMeans(steps: seq<Step>, blocks: seq<BlockView>, b: BlockView)
    requires b in Folded(steps, blocks).kept
    ensures Unfinished(b.steps) <==> exists s :: s in steps && Lists(s, b.key) && s.outcome != Success
  {
    KeptAreWell(steps, blocks, b);
  }

  /** The block's tests and its count went to the newest kept block, and nothing else changed. */
  predicate IsAbsorbed(c: Check, next: Check, block: BlockView) {
    && next.problems == c.problems && |next.kept| == |c.kept| > 0
    && next.kept[..|c.kept| - 1] == c.kept[..|c.kept| - 1]
    && var last, grown := c.kept[|c.kept| - 1], next.kept[|c.kept| - 1];
       && grown == last.(ignored := last.ignored + block.ignored, counted := grown.counted)
       && (block.counted.None? ==> grown.counted == last.counted)
       && (block.counted.Some? ==> grown.counted == Some(CountOf(last) + block.counted.value))
  }

  /** The block is kept after the others as it is, with its package and its steps. */
  predicate IsAdded(c: Check, next: Check, block: BlockView) {
    && next.problems == c.problems && |next.kept| == |c.kept| + 1 && next.kept[..|c.kept|] == c.kept
    && next.kept[|c.kept|] == block.(package := next.kept[|c.kept|].package, steps := next.kept[|c.kept|].steps)
  }

  lemma NestedTurn(steps: seq<Step>, c: Check, block: BlockView)
    requires Folds(steps, c.kept, block)
    ensures IsAbsorbed(c, CheckBlock(steps, c, block), block)
  {
  }

  lemma OtherTurn(steps: seq<Step>, c: Check, block: BlockView)
    requires !Folds(steps, c.kept, block)
    ensures var next := CheckBlock(steps, c, block);
            if !IsListed(steps, block.key) then next == Check(c.kept, c.problems + [Unlisted(block.key)])
            else if !OnePackage(steps, block.key) then next == Check(c.kept, c.problems + [ManyPackages(block.key)])
            else IsAdded(c, next, block)
  {
    OwnersMean(steps, block.key);
  }

  /** What a block does to the list: nested, it goes to the failing block; unlisted or with two
      packages, it is a problem; otherwise it is kept as it is. */
  lemma TurnOutcome(steps: seq<Step>, blocks: seq<BlockView>, block: BlockView)
    ensures var c, next := Folded(steps, blocks), Folded(steps, blocks + [block]);
            if IsNested(steps, c.kept, block.key) then IsAbsorbed(c, next, block)
            else if !IsListed(steps, block.key) then next == Check(c.kept, c.problems + [Unlisted(block.key)])
            else if !OnePackage(steps, block.key) then next == Check(c.kept, c.problems + [ManyPackages(block.key)])
            else IsAdded(c, next, block)
  {
    var c := Folded(steps, blocks);
    FoldsWhenNested(steps, blocks, block);
    NextFold(steps, blocks, block);
    if Folds(steps, c.kept, block) {
      NestedTurn(steps, c, block);
    } else {
      OtherTurn(steps, c, block);
    }
  }

  // ---------------------------------------------------------------- the table

  /** The table lists each kept block's tests in order, every one under the block's package. */
  lemma {:induction false} RowsAreBlocks(kept: seq<BlockView>, m: nat, t: nat)
    requires m < |kept| && t < |kept[m].ignored|
    ensures var at := |AllIgnored(kept[..m])| + t;
            at < |AllRows(kept)| && AllRows(kept)[at] == Row(kept[m].package, kept[m].ignored[t])
    decreases |kept|
  {
    var front := kept[..|kept| - 1];
    RowsShowIgnored(front);
    assert |AllRows(front)| == |AllIgnored(front)|;
    if m < |kept| - 1 {
      assert front[..m] == kept[..m];
      RowsAreBlocks(front, m, t);
    }
  }

  /** In a report that vouches for its list, the rows are the kept blocks' tests under their
      packages, and the status counts exactly those rows. */
  lemma SummaryMeans(steps: seq<Step>, log: Option<seq<Line>>, listing: seq<Problem>)
    requires Reported(steps, log, listing).Summary?
    ensures var kept := Folded(steps, if log.Some? then Parsed(log.value).blocks else []).kept;
            var report := Reported(steps, log, listing);
            && report.rows == AllRows(kept)
            && report.status == if exists s :: s in steps && s.outcome != Success then NotEveryStep
                                else if report.rows == [] then NothingIgnored
                                else SomeIgnored(|report.rows|)
  {
    assert Unfinished(steps) <==> exists s :: s in steps && s.outcome != Success;
  }

  // ---------------------------------------------------------------- problems

  ghost predicate IsEarlyAt(lines: seq<Line>, i: int, p: Problem) {
    0 <= i < |lines| && lines[i].Ignored? && !HasHeader(lines[..i]) && p == BeforeAnyBlock(lines[i].test)
  }

  /** An ignored test before any header. */
  ghost predicate IsEarlyProblem(lines: seq<Line>, p: Problem) {
    exists i :: IsEarlyAt(lines, i, p)
  }

  lemma EarlyPrefix(front: seq<Line>, last: Line, i: int, p: Problem)
    ensures i < |front| ==> (IsEarlyAt(front + [last], i, p) <==> IsEarlyAt(front, i, p))
    ensures IsEarlyAt(front + [last], |front|, p) <==> IsEarlyLine(front, last, p)
  {
    var lines := front + [last];
    if 0 <= i < |front| { assert lines[..i] == front[..i]; }
    assert lines[..|front|] == front;
  }

  lemma LineProblem(front: seq<Line>, last: Line, p: Problem)
    ensures p in Parsed(front + [last]).problems
            <==> p in Parsed(front).problems || IsEarlyLine(front, last, p)
  {
    ParseCounts(front);
    assert (front + [last])[..|front|] == front;
  }

  lemma {:induction false} ParseProblemIs(lines: seq<Line>, p: Problem)
    ensures p in Parsed(lines).problems <==> IsEarlyProblem(lines, p)
  {
    if lines != [] {
      var front, last := lines[..|lines| - 1], lines[|lines| - 1];
      ParseProblemIs(front, p);
      assert lines == front + [last];
      LineProblem(front, last, p);
      EarlyGrows(front, last, p);
    }
  }

  ghost predicate IsEarlyLine(front: seq<Line>, last: Line, p: Problem) {
    last.Ignored? && !HasHeader(front) && p == BeforeAnyBlock(last.test)
  }

  lemma EarlyGrows(front: seq<Line>, last: Line, p: Problem)
    ensures IsEarlyProblem(front + [last], p) <==> IsEarlyProblem(front, p) || IsEarlyLine(front, last, p)
  {
    var lines := front + [last];
    EarlyPrefix(front, last, |front|, p);
    if IsEarlyProblem(front, p) {
      var i :| IsEarlyAt(front, i, p);
      EarlyPrefix(front, last, i, p);
      assert IsEarlyAt(lines, i, p);
    }
    if IsEarlyProblem(lines, p) {
      var i :| IsEarlyAt(lines, i, p);
      EarlyPrefix(front, last, i, p);
    }
  }

  /** The problem block `k` is on its own turn. */
  ghost predicate IsTurnProblem(steps: seq<Step>, kept: seq<BlockView>, key: Key, p: Problem) {
    && !IsNested(steps, kept, key)
    && (|| (!IsListed(steps, key) && p == Unlisted(key))
        || (IsListed(steps, key) && !OnePackage(steps, key) && p == ManyPackages(key)))
  }

  ghost predicate IsProblemAt(steps: seq<Step>, blocks: seq<BlockView>, k: int, p: Problem) {
    0 <= k < |blocks| && IsTurnProblem(steps, Folded(steps, blocks[..k]).kept, blocks[k].key, p)
  }

  /** Some block is a problem on its turn. */
  ghost predicate IsBlockProblem(steps: seq<Step>, blocks: seq<BlockView>, p: Problem) {
    exists k :: IsProblemAt(steps, blocks, k, p)
  }

  lemma ProblemAtPrefix(steps: seq<Step>, front: seq<BlockView>, last: BlockView, k: int, p: Problem)
    ensures k < |front| ==> (IsProblemAt(steps, front + [last], k, p) <==> IsProblemAt(steps, front, k, p))
    ensures IsProblemAt(steps, front + [last], |front|, p) <==> IsTurnProblem(steps, Folded(steps, front).kept, last.key, p)
  {
    var blocks := front + [last];
    if 0 <= k < |front| { assert blocks[..k] == front[..k]; }
    assert blocks[..|front|] == front;
  }

  lemma TurnProblem(steps: seq<Step>, front: seq<BlockView>, last: BlockView, p: Problem)
    ensures p in Folded(steps, front + [last]).problems
            <==> p in Folded(steps, front).problems || IsTurnProblem(steps, Folded(steps, front).kept, last.key, p)
  {
    TurnOutcome(steps, front, last);
  }

  lemma {:induction false} FoldProblemIs(steps: seq<Step>, blocks: seq<BlockView>, p: Problem)
    ensures p in Folded(steps, blocks).problems <==> IsBlockProblem(steps, blocks, p)
  {
    if blocks != [] {
      var front, last := blocks[..|blocks| - 1], blocks[|blocks| - 1];
      FoldProblemIs(steps, front, p);
      assert blocks == front + [last];
      TurnProblem(steps, front, last, p);
      forall k ensures IsProblemAt(steps, blocks, k, p)
                       <==> IsProblemAt(steps, front, k, p)
                            || (k == |front| && IsTurnProblem(steps, Folded(steps, front).kept, last.key, p))
      {
        ProblemAtPrefix(steps, front, last, k, p);
      }
      assert IsTurnProblem(steps, Folded(steps, front).kept, last.key, p) ==> IsProblemAt(steps, blocks, |front|, p);
      if k :| IsProblemAt(steps, front, k, p) { assert IsProblemAt(steps, blocks, k, p); }
    }
  }

  /** A kept block's problem: no result line though all its steps succeeded, or a wrong count. */
  ghost predicate IsCountProblem(b: BlockView, p: Problem) {
    match b.counted
    case None => p == NoResult(b.key) && forall s | s in b.steps :: s.outcome == Success
    case Some(n) => p == Miscounted(b.key, |b.ignored|, n) && n != |b.ignored|
  }

  ghost predicate IsKeptProblem(kept: seq<BlockView>, p: Problem) {
    exists b :: b in kept && IsCountProblem(b, p)
  }

  lemma {:induction false} CountProblemIs(kept: seq<BlockView>, p: Problem)
    ensures p in CountProblems(kept) <==> IsKeptProblem(kept, p)
  {
    if kept != [] {
      var front, last := kept[..|kept| - 1], kept[|kept| - 1];
      CountProblemIs(front, p);
      assert kept == front + [last];
      assert p in CountProblem(last) <==> IsCountProblem(last, p);
    }
  }

  /** A succeeded step's problem: no log at all, or executables it lists that never ran in it. */
  ghost predicate IsStepProblem(step: Step, log: Option<seq<Line>>, p: Problem) {
    && step.outcome == Success
    && match log
       case None => p == NoLog(step)
       case Some(lines) =>
         p.NotInLog? && p.step == step && p.executables != {}
         && forall name :: name in p.executables <==> name in step.executables && Running(name) !in lines
  }

  lemma {:induction false} LoggedAreRunning(lines: seq<Line>, name: string)
    ensures name in Logged(Parsed(lines).blocks) <==> Running(name) in lines
  {
    if lines != [] {
      var front, last := lines[..|lines| - 1], lines[|lines| - 1];
      LoggedAreRunning(front, name);
      assert lines == front + [last];
      KeysAfterLine(Parsed(front), last);
      LoggedIsKeys(Parsed(front).blocks, name);
      LoggedIsKeys(Parsed(lines).blocks, name);
    }
  }

  ghost predicate HasKey(blocks: seq<BlockView>, key: Key) {
    exists i :: 0 <= i < |blocks| && blocks[i].key == key
  }

  lemma LoggedIsKeys(blocks: seq<BlockView>, name: string)
    ensures name in Logged(blocks) <==> HasKey(blocks, Key(Executable, name))
  {
    if HasKey(blocks, Key(Executable, name)) {
      var i :| 0 <= i < |blocks| && blocks[i].key == Key(Executable, name);
      assert blocks[i] in blocks;
    }
    if name in Logged(blocks) {
      var b :| b in blocks && b.key.kind == Executable && b.key.name == name;
      var i :| 0 <= i < |blocks| && blocks[i] == b;
    }
  }

  /** A line adds its own key, if it is a header, and keeps every other. */
  lemma KeysAfterLine(p: Parse, line: Line)
    ensures forall key :: HasKey(ReadLine(p, line).blocks, key) <==> HasKey(p.blocks, key) || (IsHeader(line) && key == KeyOf(line))
  {
    var blocks, more := p.blocks, ReadLine(p, line).blocks;
    assert forall i | 0 <= i < |blocks| :: more[i].key == blocks[i].key;
    assert IsHeader(line) ==> |more| == |blocks| + 1 && more[|blocks|].key == KeyOf(line);
    forall key ensures HasKey(more, key) <==> HasKey(blocks, key) || (IsHeader(line) && key == KeyOf(line)) {
      if HasKey(blocks, key) {
        var i :| 0 <= i < |blocks| && blocks[i].key == key;
        assert more[i].key == key;
      }
    }
  }

  lemma StepProblemMeans(step: Step, log: Option<seq<Line>>, p: Problem)
    ensures var seen := if log.Some? then Some(Parsed(log.value).blocks) else None;
            p in StepProblem(step, seen) <==> IsStepProblem(step, log, p)
  {
    if log.Some? {
      var logged := Logged(Parsed(log.value).blocks);
      forall name: string ensures name in logged <==> Running(name) in log.value { LoggedAreRunning(log.value, name); }
      var missing := step.executables.Keys - logged;
      forall name: string ensures name in missing <==> name in step.executables && Running(name) !in log.value {}
      if IsStepProblem(step, log, p) {
        assert p.executables == missing;
      }
    }
  }

  ghost predicate IsAStepProblem(steps: seq<Step>, log: Option<seq<Line>>, p: Problem) {
    exists s :: s in steps && IsStepProblem(s, log, p)
  }

  lemma {:induction false} StepProblemIs(steps: seq<Step>, log: Option<seq<Line>>, p: Problem)
    ensures var seen := if log.Some? then Some(Parsed(log.value).blocks) else None;
            p in StepProblems(steps, seen) <==> IsAStepProblem(steps, log, p)
  {
    if steps != [] {
      var front, last := steps[..|steps| - 1], steps[|steps| - 1];
      StepProblemIs(front, log, p);
      StepProblemMeans(last, log, p);
      assert steps == front + [last];
    }
  }

  /** A problem of the report: an ignored test before any header, a step listing's own, a block
      that is neither nested nor of one package, a kept block miscounted, or a succeeded step that
      is not in the log. */
  ghost predicate IsProblem(steps: seq<Step>, log: Option<seq<Line>>, listing: seq<Problem>, p: Problem) {
    var lines := if log.Some? then log.value else [];
    var blocks := Parsed(lines).blocks;
    || IsEarlyProblem(lines, p)
    || p in listing
    || IsBlockProblem(steps, blocks, p)
    || IsKeptProblem(Folded(steps, blocks).kept, p)
    || IsAStepProblem(steps, log, p)
  }

  function ProblemsOf(steps: seq<Step>, log: Option<seq<Line>>, listing: seq<Problem>): seq<Problem> {
    var parsed := Parsed(if log.Some? then log.value else []);
    var check := Folded(steps, parsed.blocks);
    parsed.problems + listing + check.problems + CountProblems(check.kept)
    + StepProblems(steps, if log.Some? then Some(parsed.blocks) else None)
  }

  lemma InOneOfFive(a: seq<Problem>, b: seq<Problem>, c: seq<Problem>, d: seq<Problem>, e: seq<Problem>, p: Problem)
    ensures p in a + b + c + d + e <==> p in a || p in b || p in c || p in d || p in e
  {
  }

  lemma ProblemsAre(steps: seq<Step>, log: Option<seq<Line>>, listing: seq<Problem>, p: Problem)
    ensures p in ProblemsOf(steps, log, listing) <==> IsProblem(steps, log, listing, p)
  {
    var lines := if log.Some? then log.value else [];
    var blocks := Parsed(lines).blocks;
    var seen := if log.Some? then Some(blocks) else None;
    var check := Folded(steps, blocks);
    ParseProblemIs(lines, p);
    FoldProblemIs(steps, blocks, p);
    CountProblemIs(check.kept, p);
    StepProblemIs(steps, log, p);
    InOneOfFive(Parsed(lines).problems, listing, check.problems, CountProblems(check.kept), StepProblems(steps, seen), p);
  }

  lemma RefusedForProblems(steps: seq<Step>, log: Option<seq<Line>>, listing: seq<Problem>)
    ensures var report := Reported(steps, log, listing);
            if ProblemsOf(steps, log, listing) == [] then report.Summary?
            else report == IgnoredTests.Refused(ProblemsOf(steps, log, listing))
  {
  }

  /** The report lists exactly its problems, and vouches for its list exactly when there are none. */
  lemma ReportIsItsProblems(steps: seq<Step>, log: Option<seq<Line>>, listing: seq<Problem>)
    ensures Reported(steps, log, listing).Summary? <==> !exists p :: IsProblem(steps, log, listing, p)
    ensures Reported(steps, log, listing).Refused? ==>
              forall p :: p in Reported(steps, log, listing).problems <==> IsProblem(steps, log, listing, p)
  {
    var problems := ProblemsOf(steps, log, listing);
    RefusedForProblems(steps, log, listing);
    forall p: Problem ensures p in problems <==> IsProblem(steps, log, listing, p) {
      ProblemsAre(steps, log, listing, p);
    }
    if problems != [] { assert problems[0] in problems; }
  }
}
