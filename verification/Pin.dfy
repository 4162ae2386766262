/** What pinning a tree accepts, and what it pins. */
module Pins {
  import opened Wrappers
  import opened Digests
  import opened Listings
  import opened Texts
  import opened PinnedTrees
  import Sorting

  // ---------------------------------------------------------------- what a tree holds

  /** Names a file system can hold: not empty, and without a slash. */
  ghost predicate WellNamed(node: Node) {
    node.Dir? ==>
      forall n | n in node.entries :: n != "" && '/' !in n && WellNamed(node.entries[n])
  }

  /** No link, no special file, no name that is not text, and no empty directory inside. */
  ghost predicate Plain(node: Node) {
    match node
    case File(_) => true
    case Link => false
    case Special => false
    case Dir(entries) =>
      forall n | n in entries :: IsUtf8(n) && entries[n] != Dir(map[]) && Plain(entries[n])
  }

  /** Under the node at `path`, the regular file at `target` holds `bytes`. */
  ghost predicate HasFile(node: Node, path: string, target: string, bytes: string) {
    match node
    case File(held) => target == path && bytes == held
    case Dir(entries) => exists n :: n in entries && HasFile(entries[n], Join(path, n), target, bytes)
    case _ => false
  }

  /** Every file under the node is listed with its size and digest. */
  ghost predicate AllListed(listed: Listed, node: Node, path: string) {
    forall target, bytes | HasFile(node, path, target, bytes) :: Visited(listed, target, bytes).Ok?
  }

  // ---------------------------------------------------------------- the walk finds exactly that

  lemma {:induction false} FoundInSucceeds(listed: Listed, dir: Node, names: seq<string>, prefix: string)
    requires dir.Dir? && forall n | n in names :: n in dir.entries
    ensures FoundIn(listed, dir, names, prefix).Ok?
            <==> forall n | n in names :: IsUtf8(n) && Found(listed, dir.entries[n], Join(prefix, n)).Ok?
  {
    if names != [] {
      FoundInSucceeds(listed, dir, names[1..], prefix);
      assert names == [names[0]] + names[1..];
      assert names[0] in names;
    }
  }

  lemma NamesCoverEntries(entries: map<string, Node>)
    ensures forall n :: n in Names(entries) <==> n in entries
    ensures forall i, j | 0 <= i < j < |Names(entries)| :: Names(entries)[i] != Names(entries)[j]
  {
    LexIsTotal();
    Sorting.InOrderSpec(LexLess, entries.Keys);
  }

  lemma JoinIsNamed(path: string, name: string)
    requires name != ""
    ensures Join(path, name) != ""
  {
  }

  lemma AllListedInside(listed: Listed, dir: Node, path: string)
    requires dir.Dir?
    ensures AllListed(listed, dir, path)
            <==> forall n | n in dir.entries :: AllListed(listed, dir.entries[n], Join(path, n))
  {
    if AllListed(listed, dir, path) {
      forall n | n in dir.entries ensures AllListed(listed, dir.entries[n], Join(path, n)) {
        forall target, bytes | HasFile(dir.entries[n], Join(path, n), target, bytes)
          ensures Visited(listed, target, bytes).Ok?
        {
          assert HasFile(dir, path, target, bytes);
        }
      }
    }
  }

  /** The walk succeeds exactly on plain trees whose every file is listed as it is. */
  lemma {:induction false} FoundSucceeds(listed: Listed, node: Node, path: string)
    requires WellNamed(node)
    ensures Found(listed, node, path).Ok?
            <==> Plain(node) && AllListed(listed, node, path) && (node == Dir(map[]) ==> path == "")
    decreases node
  {
    match node
    case Link =>
    case Special =>
    case File(bytes) => assert HasFile(node, path, path, bytes);
    case Dir(entries) =>
      NamesCoverEntries(entries);
      FoundInSucceeds(listed, node, Names(entries), path);
      AllListedInside(listed, node, path);
      forall n | n in entries
        ensures Found(listed, entries[n], Join(path, n)).Ok?
                <==> Plain(entries[n]) && AllListed(listed, entries[n], Join(path, n)) && entries[n] != Dir(map[])
      {
        FoundSucceeds(listed, entries[n], Join(path, n));
        JoinIsNamed(path, n);
      }
  }

  ghost predicate IsFound(f: TreeFile, node: Node, path: string) {
    exists bytes :: HasFile(node, path, f.path, bytes) && f == TreeFile(f.path, Sha256(bytes), false)
  }

  /** The visit of the entry `n` finds `f`. */
  ghost predicate FindsAt(listed: Listed, dir: Node, prefix: string, n: string, f: TreeFile)
    requires dir.Dir? && n in dir.entries
  {
    var found := Found(listed, dir.entries[n], Join(prefix, n));
    found.Ok? && f in found.value
  }

  lemma {:induction false} FoundInFiles(listed: Listed, dir: Node, names: seq<string>, prefix: string, f: TreeFile)
    requires dir.Dir? && (forall n | n in names :: n in dir.entries) && FoundIn(listed, dir, names, prefix).Ok?
    ensures f in FoundIn(listed, dir, names, prefix).value
            <==> exists n :: n in names && FindsAt(listed, dir, prefix, n, f)
  {
    if names != [] {
      var rest := FoundIn(listed, dir, names[1..], prefix);
      FoundInFiles(listed, dir, names[1..], prefix, f);
      assert f in FoundIn(listed, dir, names, prefix).value
        <==> FindsAt(listed, dir, prefix, names[0], f) || f in rest.value;
      assert names == [names[0]] + names[1..];
    }
  }

  /** The walk's files are the tree's files, with the digests of their bytes. */
  lemma {:induction false} FoundFiles(listed: Listed, node: Node, path: string, f: TreeFile)
    requires Found(listed, node, path).Ok?
    ensures f in Found(listed, node, path).value <==> IsFound(f, node, path)
    decreases node
  {
    match node
    case File(bytes) => assert HasFile(node, path, path, bytes);
    case Dir(entries) =>
      NamesCoverEntries(entries);
      FoundInFiles(listed, node, Names(entries), path, f);
      FoundInSucceeds(listed, node, Names(entries), path);
      forall n | n in entries
        ensures f in Found(listed, entries[n], Join(path, n)).value <==> IsFound(f, entries[n], Join(path, n))
      {
        FoundFiles(listed, entries[n], Join(path, n), f);
      }
      if IsFound(f, node, path) {
        var bytes :| HasFile(node, path, f.path, bytes) && f == TreeFile(f.path, Sha256(bytes), false);
        var n :| n in entries && HasFile(entries[n], Join(path, n), f.path, bytes);
        assert IsFound(f, entries[n], Join(path, n));
      }
  }

  // ---------------------------------------------------------------- no path twice

  predicate AtOrBelow(path: string, target: string) {
    target == path || IsAncestor(path, target)
  }

  lemma {:induction false} FilesAreBelow(node: Node, path: string, target: string, bytes: string)
    requires WellNamed(node) && path != "" && HasFile(node, path, target, bytes)
    ensures AtOrBelow(path, target)
    decreases node
  {
    if node.Dir? {
      var n :| n in node.entries && HasFile(node.entries[n], Join(path, n), target, bytes);
      FilesAreBelow(node.entries[n], Join(path, n), target, bytes);
      assert Join(path, n)[..|path|] == path && Join(path, n)[|path|] == '/';
    }
  }

  /** `name` is the first component of `rest`. */
  predicate Heads(name: string, rest: string) {
    |name| <= |rest| && rest[..|name|] == name && (|rest| == |name| || rest[|name|] == '/')
  }

  lemma OneHead(a: string, b: string, rest: string)
    requires '/' !in a && '/' !in b && Heads(a, rest) && Heads(b, rest)
    ensures a == b
  {
    assert |a| == |b|;
  }

  function Lead(prefix: string): string {
    if prefix == "" then "" else prefix + "/"
  }

  lemma BelowJoin(prefix: string, name: string, target: string)
    requires AtOrBelow(Join(prefix, name), target)
    ensures |Lead(prefix)| <= |target| && Heads(name, target[|Lead(prefix)|..])
  {
    var lead, whole := Lead(prefix), Join(prefix, name);
    assert whole == lead + name;
    assert target[..|whole|] == whole;
    var rest := target[|lead|..];
    assert rest[..|name|] == target[..|whole|][|lead|..];
  }

  /** Two names in one directory never lead to the same path. */
  lemma NamesPart(prefix: string, a: string, b: string, target: string)
    requires '/' !in a && '/' !in b && AtOrBelow(Join(prefix, a), target) && AtOrBelow(Join(prefix, b), target)
    ensures a == b
  {
    BelowJoin(prefix, a, target);
    BelowJoin(prefix, b, target);
    OneHead(a, b, target[|Lead(prefix)|..]);
  }

  lemma FoundBelow(listed: Listed, node: Node, path: string, f: TreeFile)
    requires WellNamed(node) && path != "" && Found(listed, node, path).Ok? && f in Found(listed, node, path).value
    ensures AtOrBelow(path, f.path)
  {
    FoundFiles(listed, node, path, f);
    var bytes :| HasFile(node, path, f.path, bytes);
    FilesAreBelow(node, path, f.path, bytes);
  }

  lemma DistinctConcat(a: seq<TreeFile>, b: seq<TreeFile>)
    requires DistinctPaths(a) && DistinctPaths(b) && forall f, g | f in a && g in b :: f.path != g.path
    ensures DistinctPaths(a + b)
  {
    forall i, j | 0 <= i < j < |a + b| ensures (a + b)[i].path != (a + b)[j].path {
      if i < |a| <= j {
        assert (a + b)[i] in a && (a + b)[j] in b;
      }
    }
  }

  ghost predicate NoNameTwice(names: seq<string>) {
    forall i, j | 0 <= i < j < |names| :: names[i] != names[j]
  }

  lemma {:induction false} FoundInDistinct(listed: Listed, dir: Node, names: seq<string>, prefix: string)
    requires dir.Dir? && WellNamed(dir) && NoNameTwice(names) && (forall n | n in names :: n in dir.entries)
    requires FoundIn(listed, dir, names, prefix).Ok?
    ensures DistinctPaths(FoundIn(listed, dir, names, prefix).value)
    decreases dir, 0, |names|
  {
    if names != [] {
      var name, rest := names[0], names[1..];
      var path := Join(prefix, name);
      assert name in names;
      FoundDistinct(listed, dir.entries[name], path);
      FoundInDistinct(listed, dir, rest, prefix);
      var first, others := Found(listed, dir.entries[name], path).value, FoundIn(listed, dir, rest, prefix).value;
      forall f, g | f in first && g in others ensures f.path != g.path {
        FoundElsewhere(listed, dir, name, rest, prefix, f, g);
      }
      DistinctConcat(first, others);
    }
  }

  lemma FoundElsewhere(listed: Listed, dir: Node, name: string, rest: seq<string>, prefix: string, f: TreeFile, g: TreeFile)
    requires dir.Dir? && WellNamed(dir) && name in dir.entries && name !in rest && (forall n | n in rest :: n in dir.entries)
    requires Found(listed, dir.entries[name], Join(prefix, name)).Ok? && FoundIn(listed, dir, rest, prefix).Ok?
    requires f in Found(listed, dir.entries[name], Join(prefix, name)).value
    requires g in FoundIn(listed, dir, rest, prefix).value
    ensures f.path != g.path
  {
    FoundInFiles(listed, dir, rest, prefix, g);
    var n :| n in rest && Found(listed, dir.entries[n], Join(prefix, n)).Ok?
             && g in Found(listed, dir.entries[n], Join(prefix, n)).value;
    FoundBelow(listed, dir.entries[name], Join(prefix, name), f);
    FoundBelow(listed, dir.entries[n], Join(prefix, n), g);
    if f.path == g.path {
      NamesPart(prefix, name, n, f.path);
    }
  }

  /** The walk finds no path twice. */
  lemma {:induction false} FoundDistinct(listed: Listed, node: Node, path: string)
    requires WellNamed(node) && Found(listed, node, path).Ok?
    ensures DistinctPaths(Found(listed, node, path).value)
    decreases node, 1
  {
    if node.Dir? {
      NamesCoverEntries(node.entries);
      FoundInDistinct(listed, node, Names(node.entries), path);
    }
  }

  // ---------------------------------------------------------------- pinning

  /** The pinned files a listing and its commands call for. */
  function Rows(expected: seq<PackageFile>, commands: seq<string>): (rows: seq<TreeFile>)
    ensures |rows| == |expected|
  {
    seq(|expected|, i requires 0 <= i < |expected| =>
      TreeFile(expected[i].path, expected[i].digest, expected[i].path in commands))
  }

  ghost predicate IsListedFile(expected: seq<PackageFile>, path: string, bytes: string) {
    exists f :: f in expected && f.path == path && f.size == |bytes| && f.digest == Sha256(bytes)
  }

  ghost function ListedPaths(expected: seq<PackageFile>): set<string> {
    set f | f in expected :: f.path
  }

  function FoundPaths(found: seq<TreeFile>): set<string> {
    set g | g in found :: g.path
  }

  ghost predicate Present(root: Node, path: string) {
    exists bytes :: HasFile(root, "", path, bytes)
  }

  /** A tree that holds exactly the listed files, as they are listed, and nothing else. */
  ghost predicate Pinnable(root: Node, expected: seq<PackageFile>, commands: seq<string>) {
    && Acceptable(expected)
    && (forall c | c in commands :: c in ListedPaths(expected))
    && root.Dir? && Plain(root)
    && (forall path, bytes | HasFile(root, "", path, bytes) :: IsListedFile(expected, path, bytes))
    && (forall path | path in ListedPaths(expected) :: Present(root, path))
  }

  /** The listing as a map by path. */
  ghost predicate ByPath(listed: Listed, expected: seq<PackageFile>) {
    && listed.Keys == ListedPaths(expected)
    && (forall p | p in listed :: listed[p] in expected && listed[p].path == p)
    && (forall f | f in expected :: f.path in listed && listed[f.path] == f)
  }

  method ListingByPath(expected: seq<PackageFile>) returns (listed: Listed)
    requires Acceptable(expected)
    ensures ByPath(listed, expected)
  {
    listed := map[];
    AcceptablePaths(expected);
    for i := 0 to |expected|
      invariant forall p | p in listed :: listed[p] in expected && listed[p].path == p
      invariant forall k | 0 <= k < i :: expected[k].path in listed && listed[expected[k].path] == expected[k]
    {
      listed := listed[expected[i].path := expected[i]];
    }
  }

  lemma ListedFiles(listed: Listed, expected: seq<PackageFile>, path: string, bytes: string)
    requires ByPath(listed, expected)
    ensures Visited(listed, path, bytes).Ok? <==> IsListedFile(expected, path, bytes)
  {
  }

  function Marked(files: seq<TreeFile>, commands: seq<string>): (marked: seq<TreeFile>)
    ensures |marked| == |files|
  {
    seq(|files|, i requires 0 <= i < |files| => files[i].(command := files[i].path in commands))
  }

  lemma SameFiles(a: seq<TreeFile>, b: seq<TreeFile>)
    requires DistinctPaths(a) && DistinctPaths(b) && forall f :: f in a <==> f in b
    ensures multiset(a) == multiset(b)
  {
    var ok := (f: TreeFile, g: TreeFile) => f.path != g.path;
    forall f ensures multiset(a)[f] == multiset(b)[f] {
      if f in a {
        Sorting.PairwiseAppearsOnce(ok, a, f);
        Sorting.PairwiseAppearsOnce(ok, b, f);
      }
    }
  }

  /** The walk found every listed file and none else. */
  ghost predicate Covers(found: seq<TreeFile>, expected: seq<PackageFile>) {
    && DistinctPaths(found)
    && FoundPaths(found) == ListedPaths(expected)
    && (forall g, f | g in found && f in expected && g.path == f.path :: g.sha256 == f.digest)
  }

  lemma MarkedIsRow(found: seq<TreeFile>, expected: seq<PackageFile>, commands: seq<string>, x: TreeFile)
    requires Covers(found, expected) && x in Marked(found, commands)
    ensures x in Rows(expected, commands)
  {
    var i :| 0 <= i < |found| && Marked(found, commands)[i] == x;
    assert found[i] in found && found[i].path in FoundPaths(found);
    var f :| f in expected && f.path == found[i].path;
    var j :| 0 <= j < |expected| && expected[j] == f;
    assert Rows(expected, commands)[j] == x;
  }

  lemma RowIsMarked(found: seq<TreeFile>, expected: seq<PackageFile>, commands: seq<string>, x: TreeFile)
    requires Covers(found, expected) && x in Rows(expected, commands)
    ensures x in Marked(found, commands)
  {
    var j :| 0 <= j < |expected| && Rows(expected, commands)[j] == x;
    assert expected[j] in expected && expected[j].path in ListedPaths(expected);
    var g :| g in found && g.path == expected[j].path;
    var i :| 0 <= i < |found| && found[i] == g;
    assert Marked(found, commands)[i] == x;
  }

  lemma MarkedAreRows(found: seq<TreeFile>, expected: seq<PackageFile>, commands: seq<string>)
    requires Acceptable(expected) && Covers(found, expected)
    ensures multiset(Marked(found, commands)) == multiset(Rows(expected, commands))
  {
    RowsAreDistinct(expected, commands);
    forall x ensures x in Marked(found, commands) <==> x in Rows(expected, commands) {
      if x in Marked(found, commands) { MarkedIsRow(found, expected, commands, x); }
      if x in Rows(expected, commands) { RowIsMarked(found, expected, commands, x); }
    }
    SameFiles(Marked(found, commands), Rows(expected, commands));
  }

  lemma FoundIsListed(listed: Listed, root: Node, g: TreeFile)
    requires WellNamed(root) && Found(listed, root, "").Ok? && g in Found(listed, root, "").value
    ensures g.path in listed && listed[g.path].digest == g.sha256 && Present(root, g.path)
  {
    FoundFiles(listed, root, "", g);
    FoundSucceeds(listed, root, "");
    var bytes :| HasFile(root, "", g.path, bytes) && g == TreeFile(g.path, Sha256(bytes), false);
    assert Visited(listed, g.path, bytes).Ok?;
  }

  lemma WalkCovers(listed: Listed, root: Node, expected: seq<PackageFile>, found: seq<TreeFile>)
    requires WellNamed(root) && ByPath(listed, expected) && Found(listed, root, "") == Ok(found)
    requires listed.Keys <= FoundPaths(found)
    ensures Covers(found, expected)
    ensures forall path | path in ListedPaths(expected) :: Present(root, path)
  {
    FoundDistinct(listed, root, "");
    forall g | g in found
      ensures g.path in listed && listed[g.path].digest == g.sha256 && Present(root, g.path)
    {
      FoundIsListed(listed, root, g);
    }
    assert FoundPaths(found) == listed.Keys;
  }

  lemma MissingIsMissing(listed: Listed, root: Node, path: string)
    requires WellNamed(root) && root.Dir? && Found(listed, root, "").Ok?
    requires path !in FoundPaths(Found(listed, root, "").value)
    ensures !Present(root, path)
  {
    forall bytes ensures !HasFile(root, "", path, bytes) {
      var g := TreeFile(path, Sha256(bytes), false);
      FoundFiles(listed, root, "", g);
      assert g !in Found(listed, root, "").value;
      assert !IsFound(g, root, "");
    }
  }

  lemma WalkDecides(listed: Listed, root: Node, expected: seq<PackageFile>)
    requires WellNamed(root) && root.Dir? && ByPath(listed, expected)
    ensures Found(listed, root, "").Ok?
            <==> Plain(root) && forall path, bytes | HasFile(root, "", path, bytes) :: IsListedFile(expected, path, bytes)
  {
    FoundSucceeds(listed, root, "");
    forall path, bytes ensures Visited(listed, path, bytes).Ok? <==> IsListedFile(expected, path, bytes) {
      ListedFiles(listed, expected, path, bytes);
    }
  }

  ghost predicate IsFirstUnseen(path: string, listed: Listed, found: seq<TreeFile>) {
    && path in listed && path !in FoundPaths(found)
    && forall p | p in listed && LexLess(p, path) :: p in FoundPaths(found)
  }

  lemma FirstInOrder(listed: Listed, found: seq<TreeFile>, paths: seq<string>, i: nat)
    requires (forall p :: p in paths <==> p in listed) && Sorting.StrictlySorted(LexLess, paths)
    requires i < |paths| && paths[i] !in FoundPaths(found) && forall k | 0 <= k < i :: paths[k] in FoundPaths(found)
    ensures IsFirstUnseen(paths[i], listed, found)
  {
    assert paths[i] in paths;
    LexIsStrict();
    forall p | p in listed && LexLess(p, paths[i]) ensures p in FoundPaths(found) {
      assert p in paths;
      var k :| 0 <= k < |paths| && paths[k] == p;
      assert k < i;
    }
  }

  function PathsInOrder(listed: Listed): (paths: seq<string>) {
    LexIsTotal();
    Sorting.InOrder(LexLess, listed.Keys)
  }

  lemma PathsInOrderSpec(listed: Listed)
    ensures forall p :: p in PathsInOrder(listed) <==> p in listed
    ensures Sorting.StrictlySorted(LexLess, PathsInOrder(listed))
  {
    LexIsTotal();
    Sorting.InOrderSpec(LexLess, listed.Keys);
  }

  /** The first listed path, in order, that the walk did not see. */
  method FirstUnseen(listed: Listed, found: seq<TreeFile>) returns (missing: Option<string>)
    ensures missing.None? <==> listed.Keys <= FoundPaths(found)
    ensures missing.Some? ==> IsFirstUnseen(missing.value, listed, found)
  {
    var paths, seen := PathsInOrder(listed), FoundPaths(found);
    PathsInOrderSpec(listed);
    for i := 0 to |paths|
      invariant forall k | 0 <= k < i :: paths[k] in seen
    {
      if paths[i] !in seen {
        FirstInOrder(listed, found, paths, i);
        return Some(paths[i]);
      }
    }
    forall p | p in listed.Keys ensures p in seen {
      assert p in paths;
    }
    missing := None;
  }

  ghost predicate IsFirstUnlisted(name: string, paths: set<string>, commands: seq<string>) {
    exists i :: 0 <= i < |commands| && commands[i] == name && name !in paths
                && forall k | 0 <= k < i :: commands[k] in paths
  }

  method FirstUnlisted(listed: Listed, commands: seq<string>) returns (unlisted: Option<string>)
    ensures unlisted.None? <==> forall c | c in commands :: c in listed
    ensures unlisted.Some? ==> IsFirstUnlisted(unlisted.value, listed.Keys, commands)
  {
    for i := 0 to |commands|
      invariant forall k | 0 <= k < i :: commands[k] in listed
    {
      if commands[i] !in listed {
        return Some(commands[i]);
      }
    }
    unlisted := None;
  }

  /** The refusal each unpinnable input owes: the listing's first fault, then the first unlisted
      command, then the root's own, then the walk's first, then the first path it did not see. */
  ghost predicate Refuses(refusal: PinRefusal, root: Node, expected: seq<PackageFile>, commands: seq<string>) {
    if !Acceptable(expected) then
      exists i :: 0 <= i < |expected| && FirstFault(expected, i) && refusal == FaultOf(expected[i].path)
    else if exists c :: c in commands && c !in ListedPaths(expected) then
      refusal.CommandNotInTree? && IsFirstUnlisted(refusal.name, ListedPaths(expected), commands)
    else if root.Link? then
      refusal == LinkFound(".")
    else if !root.Dir? then
      refusal == Unreadable(".")
    else
      exists listed :: ByPath(listed, expected) && WalkRefuses(refusal, listed, root)
  }

  ghost predicate WalkRefuses(refusal: PinRefusal, listed: Listed, root: Node) {
    match Found(listed, root, "")
    case Err(error) => refusal == error
    case Ok(found) => refusal.Missing? && IsFirstUnseen(refusal.path, listed, found)
  }

  lemma MarkedAssembles(found: seq<TreeFile>, expected: seq<PackageFile>, commands: seq<string>)
    requires Acceptable(expected) && Covers(found, expected)
    ensures AssembledFrom(Marked(found, commands)) == AssembledFrom(Rows(expected, commands))
  {
    MarkedAreRows(found, expected, commands);
    RowsAreDistinct(expected, commands);
    PathOrder(Rows(expected, commands));
    Sorting.PermutationSortsAlike(PathBefore, Rows(expected, commands), Marked(found, commands));
  }

  /** The walk of a directory against a listing that passed its checks. */
  method PinDirectory(listed: Listed, root: Node, expected: seq<PackageFile>, commands: seq<string>)
    returns (r: Result<PinnedTree, PinRefusal>)
    requires WellNamed(root) && root.Dir? && Acceptable(expected) && ByPath(listed, expected)
    requires forall c | c in commands :: c in ListedPaths(expected)
    ensures r.Ok? <==> Pinnable(root, expected, commands)
    ensures r.Ok? ==> r.value == AssembledFrom(Rows(expected, commands))
    ensures r.Err? ==> WalkRefuses(r.error, listed, root)
  {
    WalkDecides(listed, root, expected);
    var walk := new Walk(listed);
    var refusal := walk.Directory(root, "");
    if refusal.Some? {
      return Err(refusal.value);
    }
    var found := walk.files;
    assert found == Found(listed, root, "").value;
    var missing := FirstUnseen(listed, found);
    if missing.Some? {
      MissingIsMissing(listed, root, missing.value);
      return Err(Missing(missing.value));
    }
    WalkCovers(listed, root, expected, found);
    MarkedAssembles(found, expected, commands);
    var tree := Assemble(Marked(found, commands));
    r := Ok(tree);
  }

  /** `pin`, over a fixed readable tree: what it accepts, which refusal comes first otherwise,
      and that the pinned tree depends only on the listing and the commands. */
  method Pin(root: Node, expected: seq<PackageFile>, commands: seq<string>) returns (r: Result<PinnedTree, PinRefusal>)
    requires WellNamed(root)
    ensures r.Ok? <==> Pinnable(root, expected, commands)
    ensures r.Ok? ==> r.value == AssembledFrom(Rows(expected, commands))
    ensures r.Err? ==> Refuses(r.error, root, expected, commands)
  {
    var refusal := CheckListing(expected);
    if refusal.Some? {
      return Err(refusal.value);
    }
    var listed := ListingByPath(expected);
    var unlisted := FirstUnlisted(listed, commands);
    if unlisted.Some? {
      return Err(CommandNotInTree(unlisted.value));
    }
    if root.Link? {
      return Err(LinkFound("."));
    }
    if !root.Dir? {
      return Err(Unreadable("."));
    }
    r := PinDirectory(listed, root, expected, commands);
  }

  lemma RowsAreDistinct(expected: seq<PackageFile>, commands: seq<string>)
    requires Acceptable(expected)
    ensures DistinctPaths(Rows(expected, commands)) && NulFree(Rows(expected, commands))
  {
    AcceptablePaths(expected);
    forall x | x in Rows(expected, commands) ensures '\0' !in x.path {
      var i :| 0 <= i < |expected| && Rows(expected, commands)[i] == x;
      assert expected[i] in expected;
    }
  }

  lemma {:induction false} RowsFollowOrder(a: seq<PackageFile>, b: seq<PackageFile>, commands: seq<string>)
    requires Acceptable(a) && multiset(a) == multiset(b)
    ensures multiset(Rows(a, commands)) == multiset(Rows(b, commands))
  {
    AcceptableIsOrderFree(a, b);
    RowsAreDistinct(a, commands);
    RowsAreDistinct(b, commands);
    Sorting.SameMembers(a, b);
    RowsWithin(a, b, commands);
    RowsWithin(b, a, commands);
    SameFiles(Rows(a, commands), Rows(b, commands));
  }

  lemma RowsWithin(a: seq<PackageFile>, b: seq<PackageFile>, commands: seq<string>)
    requires forall f | f in a :: f in b
    ensures forall x | x in Rows(a, commands) :: x in Rows(b, commands)
  {
    forall x | x in Rows(a, commands) ensures x in Rows(b, commands) {
      var i :| 0 <= i < |a| && Rows(a, commands)[i] == x;
      assert a[i] in a;
      var j :| 0 <= j < |b| && b[j] == a[i];
      assert Rows(b, commands)[j] == x;
    }
  }

  lemma PinnableIsOrderFree(root: Node, a: seq<PackageFile>, b: seq<PackageFile>, commands: seq<string>)
    requires multiset(a) == multiset(b) && Pinnable(root, a, commands)
    ensures Pinnable(root, b, commands)
  {
    Sorting.SameMembers(a, b);
    AcceptableIsOrderFree(a, b);
    forall path, bytes | HasFile(root, "", path, bytes) ensures IsListedFile(b, path, bytes) {
      assert IsListedFile(a, path, bytes);
    }
  }

  /** Listing the files in another order pins the same tree, under the same digest. */
  lemma PinIgnoresListingOrder(root: Node, a: seq<PackageFile>, b: seq<PackageFile>, commands: seq<string>)
    requires multiset(a) == multiset(b) && Pinnable(root, a, commands)
    ensures Pinnable(root, b, commands)
    ensures AssembledFrom(Rows(a, commands)) == AssembledFrom(Rows(b, commands))
  {
    PinnableIsOrderFree(root, a, b, commands);
    RowsFollowOrder(a, b, commands);
    RowsAreDistinct(a, commands);
    RowsAreDistinct(b, commands);
    EncodingNamesTheFiles(Rows(a, commands), Rows(b, commands));
  }
}
