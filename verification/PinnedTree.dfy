/** Software trees pinned against a package listing, and the digest of a pinned tree. */
module PinnedTrees {
  import opened Wrappers
  import opened Digests
  import opened Listings
  import opened Texts
  import Sorting

  datatype TreeFile = TreeFile(path: string, sha256: Digest, command: bool)

  datatype PinnedTree = PinnedTree(files: seq<TreeFile>, digest: Digest)

  predicate PathBefore(a: TreeFile, b: TreeFile) {
    LexLess(a.path, b.path)
  }

  // ---------------------------------------------------------------- the tree digest

  function Record(file: TreeFile): string {
    file.path + ("\0" + (Hex(file.sha256) + ("\0" + [if file.command then 1 as char else 0 as char])))
  }

  function Encoding(files: seq<TreeFile>): string {
    if files == [] then "" else Record(files[0]) + Encoding(files[1..])
  }

  function AssembledFrom(files: seq<TreeFile>): PinnedTree {
    var sorted := Sorting.Sort(PathBefore, files);
    PinnedTree(sorted, Sha256(Encoding(sorted)))
  }

  /** `PinnedTree::assemble`: sorts by path, then appends each file's record. */
  method Assemble(files: seq<TreeFile>) returns (tree: PinnedTree)
    ensures tree == AssembledFrom(files)
  {
    var sorted := Sorting.Sort(PathBefore, files);
    var encoding := "";
    for i := 0 to |sorted|
      invariant encoding + Encoding(sorted[i..]) == Encoding(sorted)
    {
      assert sorted[i..][1..] == sorted[i + 1..];
      var hex := ToHex(sorted[i].sha256);
      var flag := if sorted[i].command then 1 as char else 0 as char;
      assert encoding + (Record(sorted[i]) + Encoding(sorted[i + 1..]))
          == encoding + Record(sorted[i]) + Encoding(sorted[i + 1..]);
      encoding := encoding + (sorted[i].path + ("\0" + (hex + ("\0" + [flag]))));
    }
    assert encoding + "" == encoding;
    tree := PinnedTree(sorted, Sha256(encoding));
  }

  /** The text before the first NUL byte, and the text after it, are determined. */
  lemma FirstNul(p: string, q: string, x: string, y: string)
    requires '\0' !in p && '\0' !in q && p + ("\0" + x) == q + ("\0" + y)
    ensures p == q && x == y
  {
    var s := p + ("\0" + x);
    assert s[|p|] == '\0' && s[|q|] == '\0';
    assert p == s[..|p|] && q == s[..|q|] && x == s[|p| + 1..] && y == s[|q| + 1..];
  }

  lemma RecordIsReadable(a: TreeFile, b: TreeFile, x: string, y: string)
    requires '\0' !in a.path && '\0' !in b.path && Record(a) + x == Record(b) + y
    ensures a == b && x == y
  {
    var flagA, flagB := [if a.command then 1 as char else 0 as char], [if b.command then 1 as char else 0 as char];
    var tailA, tailB := Hex(a.sha256) + ("\0" + (flagA + x)), Hex(b.sha256) + ("\0" + (flagB + y));
    assert Record(a) + x == a.path + ("\0" + tailA);
    assert Record(b) + y == b.path + ("\0" + tailB);
    FirstNul(a.path, b.path, tailA, tailB);
    assert tailA[..64] == Hex(a.sha256) && tailB[..64] == Hex(b.sha256);
    HexIsInjective(a.sha256, b.sha256);
    assert tailA[65] == flagA[0] && tailB[65] == flagB[0];
    assert tailA[66..] == x && tailB[66..] == y;
  }

  ghost predicate NulFree(files: seq<TreeFile>) {
    forall f | f in files :: '\0' !in f.path
  }

  /** The encoding is uniquely decodable: equal encodings come from equal file lists. */
  lemma {:induction false} EncodingIsInjective(a: seq<TreeFile>, b: seq<TreeFile>)
    requires NulFree(a) && NulFree(b) && Encoding(a) == Encoding(b)
    ensures a == b
  {
    if a != [] && b != [] {
      assert a[0] in a && b[0] in b;
      RecordIsReadable(a[0], b[0], Encoding(a[1..]), Encoding(b[1..]));
      assert forall f | f in a[1..] :: f in a;
      assert forall f | f in b[1..] :: f in b;
      EncodingIsInjective(a[1..], b[1..]);
      assert a == [a[0]] + a[1..] && b == [b[0]] + b[1..];
    }
  }

  ghost predicate DistinctPaths(files: seq<TreeFile>) {
    forall i, j | 0 <= i < j < |files| :: files[i].path != files[j].path
  }

  lemma PathOrder(files: seq<TreeFile>)
    ensures Sorting.StrictOrder(PathBefore)
    ensures DistinctPaths(files) ==> Sorting.NoTies(PathBefore, files)
  {
    LexIsTotal();
    assert forall a: TreeFile :: !LexLess(a.path, a.path);
    forall a: TreeFile, b: TreeFile, c: TreeFile | PathBefore(a, b) && PathBefore(b, c) ensures PathBefore(a, c) {
      LexTransitive(a.path, b.path, c.path);
    }
    forall i, j | 0 <= i < j < |files| && DistinctPaths(files)
      ensures PathBefore(files[i], files[j]) || PathBefore(files[j], files[i])
    {
      LexTotal(files[i].path, files[j].path);
    }
  }

  /** What the tree digest hashes is the set of files: collected in any order, the encoding is
      the same, and any changed path, digest or command flag changes it. */
  lemma EncodingNamesTheFiles(a: seq<TreeFile>, b: seq<TreeFile>)
    requires DistinctPaths(a) && NulFree(a) && NulFree(b)
    ensures Encoding(AssembledFrom(a).files) == Encoding(AssembledFrom(b).files) <==> multiset(a) == multiset(b)
    ensures multiset(a) == multiset(b) ==> AssembledFrom(a) == AssembledFrom(b)
  {
    var sa, sb := AssembledFrom(a).files, AssembledFrom(b).files;
    PathOrder(a);
    Sorting.SameMembers(sa, a);
    Sorting.SameMembers(sb, b);
    if multiset(a) == multiset(b) {
      Sorting.PermutationSortsAlike(PathBefore, a, b);
    }
    if Encoding(sa) == Encoding(sb) {
      EncodingIsInjective(sa, sb);
    }
  }

  // ---------------------------------------------------------------- walking a tree

  /** A fixed, readable directory tree. A directory maps its entries' names to what they are. */
  datatype Node = File(bytes: string) | Dir(entries: map<string, Node>) | Link | Special

  /** Whether an entry's name is UTF-8 text, left arbitrary. */
  const IsUtf8: string -> bool

  function Join(prefix: string, name: string): string {
    if prefix == "" then name else prefix + "/" + name
  }

  type Listed = map<string, PackageFile>

  function Visited(listed: Listed, path: string, bytes: string): Result<seq<TreeFile>, PinRefusal> {
    if path !in listed then Err(Unexpected(path))
    else if |bytes| != listed[path].size || Sha256(bytes) != listed[path].digest then Err(DigestMismatch(path))
    else Ok([TreeFile(path, Sha256(bytes), false)])
  }

  function Names(entries: map<string, Node>): (names: seq<string>)
    ensures forall n | n in names :: n in entries
  {
    LexIsTotal();
    Sorting.InOrder(LexLess, entries.Keys)
  }

  /** The files a visit of one entry finds, or its first refusal. */
  function Found(listed: Listed, node: Node, path: string): Result<seq<TreeFile>, PinRefusal>
    decreases node, 1
  {
    match node
    case Link => Err(LinkFound(path))
    case Special => Err(NotRegular(path))
    case File(bytes) => Visited(listed, path, bytes)
    case Dir(entries) =>
      if entries == map[] && path != "" then Err(Unexpected(path)) else FoundIn(listed, node, Names(entries), path)
  }

  function FoundIn(listed: Listed, dir: Node, names: seq<string>, prefix: string): Result<seq<TreeFile>, PinRefusal>
    requires dir.Dir? && forall n | n in names :: n in dir.entries
    decreases dir, 0, |names|
  {
    if names == [] then
      Ok([])
    else
      var path := Join(prefix, names[0]);
      var first := if IsUtf8(names[0]) then Found(listed, dir.entries[names[0]], path) else Err(Unexpected(path));
      var rest := FoundIn(listed, dir, names[1..], prefix);
      if first.Err? then first else if rest.Err? then rest else Ok(first.value + rest.value)
  }

  /** What is still to come of a walk that has pushed `done` so far. */
  function Continued(done: seq<TreeFile>, rest: Result<seq<TreeFile>, PinRefusal>): Result<seq<TreeFile>, PinRefusal> {
    if rest.Ok? then Ok(done + rest.value) else rest
  }

  lemma NextEntry(listed: Listed, dir: Node, names: seq<string>, prefix: string, done: seq<TreeFile>)
    requires dir.Dir? && names != [] && forall n | n in names :: n in dir.entries
    ensures var path := Join(prefix, names[0]);
            var first := if IsUtf8(names[0]) then Found(listed, dir.entries[names[0]], path) else Err(Unexpected(path));
            Continued(done, FoundIn(listed, dir, names, prefix))
            == if first.Err? then first
               else Continued(done + first.value, FoundIn(listed, dir, names[1..], prefix))
  {
    var path := Join(prefix, names[0]);
    var first := if IsUtf8(names[0]) then Found(listed, dir.entries[names[0]], path) else Err(Unexpected(path));
    var rest := FoundIn(listed, dir, names[1..], prefix);
    if first.Ok? && rest.Ok? {
      assert done + (first.value + rest.value) == done + first.value + rest.value;
    }
  }

  /** The walk as the source runs it: visits in name order, pushing files as it goes. */
  class Walk {
    const listed: Listed
    var files: seq<TreeFile>

    constructor (listed: Listed)
      ensures this.listed == listed && files == []
    {
      this.listed, files := listed, [];
    }

    method VisitFile(path: string, bytes: string) returns (refusal: Option<PinRefusal>)
      modifies this
      ensures match Visited(listed, path, bytes)
              case Ok(found) => refusal.None? && files == old(files) + found
              case Err(error) => refusal == Some(error)
    {
      if path !in listed {
        return Some(Unexpected(path));
      }
      if |bytes| != listed[path].size {
        return Some(DigestMismatch(path));
      }
      var sha256 := Sha256(bytes);
      if sha256 != listed[path].digest {
        return Some(DigestMismatch(path));
      }
      files := files + [TreeFile(path, sha256, false)];
      refusal := None;
    }

    method Directory(dir: Node, prefix: string) returns (refusal: Option<PinRefusal>)
      requires dir.Dir?
      modifies this
      ensures match Found(listed, dir, prefix)
              case Ok(found) => refusal.None? && files == old(files) + found
              case Err(error) => refusal == Some(error)
      decreases dir
    {
      if dir.entries == map[] && prefix != "" {
        return Some(Unexpected(prefix));
      }
      var names := Names(dir.entries);
      for i := 0 to |names|
        invariant Continued(old(files), FoundIn(listed, dir, names, prefix))
                  == Continued(files, FoundIn(listed, dir, names[i..], prefix))
      {
        assert names[i] in names && names[i..][1..] == names[i + 1..];
        NextEntry(listed, dir, names[i..], prefix, files);
        var path := Join(prefix, names[i]);
        if !IsUtf8(names[i]) {
          return Some(Unexpected(path));
        }
        match dir.entries[names[i]]
        case Link => return Some(LinkFound(path));
        case Special => return Some(NotRegular(path));
        case File(bytes) =>
          refusal := VisitFile(path, bytes);
          if refusal.Some? { return; }
        case Dir(_) =>
          refusal := Directory(dir.entries[names[i]], path);
          if refusal.Some? { return; }
      }
      refusal := None;
    }
  }
}
