/** The listing of a verified package: its path rule and its collisions. */
module Listings {
  import opened Wrappers
  import opened Digests
  import Sorting

  datatype PackageFile = PackageFile(path: string, digest: Digest, size: nat)

  datatype PinRefusal =
    | Unreadable(path: string)
    | NotRegular(path: string)
    | LinkFound(path: string)
    | InvalidPath(path: string)
    | Collides(path: string)
    | DigestMismatch(path: string)
    | Missing(path: string)
    | Unexpected(path: string)
    | CommandNotInTree(name: string)

  predicate IsAlphabetic(c: char) {
    'a' <= c <= 'z' || 'A' <= c <= 'Z'
  }

  predicate IsControl(c: char) {
    c as int < 32 || c as int == 127
  }

  /** The components between slashes; always at least one. */
  function Parts(path: string): (parts: seq<string>)
    ensures parts != []
  {
    if path == "" then
      [""]
    else
      var rest := Parts(path[1..]);
      if path[0] == '/' then [""] + rest else [[path[0]] + rest[0]] + rest[1..]
  }

  predicate FollowsPathRule(path: string) {
    && !(|path| >= 2 && IsAlphabetic(path[0]) && path[1] == ':')
    && (forall i | 0 <= i < |path| :: path[i] != '\\' && !IsControl(path[i]))
    && (forall i | 0 <= i < |Parts(path)| :: Parts(path)[i] !in {"", ".", ".."})
  }

  function LowerChar(c: char): char {
    if 'A' <= c <= 'Z' then (c as int + 32) as char else c
  }

  /** ASCII case folding. */
  function Folded(path: string): (folded: string)
    ensures |folded| == |path|
  {
    seq(|path|, i requires 0 <= i < |path| => LowerChar(path[i]))
  }

  /** `a` names a directory above `b`. */
  predicate IsAncestor(a: string, b: string) {
    |a| < |b| && b[..|a|] == a && b[|a|] == '/'
  }

  /** Two folded paths that cannot both be files of one tree. */
  predicate Clash(a: string, b: string) {
    a == b || IsAncestor(a, b) || IsAncestor(b, a)
  }

  function Ancestors(path: string): set<string> {
    set i | 0 <= i < |path| && path[i] == '/' :: path[..i]
  }

  lemma AncestorsAreAbove(path: string, a: string)
    ensures a in Ancestors(path) <==> IsAncestor(a, path)
  {
    if IsAncestor(a, path) {
      assert path[..|a|] in Ancestors(path);
    }
  }

  // ---------------------------------------------------------------- the listing check

  /** Two listed files that can stand in one tree. */
  predicate Apart(a: PackageFile, b: PackageFile) {
    !Clash(Folded(a.path), Folded(b.path))
  }

  predicate ClashesEarlier(expected: seq<PackageFile>, i: nat)
    requires i < |expected|
  {
    exists j | 0 <= j < i :: !Apart(expected[j], expected[i])
  }

  /** File `i` breaks the path rule or clashes with an earlier one. */
  predicate Faulty(expected: seq<PackageFile>, i: nat)
    requires i < |expected|
  {
    !FollowsPathRule(expected[i].path) || ClashesEarlier(expected, i)
  }

  ghost predicate FirstFault(expected: seq<PackageFile>, i: nat)
    requires i < |expected|
  {
    Faulty(expected, i) && forall k | 0 <= k < i :: !Faulty(expected, k)
  }

  /** Every path obeys the rule and no two clash, in whatever order they are listed. */
  ghost predicate Acceptable(expected: seq<PackageFile>) {
    (forall f | f in expected :: FollowsPathRule(f.path)) && Sorting.Pairwise(Apart, expected)
  }

  function FaultOf(path: string): PinRefusal {
    if FollowsPathRule(path) then Collides(path) else InvalidPath(path)
  }

  /** What the two growing sets say about a folded path. */
  predicate Seen(files: set<string>, directories: set<string>, folded: string) {
    folded in files || folded in directories || exists a | a in Ancestors(folded) :: a in files
  }

  /** `check_listing`: grows the files and the directories seen so far. */
  method CheckListing(expected: seq<PackageFile>) returns (refusal: Option<PinRefusal>)
    ensures refusal.None? <==> Acceptable(expected)
    ensures refusal.Some? ==>
              exists i :: 0 <= i < |expected| && FirstFault(expected, i) && refusal.value == FaultOf(expected[i].path)
  {
    var files: set<string>, directories: set<string> := {}, {};
    AcceptableWhenFaultless(expected);
    for i := 0 to |expected|
      invariant forall k | 0 <= k < i :: !Faulty(expected, k)
      invariant files == FilesOf(expected[..i]) && directories == DirectoriesOf(expected[..i])
    {
      var path := expected[i].path;
      if !FollowsPathRule(path) {
        assert FirstFault(expected, i);
        return Some(InvalidPath(path));
      }
      var folded := Folded(path);
      ClashSeen(expected, i);
      if Seen(files, directories, folded) {
        assert FirstFault(expected, i);
        return Some(Collides(path));
      }
      SetsGrow(expected, i);
      directories := directories + Ancestors(folded);
      files := files + {folded};
    }
    assert expected[..|expected|] == expected;
    refusal := None;
  }

  ghost function FilesOf(expected: seq<PackageFile>): set<string> {
    set f | f in expected :: Folded(f.path)
  }

  ghost function DirectoriesOf(expected: seq<PackageFile>): set<string> {
    if expected == [] then
      {}
    else
      DirectoriesOf(expected[..|expected| - 1]) + Ancestors(Folded(expected[|expected| - 1].path))
  }

  lemma SetsGrow(expected: seq<PackageFile>, i: nat)
    requires i < |expected|
    ensures DirectoriesOf(expected[..i + 1]) == DirectoriesOf(expected[..i]) + Ancestors(Folded(expected[i].path))
    ensures FilesOf(expected[..i + 1]) == FilesOf(expected[..i]) + {Folded(expected[i].path)}
  {
    assert expected[..i + 1][..i] == expected[..i];
    assert expected[..i + 1] == expected[..i] + [expected[i]];
  }

  lemma {:induction false} DirectoriesSpec(expected: seq<PackageFile>, d: string)
    ensures d in DirectoriesOf(expected) <==> exists f | f in expected :: IsAncestor(d, Folded(f.path))
  {
    if expected != [] {
      var front, last := expected[..|expected| - 1], expected[|expected| - 1];
      DirectoriesSpec(front, d);
      AncestorsAreAbove(Folded(last.path), d);
      assert expected == front + [last];
      assert last in expected;
    }
  }

  lemma EarlierFiles(expected: seq<PackageFile>, i: nat, f: PackageFile)
    requires i < |expected|
    ensures f in expected[..i] <==> exists j | 0 <= j < i :: expected[j] == f
  {
    if f in expected[..i] {
      var j :| 0 <= j < |expected[..i]| && expected[..i][j] == f;
      assert expected[j] == f;
    }
    if j :| 0 <= j < i && expected[j] == f {
      assert expected[..i][j] == f;
    }
  }

  /** The two sets answer the question whether file `i` clashes with an earlier one. */
  lemma ClashSeen(expected: seq<PackageFile>, i: nat)
    requires i < |expected|
    ensures ClashesEarlier(expected, i)
            <==> Seen(FilesOf(expected[..i]), DirectoriesOf(expected[..i]), Folded(expected[i].path))
  {
    var folded, before := Folded(expected[i].path), expected[..i];
    DirectoriesSpec(before, folded);
    forall a: string ensures a in Ancestors(folded) <==> IsAncestor(a, folded) { AncestorsAreAbove(folded, a); }
    if ClashesEarlier(expected, i) {
      var j :| 0 <= j < i && !Apart(expected[j], expected[i]);
      EarlierFiles(expected, i, expected[j]);
      assert Folded(expected[j].path) in FilesOf(before);
    }
    if Seen(FilesOf(before), DirectoriesOf(before), folded) {
      var f :| f in before && Clash(Folded(f.path), folded);
      EarlierFiles(expected, i, f);
    }
  }

  lemma AcceptableWhenFaultless(expected: seq<PackageFile>)
    ensures Acceptable(expected) <==> forall k | 0 <= k < |expected| :: !Faulty(expected, k)
  {
    if Acceptable(expected) {
      forall k | 0 <= k < |expected| ensures !Faulty(expected, k) {
        assert expected[k] in expected;
      }
    }
    if forall k | 0 <= k < |expected| :: !Faulty(expected, k) {
      forall i, j | 0 <= i < j < |expected| ensures Apart(expected[i], expected[j]) {
        assert !Faulty(expected, j) && !ClashesEarlier(expected, j);
      }
      forall f | f in expected ensures FollowsPathRule(f.path) {
        var k :| 0 <= k < |expected| && expected[k] == f;
        assert !Faulty(expected, k);
      }
    }
  }

  /** The order a package lists its files in does not matter. */
  lemma AcceptableIsOrderFree(a: seq<PackageFile>, b: seq<PackageFile>)
    requires multiset(a) == multiset(b) && Acceptable(a)
    ensures Acceptable(b)
  {
    Sorting.SameMembers(a, b);
    Sorting.PairwiseIsOrderFree(Apart, a, b);
  }

  /** Acceptable files have different paths, free of NUL bytes. */
  lemma AcceptablePaths(expected: seq<PackageFile>)
    requires Acceptable(expected)
    ensures forall i, j | 0 <= i < j < |expected| :: expected[i].path != expected[j].path
    ensures forall f | f in expected :: '\0' !in f.path
  {
    forall f | f in expected ensures '\0' !in f.path {
      assert FollowsPathRule(f.path);
      assert forall i | 0 <= i < |f.path| :: !IsControl(f.path[i]);
    }
    forall i, j | 0 <= i < j < |expected| ensures expected[i].path != expected[j].path {
      assert Apart(expected[i], expected[j]);
    }
  }
}
