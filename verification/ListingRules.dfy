/** What an accepted package listing says, in terms of its paths' own characters. */
module ListingRules {
  import opened Wrappers
  import opened Listings
  import Sorting

  // ---------------------------------------------------------------- components

  /** `path[i..j]` is what stands between two slashes, or an end. */
  predicate IsComponent(path: string, i: int, j: int) {
    && 0 <= i <= j <= |path|
    && (i == 0 || path[i - 1] == '/') && (j == |path| || path[j] == '/')
    && '/' !in path[i..j]
  }

  lemma FirstPart(path: string)
    requires path != ""
    ensures path[0] == '/' ==> Parts(path) == [""] + Parts(path[1..])
    ensures path[0] != '/' ==>
              Parts(path)[0] == [path[0]] + Parts(path[1..])[0] && Parts(path)[1..] == Parts(path[1..])[1..]
  {
  }

  /** The first part runs up to the first slash. */
  lemma {:induction false} FirstPartEnds(path: string)
    ensures var n := |Parts(path)[0]|;
            && n <= |path| && Parts(path)[0] == path[..n] && '/' !in path[..n] && (n == |path| || path[n] == '/')
            && (n == |path| ==> Parts(path) == [path])
            && (n < |path| ==> Parts(path)[1..] == Parts(path[n + 1..]))
  {
    if path != "" {
      FirstPart(path);
      if path[0] != '/' {
        var rest := path[1..];
        FirstPartEnds(rest);
        var n := |Parts(rest)[0]|;
        assert path[..n + 1] == [path[0]] + rest[..n];
        if n == |rest| {
          assert Parts(path) == [Parts(path)[0]] + Parts(path)[1..];
          assert path == [path[0]] + rest;
        } else {
          assert rest[n + 1..] == path[n + 2..];
        }
      }
    }
  }

  lemma ComponentShifts(path: string, cut: nat, i: nat, j: int)
    requires cut < |path| && path[cut] == '/'
    ensures IsComponent(path[cut + 1..], i, j) <==> IsComponent(path, cut + 1 + i, cut + 1 + j)
    ensures i <= j <= |path| - cut - 1 ==> path[cut + 1..][i..j] == path[cut + 1 + i..cut + 1 + j]
  {
    var rest := path[cut + 1..];
    if i <= j <= |rest| { assert rest[i..j] == path[cut + 1 + i..cut + 1 + j]; }
  }

  ghost predicate HasComponent(path: string, part: string) {
    exists i, j :: IsComponent(path, i, j) && path[i..j] == part
  }

  /** A path's components are its first one and those after its first slash. */
  lemma ComponentsAfterFirst(path: string, n: nat, part: string)
    requires n <= |path| && '/' !in path[..n] && (n == |path| || path[n] == '/')
    ensures HasComponent(path, part) <==> part == path[..n] || (n < |path| && HasComponent(path[n + 1..], part))
  {
    assert IsComponent(path, 0, n) && path[0..n] == path[..n];
    if n < |path| && HasComponent(path[n + 1..], part) {
      var rest := path[n + 1..];
      var i, j :| IsComponent(rest, i, j) && rest[i..j] == part;
      ComponentShifts(path, n, i, j);
      assert IsComponent(path, n + 1 + i, n + 1 + j);
    }
    if HasComponent(path, part) && part != path[..n] {
      var i, j :| IsComponent(path, i, j) && path[i..j] == part;
      LaterComponent(path, n, i, j);
      ComponentShifts(path, n, i - n - 1, j - n - 1);
      assert IsComponent(path[n + 1..], i - n - 1, j - n - 1);
    }
  }

  /** The parts of a path are exactly its components. */
  lemma {:induction false} PartsAreComponents(path: string, part: string)
    ensures part in Parts(path) <==> HasComponent(path, part)
    decreases |path|
  {
    var parts := Parts(path);
    var n := |parts[0]|;
    FirstPartEnds(path);
    ComponentsAfterFirst(path, n, part);
    assert parts == [parts[0]] + parts[1..];
    if n < |path| { PartsAreComponents(path[n + 1..], part); }
  }

  /** A component either is the first or starts after the first slash. */
  lemma LaterComponent(path: string, n: nat, i: int, j: int)
    requires n <= |path| && '/' !in path[..n] && (n == |path| || path[n] == '/') && IsComponent(path, i, j)
    ensures (i == 0 && j == n) || (n < i <= j)
  {
    assert forall k | 0 <= k < n :: path[k] != '/' by {
      assert forall k | 0 <= k < n :: path[..n][k] == path[k];
    }
    assert forall k | i <= k < j :: path[k] != '/' by {
      assert forall k | i <= k < j :: path[i..j][k - i] == path[k];
    }
  }

  /** A path obeys the rule exactly when it names no drive, holds no backslash and no control
      character, and has no component that is empty, a dot or two dots. */
  lemma PathRuleSpelledOut(path: string)
    ensures FollowsPathRule(path)
            <==> && !(|path| >= 2 && path[1] == ':' && ('a' <= path[0] <= 'z' || 'A' <= path[0] <= 'Z'))
                 && (forall i | 0 <= i < |path| :: path[i] != '\\' && path[i] as int >= 32 && path[i] as int != 127)
                 && (forall i, j | IsComponent(path, i, j) :: path[i..j] != "" && path[i..j] != "." && path[i..j] != "..")
  {
    forall part: string ensures part in Parts(path) <==> HasComponent(path, part) {
      PartsAreComponents(path, part);
    }
    if FollowsPathRule(path) {
      forall i, j | IsComponent(path, i, j) ensures path[i..j] != "" && path[i..j] != "." && path[i..j] != ".." {
        assert HasComponent(path, path[i..j]);
        var k :| 0 <= k < |Parts(path)| && Parts(path)[k] == path[i..j];
      }
    }
    forall k | 0 <= k < |Parts(path)| ensures HasComponent(path, Parts(path)[k]) {
      assert Parts(path)[k] in Parts(path);
    }
  }

  // ---------------------------------------------------------------- clashes

  predicate SameLetter(a: char, b: char) {
    || a == b
    || ('A' <= a <= 'Z' && b as int == a as int + 32)
    || ('A' <= b <= 'Z' && a as int == b as int + 32)
  }

  /** Two texts that differ at most in the case of ASCII letters. */
  predicate SameButCase(a: string, b: string) {
    |a| == |b| && forall i | 0 <= i < |a| :: SameLetter(a[i], b[i])
  }

  lemma FoldingIsCase(a: string, b: string)
    ensures Folded(a) == Folded(b) <==> SameButCase(a, b)
  {
    if |a| == |b| {
      forall i | 0 <= i < |a| ensures Folded(a)[i] == Folded(b)[i] <==> SameLetter(a[i], b[i]) {}
    }
    if Folded(a) == Folded(b) {
      assert |a| == |Folded(a)| == |Folded(b)| == |b|;
    }
  }

  /** `a` is, but for case, a directory on the way to `b`. */
  predicate LeadsTo(a: string, b: string) {
    |a| < |b| && b[|a|] == '/' && SameButCase(a, b[..|a|])
  }

  lemma FoldingKeepsSlash(path: string, n: nat)
    requires n <= |path|
    ensures Folded(path)[..n] == Folded(path[..n]) && (n < |path| ==> (Folded(path)[n] == '/' <==> path[n] == '/'))
  {
  }

  lemma ClashIsCase(a: PackageFile, b: PackageFile)
    ensures Apart(a, b) <==> !SameButCase(a.path, b.path) && !LeadsTo(a.path, b.path) && !LeadsTo(b.path, a.path)
  {
    FoldingIsCase(a.path, b.path);
    AncestorIsLead(a.path, b.path);
    AncestorIsLead(b.path, a.path);
  }

  lemma AncestorIsLead(a: string, b: string)
    ensures IsAncestor(Folded(a), Folded(b)) <==> LeadsTo(a, b)
  {
    if |a| < |b| {
      FoldingKeepsSlash(b, |a|);
      FoldingIsCase(a, b[..|a|]);
    }
  }

  /** A listing is accepted exactly when every path obeys the rule and no two of them are the same
      but for case, or one a directory on the way to the other. */
  lemma ListingSpelledOut(expected: seq<PackageFile>)
    ensures Acceptable(expected)
            <==> && (forall i | 0 <= i < |expected| :: FollowsPathRule(expected[i].path))
                 && (forall i, j | 0 <= i < |expected| && 0 <= j < |expected| && i != j ::
                       !SameButCase(expected[i].path, expected[j].path) && !LeadsTo(expected[i].path, expected[j].path))
  {
    forall a: PackageFile, b: PackageFile
      ensures Apart(a, b) <==> !SameButCase(a.path, b.path) && !LeadsTo(a.path, b.path) && !LeadsTo(b.path, a.path)
    {
      ClashIsCase(a, b);
    }
    if Acceptable(expected) {
      forall i, j | 0 <= i < |expected| && 0 <= j < |expected| && i != j
        ensures !SameButCase(expected[i].path, expected[j].path) && !LeadsTo(expected[i].path, expected[j].path)
      {
        assert if i < j then Apart(expected[i], expected[j]) else Apart(expected[j], expected[i]);
        SameButCaseTurns(expected[i].path, expected[j].path);
      }
      assert forall i | 0 <= i < |expected| :: expected[i] in expected;
    }
  }

  lemma SameButCaseTurns(a: string, b: string)
    ensures SameButCase(a, b) <==> SameButCase(b, a)
  {
  }
}
