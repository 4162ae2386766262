/** What a pinned tree's paths and digest text are, in their own characters. */
module TreePaths {
  import opened Wrappers
  import opened Digests
  import opened Listings
  import opened ListingRules
  import opened Texts
  import opened PinnedTrees
  import opened Pins
  import Sorting

  // ---------------------------------------------------------------- looking a path up

  /** What a tree holds under a sequence of names. */
  function Lookup(node: Node, names: seq<string>): Option<Node>
    decreases |names|
  {
    if names == [] then Some(node)
    else if node.Dir? && names[0] in node.entries then Lookup(node.entries[names[0]], names[1..])
    else None
  }

  /** `target` is strictly below the directory at `path`. */
  predicate Under(path: string, target: string) {
    path == "" || (|path| < |target| && target[..|path|] == path && target[|path|] == '/')
  }

  function Rest(path: string, target: string): string
    requires Under(path, target)
  {
    if path == "" then target else target[|path| + 1..]
  }

  /** `target` leads from the directory at `path` through its entry `n`. */
  predicate Through(path: string, target: string, n: string) {
    Under(path, target) && Parts(Rest(path, target))[0] == n
  }

  /** A text has one first slash, or end. */
  lemma OneFirstSlash(s: string, a: nat, b: nat)
    requires a <= |s| && '/' !in s[..a] && (a == |s| || s[a] == '/')
    requires b <= |s| && '/' !in s[..b] && (b == |s| || s[b] == '/')
    ensures a == b
  {
    assert forall k | 0 <= k < a :: s[k] != '/' by { assert forall k | 0 <= k < a :: s[..a][k] == s[k]; }
    assert forall k | 0 <= k < b :: s[k] != '/' by { assert forall k | 0 <= k < b :: s[..b][k] == s[k]; }
  }

  lemma JoinUnder(path: string, n: string)
    requires n != "" && '/' !in n
    ensures Under(path, Join(path, n)) && Rest(path, Join(path, n)) == n && Parts(n) == [n]
  {
    FirstPartEnds(n);
    assert n[..|n|] == n;
    OneFirstSlash(n, |n|, |Parts(n)[0]|);
    if path != "" {
      assert Join(path, n)[..|path|] == path;
    }
  }

  /** The target is the entry itself, or below it, as its remaining parts say. */
  lemma ThroughEntry(path: string, target: string, n: string)
    requires n != "" && '/' !in n
    ensures Through(path, target, n) <==> target == Join(path, n) || Under(Join(path, n), target)
    ensures target == Join(path, n) ==> Parts(Rest(path, target)) == [n]
    ensures Under(Join(path, n), target) ==>
              Under(path, target) && Parts(Rest(path, target)) == [n] + Parts(Rest(Join(path, n), target))
  {
    var q := Join(path, n);
    JoinUnder(path, n);
    if Under(q, target) { BelowEntry(path, target, n); }
    if Through(path, target, n) { AtOrBelowEntry(path, target, n); }
  }

  lemma AtOrBelowEntry(path: string, target: string, n: string)
    requires n != "" && Through(path, target, n)
    ensures target == Join(path, n) || Under(Join(path, n), target)
  {
    var rest := Rest(path, target);
    FirstPartEnds(rest);
    Rejoined(path, target);
    if |n| < |rest| {
      assert rest == n + "/" + rest[|n| + 1..];
      UnderEntry(path, n, rest[|n| + 1..]);
    } else {
      assert rest == n;
    }
  }

  lemma Rejoined(path: string, target: string)
    requires Under(path, target)
    ensures target == Join(path, Rest(path, target))
  {
  }

  lemma UnderEntry(path: string, n: string, rest: string)
    ensures n != "" ==> Under(Join(path, n), Join(path, n + "/" + rest))
  {
    var q := Join(path, n);
    assert n != "" ==> Join(path, n + "/" + rest) == q + "/" + rest;
  }

  lemma BelowEntry(path: string, target: string, n: string)
    requires n != "" && '/' !in n && Under(Join(path, n), target)
    ensures Under(path, target) && Parts(Rest(path, target)) == [n] + Parts(Rest(Join(path, n), target))
  {
    var q := Join(path, n);
    assert target == q + "/" + target[|q| + 1..];
    if path != "" {
      assert target[..|path|] == q[..|path|] == path;
      assert target[|path|] == q[|path|] == '/';
    }
    var rest := Rest(path, target);
    assert rest[..|n|] == n && rest[|n|] == '/' && rest[|n| + 1..] == Rest(q, target);
    FirstPartEnds(rest);
    OneFirstSlash(rest, |n|, |Parts(rest)[0]|);
    assert Parts(rest) == [Parts(rest)[0]] + Parts(rest)[1..];
  }

  lemma {:induction false} ChildLookup(dir: Node, path: string, n: string, target: string, bytes: string)
    requires dir.Dir? && WellNamed(dir) && n in dir.entries
    ensures HasFile(dir.entries[n], Join(path, n), target, bytes)
            <==> Through(path, target, n) && Lookup(dir, Parts(Rest(path, target))) == Some(File(bytes))
    decreases dir, 0
  {
    var child, q := dir.entries[n], Join(path, n);
    ThroughEntry(path, target, n);
    if child.Dir? { DirLookup(child, q, target, bytes); }
    if target == q {
      assert Lookup(dir, [n]) == Some(child);
      assert !Under(q, target);
    } else if Under(q, target) {
      var parts := Parts(Rest(q, target));
      assert ([n] + parts)[1..] == parts;
      assert Lookup(dir, [n] + parts) == Lookup(child, parts);
    }
  }

  lemma {:induction false} DirLookup(dir: Node, path: string, target: string, bytes: string)
    requires dir.Dir? && WellNamed(dir)
    ensures HasFile(dir, path, target, bytes)
            <==> Under(path, target) && Lookup(dir, Parts(Rest(path, target))) == Some(File(bytes))
    decreases dir, 1
  {
    forall n | n in dir.entries
      ensures HasFile(dir.entries[n], Join(path, n), target, bytes)
              <==> Through(path, target, n) && Lookup(dir, Parts(Rest(path, target))) == Some(File(bytes))
    {
      ChildLookup(dir, path, n, target, bytes);
    }
  }

  /** A directory tree has a file at a path exactly when following the path's components, name by
      name, finds it. */
  lemma FileIsFoundByParts(root: Node, path: string, bytes: string)
    requires root.Dir? && WellNamed(root)
    ensures HasFile(root, "", path, bytes) <==> Lookup(root, Parts(path)) == Some(File(bytes))
  {
    DirLookup(root, "", path, bytes);
  }

  // ---------------------------------------------------------------- refusals

  /** What one entry's visit gives, its name first. */
  function EntryFound(listed: Listed, dir: Node, prefix: string, n: string): Result<seq<TreeFile>, PinRefusal>
    requires dir.Dir? && n in dir.entries
  {
    if IsUtf8(n) then Found(listed, dir.entries[n], Join(prefix, n)) else Err(Unexpected(Join(prefix, n)))
  }

  /** Entries are visited in the order of their names' bytes, and the walk stops with the refusal
      of the first entry that has one. */
  lemma WalkStopsAtFirst(listed: Listed, dir: Node, prefix: string)
    requires dir.Dir? && (dir.entries != map[] || prefix == "")
    ensures Sorting.StrictlySorted(LexLess, Names(dir.entries)) && forall n :: n in Names(dir.entries) <==> n in dir.entries
    ensures Found(listed, dir, prefix).Err? ==>
              exists i :: IsFirstRefusal(listed, dir, Names(dir.entries), prefix, i, Found(listed, dir, prefix).error)
  {
    LexIsTotal();
    Sorting.InOrderSpec(LexLess, dir.entries.Keys);
    if Found(listed, dir, prefix).Err? {
      var i := FirstRefusal(listed, dir, Names(dir.entries), prefix);
    }
  }

  ghost predicate IsFirstRefusal(listed: Listed, dir: Node, names: seq<string>, prefix: string, i: int, error: PinRefusal)
    requires dir.Dir? && forall n | n in names :: n in dir.entries
  {
    && 0 <= i < |names|
    && EntryFound(listed, dir, prefix, names[i]) == Err(error)
    && forall k | 0 <= k < i :: EntryFound(listed, dir, prefix, names[k]).Ok?
  }

  lemma {:induction false} FirstRefusal(listed: Listed, dir: Node, names: seq<string>, prefix: string) returns (i: nat)
    requires dir.Dir? && (forall n | n in names :: n in dir.entries) && FoundIn(listed, dir, names, prefix).Err?
    ensures IsFirstRefusal(listed, dir, names, prefix, i, FoundIn(listed, dir, names, prefix).error)
    decreases |names|
  {
    if EntryFound(listed, dir, prefix, names[0]).Err? {
      i := 0;
    } else {
      var k := FirstRefusal(listed, dir, names[1..], prefix);
      i := k + 1;
      assert forall j | 0 <= j < |names[1..]| :: names[1..][j] == names[j + 1];
    }
  }

  /** `found` stands at `target` in the tree whose top stands at `path`. */
  ghost predicate Stands(node: Node, path: string, target: string, found: Node) {
    || (target == path && found == node)
    || (node.Dir? && exists n :: n in node.entries && Stands(node.entries[n], Join(path, n), target, found))
  }

  /** The refusal is true of what stands at its path. */
  ghost predicate IsTrueOf(listed: Listed, refusal: PinRefusal, found: Node) {
    match refusal
    case LinkFound(_) => found.Link?
    case NotRegular(_) => found.Special?
    case DigestMismatch(path) =>
      found.File? && path in listed && (|found.bytes| != listed[path].size || Sha256(found.bytes) != listed[path].digest)
    case Unexpected(path) =>
      || (found.File? && path !in listed)
      || found == Dir(map[])
      || (exists above, n :: path == Join(above, n) && !IsUtf8(n))
    case _ => false
  }

  function PathOf(refusal: PinRefusal): string
    requires !refusal.CommandNotInTree?
  {
    refusal.path
  }

  /** A walk refuses only for something that stands in the tree, at the path it names: a link, a
      special file, a file that is not listed or not as listed, an empty directory, or a name
      that is not text. */
  lemma {:induction false} RefusalIsTrue(listed: Listed, node: Node, path: string)
    requires Found(listed, node, path).Err?
    ensures var refusal := Found(listed, node, path).error;
            !refusal.CommandNotInTree?
            && exists found :: Stands(node, path, PathOf(refusal), found) && IsTrueOf(listed, refusal, found)
    decreases node
  {
    var refusal := Found(listed, node, path).error;
    if node.Dir? && !(node.entries == map[] && path != "") {
      var i := FirstRefusal(listed, node, Names(node.entries), path);
      var n := Names(node.entries)[i];
      assert n in Names(node.entries);
      var child, q := node.entries[n], Join(path, n);
      if IsUtf8(n) {
        RefusalIsTrue(listed, child, q);
        var found :| Stands(child, q, PathOf(refusal), found) && IsTrueOf(listed, refusal, found);
        assert Stands(node, path, PathOf(refusal), found);
      } else {
        assert Stands(child, q, q, child);
        assert Stands(node, path, q, child) && IsTrueOf(listed, refusal, child);
      }
    } else {
      assert Stands(node, path, path, node) && IsTrueOf(listed, refusal, node);
    }
  }

  // ---------------------------------------------------------------- the digest's text

  /** A file's record is its path, a NUL, 64 hexadecimal digits, a NUL, and a byte that is 1 for a
      command and 0 for any other file. */
  lemma RecordLayout(file: TreeFile)
    ensures var r, p := Record(file), |file.path|;
            && |r| == p + 67 && r[..p] == file.path && r[p] as int == 0
            && r[p + 1..p + 65] == Hex(file.sha256) && r[p + 65] as int == 0
            && r[p + 66] as int == (if file.command then 1 else 0)
  {
    var flag := [if file.command then 1 as char else 0 as char];
    var r, p := Record(file), |file.path|;
    var tail := Hex(file.sha256) + ("\0" + flag);
    assert r == file.path + ("\0" + tail);
    assert r[p + 1..] == tail && r[p + 1..][..64] == tail[..64] == Hex(file.sha256);
    assert tail[64] == '\0' && tail[65] == flag[0];
  }

  /** The hexadecimal text gives each byte's high half, then its low half, as lowercase digits. */
  lemma HexLayout(d: Digest, k: nat)
    requires k < 32
    ensures Hex(d)[2 * k] == "0123456789abcdef"[d[k] / 16] && Hex(d)[2 * k + 1] == "0123456789abcdef"[d[k] % 16]
  {
    assert (2 * k) / 2 == k && (2 * k + 1) / 2 == k;
  }

  /** Records follow one another in the order of the files. */
  lemma {:induction false} EncodingFollowsFiles(a: seq<TreeFile>, b: seq<TreeFile>)
    ensures Encoding([]) == "" && Encoding(a + b) == Encoding(a) + Encoding(b)
    ensures |a| == 1 ==> Encoding(a) == Record(a[0])
  {
    if a == [] {
      assert a + b == b;
    } else {
      assert (a + b)[1..] == a[1..] + b;
      EncodingFollowsFiles(a[1..], b);
    }
  }

  /** An assembled tree holds exactly the files, each once, in the order of their paths' bytes,
      under the hash of their encoding. */
  lemma AssembledInPathOrder(files: seq<TreeFile>)
    requires DistinctPaths(files)
    ensures multiset(AssembledFrom(files).files) == multiset(files)
    ensures forall i, j | 0 <= i < j < |AssembledFrom(files).files| ::
              PathBefore(AssembledFrom(files).files[i], AssembledFrom(files).files[j])
    ensures AssembledFrom(files).digest == Sha256(Encoding(AssembledFrom(files).files))
  {
    PathOrder(files);
    Sorting.SortIsStrict(PathBefore, files);
  }
}
