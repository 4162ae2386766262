/** Failure-carrying results, as the source's `Option` and `Result`. */
module Wrappers {
  datatype Option<+T> = None | Some(value: T)

  datatype Result<+T, +E> = Ok(value: T) | Err(error: E)
}

/** Machine widths of the source, kept as subset types of the unbounded integers. */
module Widths {
  const U64_MAX: int := 0xFFFF_FFFF_FFFF_FFFF

  type u64 = x: int | 0 <= x <= U64_MAX

  function Min(a: int, b: int): int {
    if a < b then a else b
  }

  function Max(a: int, b: int): int {
    if a < b then b else a
  }
}

/** Stable sorting by a strict order, and the uniqueness of a strictly sorted sequence. */
module Sorting {
  ghost predicate StrictOrder<T(!new)>(lt: (T, T) -> bool) {
    && (forall x :: !lt(x, x))
    && (forall x, y, z :: lt(x, y) && lt(y, z) ==> lt(x, z))
  }

  ghost predicate StrictlySorted<T>(lt: (T, T) -> bool, s: seq<T>) {
    forall i, j | 0 <= i < j < |s| :: lt(s[i], s[j])
  }

  /** No two positions tie, so a sort has only one possible result. */
  ghost predicate NoTies<T>(lt: (T, T) -> bool, s: seq<T>) {
    forall i, j | 0 <= i < j < |s| :: lt(s[i], s[j]) || lt(s[j], s[i])
  }

  /** Puts `x` before the first element that is not smaller, which keeps a sort stable. */
  function Insert<T>(lt: (T, T) -> bool, x: T, s: seq<T>): (r: seq<T>)
    ensures multiset(r) == multiset(s) + multiset{x}
  {
    if s == [] || !lt(s[0], x) then
      [x] + s
    else
      assert s == [s[0]] + s[1..];
      [s[0]] + Insert(lt, x, s[1..])
  }

  function Sort<T>(lt: (T, T) -> bool, s: seq<T>): (r: seq<T>)
    ensures multiset(r) == multiset(s)
  {
    if s == [] then
      []
    else
      assert s == [s[0]] + s[1..];
      Insert(lt, s[0], Sort(lt, s[1..]))
  }

  lemma {:induction false} InsertIsStrict<T(!new)>(lt: (T, T) -> bool, x: T, s: seq<T>)
    requires StrictOrder(lt) && StrictlySorted(lt, s)
    requires forall y | y in s :: lt(x, y) || lt(y, x)
    ensures StrictlySorted(lt, Insert(lt, x, s))
  {
    if s != [] && lt(s[0], x) {
      var rest := Insert(lt, x, s[1..]);
      InsertIsStrict(lt, x, s[1..]);
      forall y | y in rest ensures lt(s[0], y) {
        assert y in multiset(rest);
        assert y == x || y in s[1..];
      }
    }
  }

  lemma {:induction false} SortIsStrict<T(!new)>(lt: (T, T) -> bool, s: seq<T>)
    requires StrictOrder(lt) && NoTies(lt, s)
    ensures StrictlySorted(lt, Sort(lt, s))
  {
    if s != [] {
      var rest := Sort(lt, s[1..]);
      SortIsStrict(lt, s[1..]);
      forall y | y in rest ensures lt(s[0], y) || lt(y, s[0]) {
        assert y in multiset(rest);
        assert y in s[1..];
      }
      InsertIsStrict(lt, s[0], rest);
    }
  }

  lemma SameHead<T(!new)>(lt: (T, T) -> bool, a: seq<T>, b: seq<T>)
    requires StrictOrder(lt) && StrictlySorted(lt, a) && StrictlySorted(lt, b)
    requires a != [] && b != [] && a[0] in b && b[0] in a
    ensures a[0] == b[0]
  {
    var i :| 0 <= i < |b| && b[i] == a[0];
    var j :| 0 <= j < |a| && a[j] == b[0];
    assert i == 0 || j == 0;
  }

  lemma TailMultiset<T>(s: seq<T>)
    requires s != []
    ensures multiset(s[1..]) == multiset(s) - multiset{s[0]}
  {
    assert s == [s[0]] + s[1..];
  }

  /** Two strictly sorted sequences of the same elements are the same sequence. */
  lemma {:induction false} StrictlySortedIsUnique<T(!new)>(lt: (T, T) -> bool, a: seq<T>, b: seq<T>)
    requires StrictOrder(lt) && StrictlySorted(lt, a) && StrictlySorted(lt, b)
    requires multiset(a) == multiset(b)
    ensures a == b
  {
    assert |a| == |multiset(a)| == |multiset(b)| == |b|;
    if a != [] {
      assert a[0] in multiset(b) && b[0] in multiset(a);
      SameHead(lt, a, b);
      TailMultiset(a);
      TailMultiset(b);
      StrictlySortedIsUnique(lt, a[1..], b[1..]);
      assert a == [a[0]] + a[1..] && b == [b[0]] + b[1..];
    }
  }

  lemma SameMembers<T>(a: seq<T>, b: seq<T>)
    requires multiset(a) == multiset(b)
    ensures forall x :: x in a <==> x in b
  {
    forall x ensures x in a <==> x in b {
      assert x in a <==> x in multiset(a);
    }
  }

  lemma RepeatsCount<T>(s: seq<T>, i: nat, j: nat)
    requires i < j < |s| && s[i] == s[j]
    ensures multiset(s)[s[i]] >= 2
  {
    assert s == s[..i] + [s[i]] + s[i + 1..j] + [s[j]] + s[j + 1..];
  }

  /** `ok` holds of every two positions, in either order. */
  ghost predicate Pairwise<T>(ok: (T, T) -> bool, s: seq<T>) {
    forall i, j | 0 <= i < j < |s| :: ok(s[i], s[j])
  }

  lemma PairwiseAppearsOnce<T>(ok: (T, T) -> bool, s: seq<T>, x: T)
    requires Pairwise(ok, s) && x in s && !ok(x, x)
    ensures multiset(s)[x] == 1
  {
    var i :| 0 <= i < |s| && s[i] == x;
    var before, after := s[..i], s[i + 1..];
    forall k | 0 <= k < |before| ensures before[k] != x { assert before[k] == s[k]; }
    forall k | 0 <= k < |after| ensures after[k] != x { assert after[k] == s[i + 1 + k]; }
    assert s == before + [x] + after;
    assert multiset(s) == multiset(before) + multiset{x} + multiset(after);
  }

  /** A symmetric relation that no element has to itself survives every reordering. */
  lemma PairwiseIsOrderFree<T(!new)>(ok: (T, T) -> bool, a: seq<T>, b: seq<T>)
    requires Pairwise(ok, a) && multiset(a) == multiset(b)
    requires (forall x :: !ok(x, x)) && (forall x, y :: ok(x, y) ==> ok(y, x))
    ensures Pairwise(ok, b)
  {
    SameMembers(a, b);
    forall i, j | 0 <= i < j < |b| ensures ok(b[i], b[j]) {
      if b[i] == b[j] {
        RepeatsCount(b, i, j);
        PairwiseAppearsOnce(ok, a, b[i]);
      } else {
        assert b[i] in a && b[j] in a;
        var p :| 0 <= p < |a| && a[p] == b[i];
        var q :| 0 <= q < |a| && a[q] == b[j];
      }
    }
  }

  lemma NoTiesIsOrderFree<T(!new)>(lt: (T, T) -> bool, a: seq<T>, b: seq<T>)
    requires StrictOrder(lt) && NoTies(lt, a) && multiset(a) == multiset(b)
    ensures NoTies(lt, b)
  {
    PairwiseIsOrderFree((x, y) => lt(x, y) || lt(y, x), a, b);
  }

  /** Without ties, every order of the same elements sorts to the same strict sequence. */
  lemma PermutationSortsAlike<T(!new)>(lt: (T, T) -> bool, a: seq<T>, b: seq<T>)
    requires StrictOrder(lt) && NoTies(lt, a) && multiset(a) == multiset(b)
    ensures Sort(lt, a) == Sort(lt, b) && StrictlySorted(lt, Sort(lt, a))
  {
    NoTiesIsOrderFree(lt, a, b);
    SortIsStrict(lt, a);
    SortIsStrict(lt, b);
    StrictlySortedIsUnique(lt, Sort(lt, a), Sort(lt, b));
  }

  lemma SortedStays<T(!new)>(lt: (T, T) -> bool, s: seq<T>)
    requires StrictOrder(lt) && StrictlySorted(lt, s)
    ensures Sort(lt, s) == s
  {
    SortIsStrict(lt, s);
    StrictlySortedIsUnique(lt, Sort(lt, s), s);
  }

  // ---------------------------------------------------------------- sets in order

  ghost predicate TotalOrder<T(!new)>(lt: (T, T) -> bool) {
    StrictOrder(lt) && forall x, y :: x == y || lt(x, y) || lt(y, x)
  }

  ghost predicate IsLeast<T>(lt: (T, T) -> bool, least: T, s: set<T>) {
    least in s && forall x | x in s && x != least :: lt(least, x)
  }

  lemma {:induction false} LeastExists<T(!new)>(lt: (T, T) -> bool, s: set<T>)
    requires s != {} && TotalOrder(lt)
    ensures exists least :: IsLeast(lt, least, s)
  {
    var some :| some in s;
    if s == {some} {
      assert IsLeast(lt, some, s);
    } else {
      LeastExists(lt, s - {some});
      var rest :| IsLeast(lt, rest, s - {some});
      if lt(some, rest) {
        forall x | x in s && x != some ensures lt(some, x) {
          assert x in s - {some};
        }
        assert IsLeast(lt, some, s);
      } else {
        assert IsLeast(lt, rest, s);
      }
    }
  }

  function Least<T(==, !new)>(lt: (T, T) -> bool, s: set<T>): (least: T)
    requires s != {} && TotalOrder(lt)
    ensures IsLeast(lt, least, s)
  {
    LeastExists(lt, s);
    assert exists least :: IsLeast(lt, least, s);
    var least :| least in s && forall x | x in s && x != least :: lt(least, x);
    least
  }

  /** The elements of a set, each once, in strict order. */
  function InOrder<T(==, !new)>(lt: (T, T) -> bool, s: set<T>): (r: seq<T>)
    requires TotalOrder(lt)
    ensures forall x | x in r :: x in s
    decreases |s|
  {
    if s == {} then
      []
    else
      var least := Least(lt, s);
      [least] + InOrder(lt, s - {least})
  }

  lemma {:induction false} InOrderSpec<T(!new)>(lt: (T, T) -> bool, s: set<T>)
    requires TotalOrder(lt)
    ensures |InOrder(lt, s)| == |s|
    ensures forall x | x in s :: x in InOrder(lt, s)
    ensures StrictlySorted(lt, InOrder(lt, s))
    decreases |s|
  {
    if s != {} {
      InOrderSpec(lt, s - {Least(lt, s)});
    }
  }

  lemma LeastIsUnique<T(!new)>(lt: (T, T) -> bool, s: set<T>, least: T)
    requires TotalOrder(lt) && IsLeast(lt, least, s)
    ensures Least(lt, s) == least
  {
  }
}

/** Two facts about overriding one map by another. */
module Maps {
  lemma OverrideOneMore<K, V>(a: map<K, V>, k: K, v: V, b: map<K, V>)
    requires k !in b
    ensures a[k := v] + b == a + b[k := v]
  {
  }

  lemma OverrideOneLess<K, V>(a: map<K, V>, b: map<K, V>, k: K)
    requires k !in a
    ensures (a + b) - {k} == a + (b - {k})
  {
  }

  lemma OverrideNothing<K, V>(a: map<K, V>)
    ensures a + map[] == a
  {
  }

  lemma RemoveNothing<K, V>(a: map<K, V>, k: K)
    requires k !in a
    ensures a - {k} == a
  {
  }

  lemma RemoveCommutes<K, V>(a: map<K, V>, k: K, j: K)
    ensures a - {k} - {j} == a - {j} - {k}
  {
  }

  lemma UnionOneLess<K, V>(a: map<K, V>, b: map<K, V>, k: K)
    requires k !in b
    ensures (a + b) - {k} == (a - {k}) + b
  {
  }
}
