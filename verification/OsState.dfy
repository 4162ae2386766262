/** The standing objects of a backend, their exact diff and their canonical comparison. */
module OsStates {
  import opened Wrappers
  import opened Universe

  type Objects = map<Handle, OsObject>

  /** Every object stands at its own address. */
  ghost predicate WellKeyed(objects: Objects) {
    forall h | h in objects :: objects[h].Address() == h
  }

  function Inserted(objects: Objects, held: OsObject): (r: (Objects, Result<bool, BackendError>)) {
    var address := held.Address();
    if address !in objects then
      (objects[address := held], Ok(true))
    else if objects[address] == held then
      (objects, Ok(false))
    else
      (objects, Err(IdentityConflict(address)))
  }

  predicate Selects(objects: Objects, removal: UniverseRemoval, owner: CellOwner) {
    var address := removal.Address();
    address in objects && objects[address].owner == owner && objects[address].capability == removal.capability
  }

  function Removed(objects: Objects, removal: UniverseRemoval, owner: CellOwner): (r: (Objects, Option<OsObject>)) {
    if Selects(objects, removal, owner) then
      (objects - {removal.Address()}, Some(objects[removal.Address()]))
    else
      (objects, None)
  }

  /** A removal selects exactly the object it spells out, and taking it undoes its insertion. */
  lemma RemoveUndoesInsert(objects: Objects, held: OsObject)
    requires WellKeyed(objects)
    ensures var removal := UniverseRemoval(held.id, held.capability);
            && (Selects(objects, removal, held.owner)
                <==> held.Address() in objects && objects[held.Address()] == held)
            && (Inserted(objects, held).1 == Ok(true) ==>
                  Removed(Inserted(objects, held).0, removal, held.owner) == (objects, Some(held)))
  {
    if held.Address() !in objects {
      assert objects[held.Address() := held] - {held.Address()} == objects;
    }
  }

  /** An insertion takes a vacant slot, repeats as nothing, and never replaces another object; a
      removal takes the very object it spells out or nothing. */
  lemma InsertAndRemoveOutcomes(objects: Objects, held: OsObject)
    requires WellKeyed(objects)
    ensures var h := held.Address();
            Inserted(objects, held)
            == if h !in objects then (objects[h := held], Ok(true))
               else (objects, if objects[h] == held then Ok(false) else Err(IdentityConflict(h)))
    ensures var h := held.Address();
            Removed(objects, UniverseRemoval(held.id, held.capability), held.owner)
            == if h in objects && objects[h] == held then (objects - {h}, Some(held)) else (objects, None)
  {
  }

  type Content = (CellOwner, Capability)

  /** What the canonical comparison sees of an object: everything except its identity. */
  function ContentOf(held: OsObject): Content {
    (held.owner, held.capability)
  }

  ghost function Fiber(objects: Objects, content: Content): set<Handle> {
    set h | h in objects && ContentOf(objects[h]) == content
  }

  ghost function Contents(objects: Objects): set<Content> {
    set h | h in objects :: ContentOf(objects[h])
  }

  /** How often each content stands: the canonical multiset. */
  ghost function Counts(objects: Objects): map<Content, nat> {
    map content | content in Contents(objects) :: |Fiber(objects, content)|
  }

  class OsState {
    var objects: Objects

    ghost predicate Valid()
      reads this
    {
      WellKeyed(objects)
    }

    constructor ()
      ensures Valid() && objects == map[]
    {
      objects := map[];
    }

    method Insert(held: OsObject) returns (r: Result<bool, BackendError>)
      requires Valid()
      modifies this
      ensures Valid() && (objects, r) == Inserted(old(objects), held)
    {
      var address := held.Address();
      if address !in objects {
        objects := objects[address := held];
        r := Ok(true);
      } else if objects[address] == held {
        r := Ok(false);
      } else {
        r := Err(IdentityConflict(address));
      }
    }

    method Remove(removal: UniverseRemoval, owner: CellOwner) returns (r: Option<OsObject>)
      requires Valid()
      modifies this
      ensures Valid() && (objects, r) == Removed(old(objects), removal, owner)
    {
      r := None;
      if Selects(objects, removal, owner) {
        r := Some(objects[removal.Address()]);
        objects := objects - {removal.Address()};
      }
    }

    method CanonicalMultiset() returns (counts: map<Content, nat>)
      ensures counts == Counts(objects)
    {
      var keys := SortedKeys(objects.Keys);
      counts := map[];
      NoneCounted(objects, keys);
      for i := 0 to |keys|
        invariant counts == Counts(Among(objects, keys[..i]))
      {
        CountKey(objects, i);
        var content := ContentOf(objects[keys[i]]);
        counts := counts[content := (if content in counts then counts[content] else 0) + 1];
      }
      AllCounted(objects);
    }

    method CanonicallyEquivalent(other: OsState) returns (same: bool)
      ensures same <==> exists f :: Renaming(f, objects, other.objects)
    {
      var mine := CanonicalMultiset();
      var theirs := other.CanonicalMultiset();
      same := mine == theirs;
      EquivalentIsRenaming(objects, other.objects);
    }
  }

  ghost function Among(objects: Objects, keys: seq<Handle>): Objects {
    map h | h in objects && h in keys :: objects[h]
  }

  lemma ContentsAreFibers(objects: Objects, c: Content)
    ensures c in Contents(objects) <==> Fiber(objects, c) != {}
  {
    if c in Contents(objects) {
      var h :| h in objects && ContentOf(objects[h]) == c;
      assert h in Fiber(objects, c);
    }
    if Fiber(objects, c) != {} {
      var h :| h in Fiber(objects, c);
    }
  }

  lemma FiberWith(seen: Objects, h: Handle, held: OsObject, c: Content)
    requires h !in seen
    ensures Fiber(seen[h := held], c) == if c == ContentOf(held) then Fiber(seen, c) + {h} else Fiber(seen, c)
  {
  }

  lemma CountOneMore(seen: Objects, h: Handle, held: OsObject)
    requires h !in seen
    ensures var content := ContentOf(held);
            Counts(seen[h := held])
            == Counts(seen)[content := (if content in Counts(seen) then Counts(seen)[content] else 0) + 1]
  {
    var content, more := ContentOf(held), seen[h := held];
    forall c: Content
      ensures |Fiber(more, c)| == |Fiber(seen, c)| + if c == content then 1 else 0
      ensures c in Contents(more) <==> c == content || c in Contents(seen)
    {
      FiberWith(seen, h, held, c);
      ContentsAreFibers(seen, c);
      ContentsAreFibers(more, c);
    }
    ContentsAreFibers(seen, content);
  }

  lemma CountNext(objects: Objects, keys: seq<Handle>, i: nat)
    requires i < |keys| && keys[i] in objects && keys[i] !in keys[..i]
    ensures var held, seen := objects[keys[i]], Among(objects, keys[..i]);
            var content := ContentOf(held);
            Counts(Among(objects, keys[..i + 1]))
            == Counts(seen)[content := (if content in Counts(seen) then Counts(seen)[content] else 0) + 1]
  {
    assert keys[..i + 1] == keys[..i] + [keys[i]];
    assert Among(objects, keys[..i + 1]) == Among(objects, keys[..i])[keys[i] := objects[keys[i]]];
    CountOneMore(Among(objects, keys[..i]), keys[i], objects[keys[i]]);
  }

  lemma NoneCounted(objects: Objects, keys: seq<Handle>)
    ensures Counts(Among(objects, keys[..0])) == map[]
  {
    assert Among(objects, keys[..0]) == map[];
  }

  /** One turn of the count, over the addresses in order. */
  lemma CountKey(objects: Objects, i: nat)
    requires i < |SortedKeys(objects.Keys)|
    ensures var keys := SortedKeys(objects.Keys);
            && keys[i] in objects
            && var seen, content := Counts(Among(objects, keys[..i])), ContentOf(objects[keys[i]]);
               Counts(Among(objects, keys[..i + 1])) == seen[content := (if content in seen then seen[content] else 0) + 1]
  {
    var keys := SortedKeys(objects.Keys);
    SortedKeysSpec(objects.Keys);
    assert keys[i] in keys;
    CountNext(objects, keys, i);
  }

  lemma AllCounted(objects: Objects)
    ensures var keys := SortedKeys(objects.Keys); Counts(Among(objects, keys[..|keys|])) == Counts(objects)
  {
    var keys := SortedKeys(objects.Keys);
    SortedKeysSpec(objects.Keys);
    assert keys[..|keys|] == keys;
    assert Among(objects, keys) == objects;
  }

  // ---------------------------------------------------------------- canonical equivalence

  /** `f` pairs off the addresses of `a` with those of `b` and keeps owner and capability. */
  ghost predicate Renaming(f: map<Handle, Handle>, a: Objects, b: Objects) {
    && f.Keys == a.Keys
    && (forall h | h in f :: f[h] in b && ContentOf(a[h]) == ContentOf(b[f[h]]))
    && (forall h, k | h in f && k in f && f[h] == f[k] :: h == k)
    && (forall k | k in b :: exists h :: h in f && f[h] == k)
  }

  ghost predicate SameFibers(a: Objects, b: Objects) {
    forall c: Content :: |Fiber(a, c)| == |Fiber(b, c)|
  }

  lemma CountsAreFibers(a: Objects, b: Objects)
    ensures Counts(a) == Counts(b) <==> SameFibers(a, b)
  {
    forall c: Content
      ensures c in Counts(a) <==> Fiber(a, c) != {}
      ensures c in Counts(b) <==> Fiber(b, c) != {}
    {
      ContentsAreFibers(a, c);
      ContentsAreFibers(b, c);
    }
    if Counts(a) == Counts(b) {
      forall c: Content ensures |Fiber(a, c)| == |Fiber(b, c)| {
        if c in Counts(a) { assert Counts(a)[c] == Counts(b)[c]; }
      }
    }
    if SameFibers(a, b) {
      forall c: Content ensures c in Counts(a) <==> c in Counts(b) {
        assert |Fiber(a, c)| == |Fiber(b, c)|;
      }
      assert Counts(a).Keys == Counts(b).Keys;
    }
  }

  lemma FiberWithout(a: Objects, h: Handle, c: Content)
    requires h in a
    ensures |Fiber(a - {h}, c)| == |Fiber(a, c)| - (if ContentOf(a[h]) == c then 1 else 0)
  {
    if ContentOf(a[h]) == c {
      assert Fiber(a, c) == Fiber(a - {h}, c) + {h};
    } else {
      assert Fiber(a, c) == Fiber(a - {h}, c);
    }
  }

  lemma {:induction false} FibersGiveRenaming(a: Objects, b: Objects) returns (f: map<Handle, Handle>)
    requires SameFibers(a, b)
    ensures Renaming(f, a, b)
    decreases |a|
  {
    if a == map[] {
      f := map[];
      if b != map[] { FibersOfNothing(a, b); }
    } else {
      var h :| h in a;
      var c := ContentOf(a[h]);
      assert h in Fiber(a, c) && |Fiber(a, c)| == |Fiber(b, c)|;
      var k :| k in Fiber(b, c);
      forall d: Content ensures |Fiber(a - {h}, d)| == |Fiber(b - {k}, d)| {
        FiberWithout(a, h, d);
        FiberWithout(b, k, d);
        assert |Fiber(a, d)| == |Fiber(b, d)|;
      }
      var g := FibersGiveRenaming(a - {h}, b - {k});
      f := g[h := k];
      ExtendRenaming(g, a, b, h, k);
    }
  }

  lemma FibersOfNothing(a: Objects, b: Objects)
    requires a == map[] && b != map[]
    ensures !SameFibers(a, b)
  {
    var k :| k in b;
    var c := ContentOf(b[k]);
    assert k in Fiber(b, c) && Fiber(a, c) == {};
    assert |Fiber(a, c)| != |Fiber(b, c)|;
  }

  lemma ExtendRenaming(g: map<Handle, Handle>, a: Objects, b: Objects, h: Handle, k: Handle)
    requires h in a && k in b && ContentOf(a[h]) == ContentOf(b[k])
    requires Renaming(g, a - {h}, b - {k})
    ensures Renaming(g[h := k], a, b)
  {
    var f := g[h := k];
    forall x | x in b ensures exists y :: y in f && f[y] == x {
      if x == k {
        assert f[h] == x;
      } else {
        assert x in b - {k};
        var y :| y in g && g[y] == x;
        assert f[y] == x;
      }
    }
  }

  lemma ShrinkRenaming(f: map<Handle, Handle>, a: Objects, b: Objects, h: Handle)
    requires Renaming(f, a, b) && h in a
    ensures Renaming(f - {h}, a - {h}, b - {f[h]})
  {
    forall x | x in b - {f[h]} ensures exists y :: y in f - {h} && (f - {h})[y] == x {
      var y :| y in f && f[y] == x;
      assert (f - {h})[y] == x;
    }
  }

  lemma FibersGrow(a: Objects, b: Objects, h: Handle, k: Handle)
    requires h in a && k in b && ContentOf(a[h]) == ContentOf(b[k])
    requires SameFibers(a - {h}, b - {k})
    ensures SameFibers(a, b)
  {
    forall c: Content ensures |Fiber(a, c)| == |Fiber(b, c)| {
      FiberWithout(a, h, c);
      FiberWithout(b, k, c);
      assert |Fiber(a - {h}, c)| == |Fiber(b - {k}, c)|;
    }
  }

  lemma NothingRenamed(f: map<Handle, Handle>, a: Objects, b: Objects)
    requires Renaming(f, a, b) && a == map[]
    ensures b == map[]
  {
  }

  lemma {:induction false} RenamingGivesFibers(f: map<Handle, Handle>, a: Objects, b: Objects)
    requires Renaming(f, a, b)
    ensures SameFibers(a, b)
    decreases a.Keys
  {
    if a.Keys == {} {
      assert a == map[];
      NothingRenamed(f, a, b);
    } else {
      var h :| h in a.Keys;
      ShrinkRenaming(f, a, b, h);
      RenamingGivesFibers(f - {h}, a - {h}, b - {f[h]});
      FibersGrow(a, b, h, f[h]);
    }
  }

  /** Canonical equivalence is exactly the existence of a content-keeping bijection. */
  lemma EquivalentIsRenaming(a: Objects, b: Objects)
    ensures Counts(a) == Counts(b) <==> exists f :: Renaming(f, a, b)
  {
    CountsAreFibers(a, b);
    if SameFibers(a, b) {
      var f := FibersGiveRenaming(a, b);
    }
    if f :| Renaming(f, a, b) {
      RenamingGivesFibers(f, a, b);
    }
  }

  // ---------------------------------------------------------------- exact diff

  datatype Diff = Diff(added: seq<OsObject>, removed: seq<OsObject>) {
    predicate IsEmpty() {
      added == [] && removed == []
    }
  }

  /** The part of `a` that `b` does not hold as it is. */
  function Beyond(a: Objects, b: Objects): Objects {
    map h | h in a && !(h in b && b[h] == a[h]) :: a[h]
  }

  function Between(before: Objects, after: Objects): Diff {
    Diff(Values(Beyond(after, before)), Values(Beyond(before, after)))
  }

  /** Takes each object out with `OsState::remove`; `None` when one of them is not there. */
  function TakeAll(objects: Objects, gone: seq<OsObject>): Option<Objects>
    decreases |gone|
  {
    if gone == [] then
      Some(objects)
    else
      var (rest, taken) := Removed(objects, UniverseRemoval(gone[0].id, gone[0].capability), gone[0].owner);
      if taken == Some(gone[0]) then TakeAll(rest, gone[1..]) else None
  }

  /** Puts each object in with `OsState::insert`; `None` when a slot is not vacant. */
  function PutAll(objects: Objects, incoming: seq<OsObject>): Option<Objects>
    decreases |incoming|
  {
    if incoming == [] then
      Some(objects)
    else
      var (more, r) := Inserted(objects, incoming[0]);
      if r == Ok(true) then PutAll(more, incoming[1..]) else None
  }

  ghost predicate Distinct(objects: seq<OsObject>) {
    forall i, j | 0 <= i < j < |objects| :: objects[i].Address() != objects[j].Address()
  }

  ghost function Addresses(objects: seq<OsObject>): set<Handle> {
    set o | o in objects :: o.Address()
  }

  lemma {:induction false} TakeAllTakes(objects: Objects, gone: seq<OsObject>)
    requires Distinct(gone)
    requires forall o | o in gone :: o.Address() in objects && objects[o.Address()] == o
    ensures TakeAll(objects, gone) == Some(objects - Addresses(gone))
    decreases |gone|
  {
    if gone == [] {
      assert objects - Addresses(gone) == objects;
    } else {
      var rest := objects - {gone[0].Address()};
      AddressesHead(gone);
      DistinctRest(gone);
      TakeAllTakes(rest, gone[1..]);
      assert rest - Addresses(gone[1..]) == objects - Addresses(gone);
    }
  }

  /** `goal` is `objects` with `incoming` standing at addresses that were vacant. */
  ghost predicate Extends(goal: Objects, objects: Objects, incoming: seq<OsObject>) {
    && Distinct(incoming)
    && (forall o | o in incoming :: o.Address() !in objects && o.Address() in goal && goal[o.Address()] == o)
    && (forall h | h in objects :: h in goal && goal[h] == objects[h])
    && goal.Keys == objects.Keys + Addresses(incoming)
  }

  lemma AddressesHead(incoming: seq<OsObject>)
    requires incoming != []
    ensures Addresses(incoming) == Addresses(incoming[1..]) + {incoming[0].Address()}
    ensures forall o | o in incoming[1..] :: o in incoming
    ensures incoming[0] in incoming
  {
    assert incoming == [incoming[0]] + incoming[1..];
  }

  lemma DistinctRest(incoming: seq<OsObject>)
    requires incoming != [] && Distinct(incoming)
    ensures Distinct(incoming[1..]) && forall o | o in incoming[1..] :: o.Address() != incoming[0].Address()
  {
    forall o | o in incoming[1..] ensures o.Address() != incoming[0].Address() {
      var i :| 0 <= i < |incoming[1..]| && incoming[1..][i] == o;
      assert incoming[i + 1] == o;
    }
  }

  lemma ExtendsRest(goal: Objects, objects: Objects, incoming: seq<OsObject>)
    requires incoming != [] && Extends(goal, objects, incoming)
    ensures Extends(goal, objects[incoming[0].Address() := incoming[0]], incoming[1..])
  {
    AddressesHead(incoming);
    DistinctRest(incoming);
  }

  lemma {:induction false} PutAllPuts(objects: Objects, incoming: seq<OsObject>, goal: Objects)
    requires Extends(goal, objects, incoming)
    ensures PutAll(objects, incoming) == Some(goal)
    decreases |incoming|
  {
    if incoming == [] {
      assert goal == objects;
    } else {
      ExtendsRest(goal, objects, incoming);
      PutAllPuts(objects[incoming[0].Address() := incoming[0]], incoming[1..], goal);
    }
  }

  lemma RowsOf(m: Objects)
    requires WellKeyed(m)
    ensures Distinct(Values(m)) && Addresses(Values(m)) == m.Keys
    ensures forall o | o in Values(m) :: o.Address() in m && m[o.Address()] == o
  {
    SortedKeysSpec(m.Keys);
    ValuesCoverMap(m);
    forall h | h in m ensures h in Addresses(Values(m)) {
      assert m[h] in Values(m);
    }
    forall i, j | 0 <= i < j < |Values(m)| ensures Values(m)[i].Address() != Values(m)[j].Address() {
      assert SortedKeys(m.Keys)[i] in m && SortedKeys(m.Keys)[j] in m;
    }
  }

  /** The diff is empty exactly on equal states. */
  lemma DiffEmptyIffEqual(before: Objects, after: Objects)
    ensures Between(before, after).IsEmpty() <==> before == after
  {
    ValuesCoverMap(Beyond(before, after));
    ValuesCoverMap(Beyond(after, before));
    if Between(before, after).IsEmpty() {
      forall h ensures h in before <==> h in after {
        assert h !in Beyond(before, after) && h !in Beyond(after, before);
      }
      forall h | h in before ensures after[h] == before[h] {
        assert h !in Beyond(before, after);
      }
    }
    if before == after {
      assert Beyond(before, after) == map[];
    }
  }

  lemma PatchKeeps(before: Objects, after: Objects)
    requires WellKeyed(after)
    ensures Extends(after, before - Beyond(before, after).Keys, Values(Beyond(after, before)))
  {
    var kept := before - Beyond(before, after).Keys;
    RowsOf(Beyond(after, before));
    assert forall o | o in Values(Beyond(after, before)) :: o.Address() in Addresses(Values(Beyond(after, before)));
    assert after.Keys == kept.Keys + Beyond(after, before).Keys;
  }

  /** The diff is a patch: taking `removed` out leaves vacant slots for exactly `added`. */
  lemma DiffIsPatch(before: Objects, after: Objects)
    requires WellKeyed(before) && WellKeyed(after)
    ensures var d := Between(before, after);
            && TakeAll(before, d.removed).Some?
            && PutAll(TakeAll(before, d.removed).value, d.added) == Some(after)
  {
    var d := Between(before, after);
    RowsOf(Beyond(before, after));
    TakeAllTakes(before, d.removed);
    PatchKeeps(before, after);
    PutAllPuts(before - Beyond(before, after).Keys, d.added, after);
  }

  /** The diff lists exactly what one state holds and the other does not, in address order. */
  lemma DiffIsExact(before: Objects, after: Objects, o: OsObject)
    requires WellKeyed(before) && WellKeyed(after)
    ensures o in Between(before, after).added
            <==> o.Address() in after && after[o.Address()] == o && !(o.Address() in before && before[o.Address()] == o)
    ensures o in Between(before, after).removed
            <==> o.Address() in before && before[o.Address()] == o && !(o.Address() in after && after[o.Address()] == o)
    ensures forall i, j | 0 <= i < j < |Between(before, after).added| ::
              Before(Between(before, after).added[i].Address(), Between(before, after).added[j].Address())
    ensures forall i, j | 0 <= i < j < |Between(before, after).removed| ::
              Before(Between(before, after).removed[i].Address(), Between(before, after).removed[j].Address())
  {
    RowsInOrder(Beyond(after, before), o);
    RowsInOrder(Beyond(before, after), o);
  }

  lemma RowsInOrder(m: Objects, o: OsObject)
    requires WellKeyed(m)
    ensures o in Values(m) <==> o.Address() in m && m[o.Address()] == o
    ensures forall i, j | 0 <= i < j < |Values(m)| :: Before(Values(m)[i].Address(), Values(m)[j].Address())
  {
    var keys := SortedKeys(m.Keys);
    SortedKeysSpec(m.Keys);
    ValuesCoverMap(m);
    forall i | 0 <= i < |keys| ensures Values(m)[i].Address() == keys[i] {
      assert keys[i] in keys;
    }
    if o in Values(m) {
      var i :| 0 <= i < |keys| && Values(m)[i] == o;
      assert keys[i] in keys;
    }
    forall i, j | 0 <= i < j < |keys| ensures Before(Values(m)[i].Address(), Values(m)[j].Address()) {
      assert Before(keys[i], keys[j]);
    }
  }
}
