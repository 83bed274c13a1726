/**
 * `InMemoryListUserRepository`: an `ArrayList<User>` scanned linearly. `save` removes every
 * element with the new record's id and appends the record, so a replaced record moves to
 * the end; `findById` returns the first match; `delete` removes every match.
 */
module ListRepository {
  import opened Users
  import opened Repository

  /** The ids that occur in a list. */
  function Ids(s: seq<User>): set<int> {
    set i | 0 <= i < |s| :: s[i].id
  }

  /** The invariant the list backend keeps: no two elements share an id. */
  predicate DistinctIds(s: seq<User>) {
    forall i, j :: 0 <= i < j < |s| ==> s[i].id != s[j].id
  }

  /** The remove-if-id-matches filter on a value: the elements with another id, in their order. */
  function WithoutId(s: seq<User>, id: int): (r: seq<User>)
    ensures |r| <= |s|
    ensures forall i :: 0 <= i < |r| ==> r[i].id != id
    decreases |s|
  {
    if s == [] then []
    else WithoutId(s[..|s| - 1], id) + (if s[|s| - 1].id == id then [] else [s[|s| - 1]])
  }

  /**
   * The abstraction from a list to the store the contract speaks of: for each id, the
   * first element carrying it (the one `findFirst` returns).
   */
  function ToMap(s: seq<User>): Store
    decreases |s|
  {
    if s == [] then map[]
    else
      var m, u := ToMap(s[..|s| - 1]), s[|s| - 1];
      if u.id in m then m else m[u.id := u]
  }

  /** The list after `save(u)`: the old list without `u.id`, then `u`. */
  function SavedList(s: seq<User>, u: User): (r: seq<User>)
    ensures |r| > 0 && r[|r| - 1] == u
    ensures forall i :: 0 <= i < |r| - 1 ==> r[i].id != u.id
  {
    WithoutId(s, u.id) + [u]
  }

  function ApplyList(s: seq<User>, op: Op): seq<User> {
    match op
    case Save(u) => SavedList(s, u)
    case Delete(id) => WithoutId(s, id)
  }

  /** The list after the calls `ops`, made in order, starting from `s`. */
  function RunList(s: seq<User>, ops: seq<Op>): seq<User>
    decreases |ops|
  {
    if ops == [] then s else ApplyList(RunList(s, ops[..|ops| - 1]), ops[|ops| - 1])
  }

  /** Two stores are equal when every lookup agrees. */
  lemma StoreExt(a: Store, b: Store)
    requires forall k :: Lookup(a, k) == Lookup(b, k)
    ensures a == b
  {
    forall k ensures k in a <==> k in b {
      assert Lookup(a, k) == Lookup(b, k);
    }
    forall k | k in a ensures a[k] == b[k] {
      assert Lookup(a, k) == Lookup(b, k);
    }
    assert a.Keys == b.Keys;
  }

  /** `removeIf` keeps exactly the elements whose id differs, and never adds any. */
  lemma {:induction false} WithoutIdMembers(s: seq<User>, id: int)
    ensures forall u :: u in WithoutId(s, id) <==> u in s && u.id != id
    ensures |WithoutId(s, id)| <= |s|
    decreases |s|
  {
    if s != [] {
      var init := s[..|s| - 1];
      assert s == init + [s[|s| - 1]];
      WithoutIdMembers(init, id);
    }
  }

  /** `removeIf` keeps the relative order: filtering distributes over concatenation. */
  lemma {:induction false} WithoutIdConcat(s: seq<User>, t: seq<User>, id: int)
    ensures WithoutId(s + t, id) == WithoutId(s, id) + WithoutId(t, id)
    decreases |t|
  {
    if t == [] {
      assert s + t == s;
    } else {
      var t' := t[..|t| - 1];
      assert (s + t)[..|s + t| - 1] == s + t';
      WithoutIdConcat(s, t', id);
    }
  }

  /** Removing an id that does not occur leaves the list as it is. */
  lemma {:induction false} WithoutIdAbsent(s: seq<User>, id: int)
    requires id !in Ids(s)
    ensures WithoutId(s, id) == s
    decreases |s|
  {
    if s != [] {
      var init := s[..|s| - 1];
      assert id !in Ids(init) by {
        forall i | 0 <= i < |init| ensures init[i].id != id {
          assert init[i] == s[i];
        }
      }
      WithoutIdAbsent(init, id);
    }
  }

  /** Removing an id twice removes as much as removing it once. */
  lemma WithoutIdIdempotent(s: seq<User>, id: int)
    ensures WithoutId(WithoutId(s, id), id) == WithoutId(s, id)
  {
    var w := WithoutId(s, id);
    WithoutIdMembers(s, id);
    assert id !in Ids(w) by {
      forall i | 0 <= i < |w| ensures w[i].id != id {
        assert w[i] in w;
      }
    }
    WithoutIdAbsent(w, id);
  }

  /** Filtering keeps the ids distinct. */
  lemma {:induction false} WithoutIdDistinct(s: seq<User>, id: int)
    requires DistinctIds(s)
    ensures DistinctIds(WithoutId(s, id))
    decreases |s|
  {
    if s != [] {
      var n := |s| - 1;
      var init, u := s[..n], s[n];
      WithoutIdDistinct(init, id);
      if u.id != id {
        var w := WithoutId(init, id);
        WithoutIdMembers(init, id);
        forall i | 0 <= i < |w| ensures w[i].id != u.id {
          assert w[i] in init;
          var j :| 0 <= j < n && init[j] == w[i];
          assert s[j] == w[i];
        }
      }
    }
  }

  /** The abstract store holds exactly the ids of the list. */
  lemma {:induction false} ToMapKeys(s: seq<User>)
    ensures forall k :: k in ToMap(s) <==> k in Ids(s)
    decreases |s|
  {
    if s != [] {
      var n := |s| - 1;
      var init := s[..n];
      ToMapKeys(init);
      forall k ensures k in Ids(s) <==> k in Ids(init) || k == s[n].id {
        if k in Ids(s) {
          var i :| 0 <= i < |s| && s[i].id == k;
          if i < n {
            assert init[i] == s[i];
          }
        }
        if k in Ids(init) {
          var i :| 0 <= i < n && init[i].id == k;
          assert s[i] == init[i];
        }
      }
    }
  }

  /** The abstract store keeps the contract's invariant, and holds only list elements. */
  lemma {:induction false} ToMapRecords(s: seq<User>)
    ensures KeyedById(ToMap(s))
    ensures forall k :: k in ToMap(s) ==> ToMap(s)[k] in s
    decreases |s|
  {
    if s != [] {
      var init := s[..|s| - 1];
      assert s == init + [s[|s| - 1]];
      ToMapRecords(init);
    }
  }

  /** The first element with a given id is the record the abstract store holds under it. */
  lemma {:induction false} ToMapFirst(s: seq<User>, i: int)
    requires 0 <= i < |s|
    requires forall j :: 0 <= j < i ==> s[j].id != s[i].id
    ensures Lookup(ToMap(s), s[i].id) == Some(s[i])
    decreases |s|
  {
    var n := |s| - 1;
    var init := s[..n];
    if i < n {
      assert init[i] == s[i];
      ToMapFirst(init, i);
    } else {
      ToMapKeys(init);
      assert s[i].id !in Ids(init) by {
        forall j | 0 <= j < n ensures init[j].id != s[i].id {
          assert init[j] == s[j];
        }
      }
    }
  }

  /** A list without an id is found absent by `findById`. */
  lemma {:induction false} AbsentNotFound(s: seq<User>, id: int)
    requires forall i :: 0 <= i < |s| ==> s[i].id != id
    ensures Lookup(ToMap(s), id) == None
  {
    ToMapKeys(s);
  }

  /** Every list with distinct ids is an enumeration of its abstract store. */
  lemma DistinctEnumerates(s: seq<User>)
    requires DistinctIds(s)
    ensures Enumerates(s, ToMap(s))
  {
    forall i | 0 <= i < |s| ensures s[i].id in ToMap(s) && ToMap(s)[s[i].id] == s[i] {
      ToMapFirst(s, i);
    }
    ToMapRecords(s);
  }

  /** Refinement of `delete`: filtering the list deletes the id from the abstract store. */
  lemma {:induction false} WithoutIdRefines(s: seq<User>, id: int)
    ensures ToMap(WithoutId(s, id)) == Deleted(ToMap(s), id)
    decreases |s|
  {
    if s != [] {
      var n := |s| - 1;
      var init, u := s[..n], s[n];
      var w := WithoutId(init, id);
      WithoutIdRefines(init, id);
      if u.id != id {
        assert (w + [u])[..|w|] == w;
      }
      forall k ensures Lookup(ToMap(WithoutId(s, id)), k) == Lookup(Deleted(ToMap(s), id), k) {
        if u.id != id {
          assert WithoutId(s, id) == w + [u];
        } else {
          assert WithoutId(s, id) == w;
        }
      }
      StoreExt(ToMap(WithoutId(s, id)), Deleted(ToMap(s), id));
    }
  }

  /** Refinement of `save`: the new list's abstract store is the old one with `u` saved. */
  lemma SavedListRefines(s: seq<User>, u: User)
    ensures ToMap(SavedList(s, u)) == Saved(ToMap(s), u)
    ensures DistinctIds(s) ==> DistinctIds(SavedList(s, u))
  {
    var w := WithoutId(s, u.id);
    assert (w + [u])[..|w|] == w;
    WithoutIdRefines(s, u.id);
    ToMapKeys(w);
    WithoutIdMembers(s, u.id);
    assert u.id !in Ids(w) by {
      forall i | 0 <= i < |w| ensures w[i].id != u.id {
        assert w[i] in w;
      }
    }
    StoreExt(ToMap(SavedList(s, u)), Saved(ToMap(s), u));
    if DistinctIds(s) {
      WithoutIdDistinct(s, u.id);
    }
  }

  /** Replaying calls on the list replays them on its abstract store, and keeps ids distinct. */
  lemma {:induction false} RunListRefines(s: seq<User>, ops: seq<Op>)
    ensures ToMap(RunList(s, ops)) == Run(ToMap(s), ops)
    ensures DistinctIds(s) ==> DistinctIds(RunList(s, ops))
    decreases |ops|
  {
    if ops != [] {
      var init := ops[..|ops| - 1];
      RunListRefines(s, init);
      var t := RunList(s, init);
      match ops[|ops| - 1]
      case Save(u) =>
        SavedListRefines(t, u);
      case Delete(id) =>
        WithoutIdRefines(t, id);
        if DistinctIds(s) {
          WithoutIdDistinct(t, id);
        }
    }
  }

  /** Saving ids 1, 2 and then 1 again enumerates as [2, 1]: the replaced record moves last. */
  lemma SaveMovesToEnd(a: User, b: User, c: User)
    requires a.id == c.id && a.id != b.id
    ensures SavedList(SavedList(SavedList([], a), b), c) == [b, c]
    ensures RunList([], [Save(a), Save(b), Save(c)]) == [b, c]
  {
    var ops := [Save(a), Save(b), Save(c)];
    assert ops[..2] == [Save(a), Save(b)] && ops[..2][..1] == [Save(a)];
    assert [Save(a)][..0] == [];
    var s1 := SavedList([], a);
    assert s1 == [a];
    assert WithoutId(s1, b.id) == [a] by {
      assert s1[..0] == [];
    }
    var s2 := SavedList(s1, b);
    assert s2 == [a, b];
    assert WithoutId(s2, c.id) == [b] by {
      assert s2[..1] == [a] && [a][..0] == [];
    }
    assert RunList([], [Save(a)]) == s1;
    assert RunList([], ops[..2]) == s2;
  }

  /** The list backend. Only `storage` is state; `Model()` is what the contract sees. */
  class InMemoryListUserRepository {
    var storage: seq<User>

    /** One element per id. */
    ghost predicate Valid()
      reads this
    {
      DistinctIds(storage)
    }

    /** The abstract store the repository contract is stated over. */
    ghost function Model(): Store
      reads this
    {
      ToMap(storage)
    }

    constructor ()
      ensures Valid()
      ensures storage == [] && Model() == map[]
    {
      storage := [];
    }

    /** The in-place remove-if scan by id, shared by `save` and `delete`. */
    method RemoveId(id: int)
      modifies this
      ensures storage == WithoutId(old(storage), id)
    {
      var kept: seq<User> := [];
      var i := 0;
      while i < |storage|
        invariant 0 <= i <= |storage|
        invariant kept == WithoutId(storage[..i], id)
      {
        assert storage[..i + 1][..i] == storage[..i];
        if storage[i].id != id {
          kept := kept + [storage[i]];
        }
        i := i + 1;
      }
      assert storage[..i] == storage;
      storage := kept;
    }

    /** Upsert: drop every record with `user.id`, then append `user`. */
    method Save(user: User)
      requires Valid()
      modifies this
      ensures Valid()
      ensures storage == SavedList(old(storage), user)
      ensures Model() == Saved(old(Model()), user)
    {
      SavedListRefines(storage, user);
      RemoveId(user.id);
      storage := storage + [user];
    }

    /** The first element whose id matches, or `None`. */
    method FindById(id: int) returns (r: Option<User>)
      ensures r == Lookup(Model(), id)
      ensures r.None? <==> forall i :: 0 <= i < |storage| ==> storage[i].id != id
      ensures r.Some? ==> exists i :: 0 <= i < |storage| && storage[i] == r.value && r.value.id == id
                                       && forall j :: 0 <= j < i ==> storage[j].id != id
    {
      var i := 0;
      while i < |storage|
        invariant 0 <= i <= |storage|
        invariant forall j :: 0 <= j < i ==> storage[j].id != id
      {
        if storage[i].id == id {
          ToMapFirst(storage, i);
          return Some(storage[i]);
        }
        i := i + 1;
      }
      AbsentNotFound(storage, id);
      r := None;
    }

    /** A copy of the list in its current order; it lists every stored record once. */
    method FindAll() returns (r: seq<User>)
      requires Valid()
      ensures r == storage
      ensures Enumerates(r, Model())
      ensures |r| == |Model()|
    {
      DistinctEnumerates(storage);
      ToMapRecords(storage);
      EnumeratesSize(storage, ToMap(storage));
      r := storage;
    }

    /** Remove every record with the id; no-op when there is none. */
    method Delete(id: int)
      requires Valid()
      modifies this
      ensures Valid()
      ensures storage == WithoutId(old(storage), id)
      ensures Model() == Deleted(old(Model()), id)
    {
      WithoutIdRefines(storage, id);
      WithoutIdDistinct(storage, id);
      RemoveId(id);
    }
  }
}
