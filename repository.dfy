/**
 * The repository contract shared by every backend. A backend's state is abstracted to a
 * `Store`, a map from id to the one record held for that id; each operation of the
 * contract is stated here as a function on stores, and both backends promise, in their
 * method contracts, to act on their abstract store exactly as these functions do.
 */
module Repository {
  import opened Users

  type Store = map<int, User>

  /** The representation invariant of the contract: the record held under id `k` has id `k`. */
  predicate KeyedById(m: Store) {
    forall k :: k in m ==> m[k].id == k
  }

  /** `findById`: the record stored under `id`, or `None` when nothing is. */
  function Lookup(m: Store, id: int): (r: Option<User>)
    ensures r.None? <==> id !in m
    ensures r.Some? ==> r.value == m[id]
    ensures KeyedById(m) && r.Some? ==> r.value.id == id
  {
    if id in m then Some(m[id]) else None
  }

  /** `save`: insert, or fully replace the record with the same id (upsert). */
  function Saved(m: Store, u: User): (r: Store)
    ensures Lookup(r, u.id) == Some(u)
    ensures forall k :: k != u.id ==> Lookup(r, k) == Lookup(m, k)
    ensures r.Keys == m.Keys + {u.id}
    ensures KeyedById(m) ==> KeyedById(r)
  {
    m[u.id := u]
  }

  /** `delete`: remove the record with that id; no-op when there is none. */
  function Deleted(m: Store, id: int): (r: Store)
    ensures Lookup(r, id) == None
    ensures forall k :: k != id ==> Lookup(r, k) == Lookup(m, k)
    ensures r.Keys == m.Keys - {id}
    ensures KeyedById(m) ==> KeyedById(r)
  {
    m - {id}
  }

  /**
   * `findAll`: `r` lists every stored record exactly once, in some order. The contract
   * fixes no order; each backend picks its own.
   */
  predicate Enumerates(r: seq<User>, m: Store) {
    && (forall i :: 0 <= i < |r| ==> r[i].id in m && m[r[i].id] == r[i])
    && (forall i, j :: 0 <= i < j < |r| ==> r[i].id != r[j].id)
    && (forall k :: k in m ==> m[k] in r)
  }

  /** A call a caller makes that changes a repository. */
  datatype Op = Save(user: User) | Delete(id: int)

  function Apply(m: Store, op: Op): Store {
    match op
    case Save(u) => Saved(m, u)
    case Delete(id) => Deleted(m, id)
  }

  /** The store after the calls `ops`, made in order, starting from `m`. */
  function Run(m: Store, ops: seq<Op>): Store
    decreases |ops|
  {
    if ops == [] then m else Apply(Run(m, ops[..|ops| - 1]), ops[|ops| - 1])
  }

  /** The id a call acts on. */
  function Target(op: Op): int {
    match op
    case Save(u) => u.id
    case Delete(id) => id
  }

  /** No call in `ops` saves or deletes id `k`. */
  predicate Untouched(ops: seq<Op>, k: int) {
    forall i :: 0 <= i < |ops| ==> Target(ops[i]) != k
  }

  /** No call in `ops` saves a record with id `k`. */
  predicate NeverSaved(ops: seq<Op>, k: int) {
    forall i :: 0 <= i < |ops| && ops[i].Save? ==> ops[i].user.id != k
  }

  /** Every reachable store keeps the invariant: one record per id, under its own id. */
  lemma {:induction false} RunKeyedById(m: Store, ops: seq<Op>)
    requires KeyedById(m)
    ensures KeyedById(Run(m, ops))
    decreases |ops|
  {
    if ops != [] {
      RunKeyedById(m, ops[..|ops| - 1]);
    }
  }

  /** Replaying `a` then `b` is replaying `a + b`. */
  lemma {:induction false} RunConcat(m: Store, a: seq<Op>, b: seq<Op>)
    ensures Run(m, a + b) == Run(Run(m, a), b)
    decreases |b|
  {
    if b == [] {
      assert a + b == a;
    } else {
      var b' := b[..|b| - 1];
      assert (a + b)[..|a + b| - 1] == a + b';
      RunConcat(m, a, b');
    }
  }

  /** Calls on other ids do not change what `findById(k)` returns. */
  lemma {:induction false} RunUntouched(m: Store, ops: seq<Op>, k: int)
    requires Untouched(ops, k)
    ensures Lookup(Run(m, ops), k) == Lookup(m, k)
    decreases |ops|
  {
    if ops != [] {
      var init := ops[..|ops| - 1];
      assert Target(ops[|ops| - 1]) != k;
      RunUntouched(m, init, k);
    }
  }

  /**
   * After `save(u)`, `findById(u.id)` returns exactly `u` until a later save or delete of
   * the same id, whatever else is saved or deleted in between.
   */
  lemma SaveThenFind(m: Store, u: User, later: seq<Op>)
    requires Untouched(later, u.id)
    ensures Lookup(Run(m, [Save(u)] + later), u.id) == Some(u)
  {
    RunConcat(m, [Save(u)], later);
    assert Run(m, [Save(u)]) == Saved(m, u) by {
      assert [Save(u)][..0] == [];
    }
    RunUntouched(Saved(m, u), later, u.id);
  }

  /** An id that was never saved is not found, on a repository that started empty. */
  lemma {:induction false} NeverSavedNotFound(ops: seq<Op>, k: int)
    requires NeverSaved(ops, k)
    ensures Lookup(Run(map[], ops), k) == None
    decreases |ops|
  {
    if ops != [] {
      var init := ops[..|ops| - 1];
      assert NeverSaved(init, k);
      NeverSavedNotFound(init, k);
    }
  }

  /** Upsert: a second save with the same id replaces the first one's record. */
  lemma UpsertReplaces(m: Store, ops: seq<Op>, u1: User, u2: User)
    requires u1.id == u2.id
    ensures Run(m, ops + [Save(u1), Save(u2)]) == Run(m, ops + [Save(u2)])
  {
    var s := Run(m, ops);
    RunConcat(m, ops, [Save(u1), Save(u2)]);
    RunConcat(m, ops, [Save(u2)]);
    assert [Save(u1), Save(u2)][..1] == [Save(u1)];
    assert [Save(u1)][..0] == [] && [Save(u2)][..0] == [];
    assert Saved(Saved(s, u1), u2) == Saved(s, u2);
  }

  /** Deleting twice in a row has the same effect as deleting once. */
  lemma DeleteIdempotent(m: Store, ops: seq<Op>, k: int)
    ensures Run(m, ops + [Delete(k), Delete(k)]) == Run(m, ops + [Delete(k)])
  {
    var s := Run(m, ops);
    RunConcat(m, ops, [Delete(k), Delete(k)]);
    RunConcat(m, ops, [Delete(k)]);
    assert [Delete(k), Delete(k)][..1] == [Delete(k)];
    assert [Delete(k)][..0] == [];
    assert Deleted(Deleted(s, k), k) == Deleted(s, k);
  }

  /** Dropping the last element of an enumeration enumerates the store without its id. */
  lemma EnumeratesInit(r: seq<User>, m: Store)
    requires KeyedById(m) && Enumerates(r, m) && r != []
    ensures r[|r| - 1].id in m
    ensures Enumerates(r[..|r| - 1], Deleted(m, r[|r| - 1].id))
  {
  }

  /** The records held by a store, one per stored id (the values of the map). */
  function Records(m: Store): set<User> {
    set k | k in m :: m[k]
  }

  /** Removing a present id takes exactly its record out of the store's records. */
  lemma ValuesWithout(m: Store, k: int)
    requires KeyedById(m) && k in m
    ensures m[k] !in Records(Deleted(m, k))
    ensures multiset(Records(m)) == multiset(Records(Deleted(m, k))) + multiset{m[k]}
  {
    var m' := Deleted(m, k);
    forall v | v in Records(m') ensures v != m[k] {
      var j :| j in m' && m'[j] == v;
      assert v.id == j;
    }
    forall v ensures v in Records(m) <==> v in Records(m') + {m[k]} {
      if v in Records(m) {
        var j :| j in m && m[j] == v;
        if j != k {
          assert m'[j] == v;
        }
      }
    }
    assert Records(m) == Records(m') + {m[k]};
  }

  /**
   * An enumeration of a store has one element per stored id, and as a multiset it is
   * the store's records: the length of `findAll` is the number of stored ids.
   */
  lemma {:induction false} EnumeratesSize(r: seq<User>, m: Store)
    requires KeyedById(m) && Enumerates(r, m)
    ensures |r| == |m|
    ensures multiset(r) == multiset(Records(m))
    decreases |r|
  {
    if r == [] {
      forall k ensures k !in m {}
      forall k ensures k in m.Keys <==> k in {} {}
      assert m.Keys == {};
      assert Records(m) == {};
    } else {
      var n := |r| - 1;
      var last, init := r[n], r[..n];
      assert r == init + [last];
      EnumeratesInit(r, m);
      EnumeratesSize(init, Deleted(m, last.id));
      ValuesWithout(m, last.id);
    }
  }
}
