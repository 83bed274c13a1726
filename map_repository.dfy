/**
 * `InMemoryMapUserRepository`: a `HashMap<Integer, User>` keyed by id. `save` is an
 * unconditional put, `findById` a key lookup, `findAll` a copy of the values in no
 * guaranteed order, and `delete` a key removal.
 */
module MapRepository {
  import opened Users
  import opened Repository

  class InMemoryMapUserRepository {
    var storage: map<int, User>

    /** Every record sits under its own id: `save` is the only writer and keys by the id. */
    ghost predicate Valid()
      reads this
    {
      KeyedById(storage)
    }

    /** The abstract store the repository contract is stated over. */
    ghost function Model(): Store
      reads this
    {
      storage
    }

    constructor ()
      ensures Valid()
      ensures Model() == map[]
    {
      storage := map[];
    }

    /** Upsert: an unconditional put under the user's id. */
    method Save(user: User)
      requires Valid()
      modifies this
      ensures Valid()
      ensures Model() == Saved(old(Model()), user)
    {
      storage := storage[user.id := user];
    }

    /** A key lookup: a missing key gives `None`, not a failure. */
    method FindById(id: int) returns (r: Option<User>)
      requires Valid()
      ensures r == Lookup(Model(), id)
      ensures r.Some? ==> r.value.id == id
    {
      if id in storage {
        r := Some(storage[id]);
      } else {
        r := None;
      }
    }

    /**
     * A fresh list of the stored values. The keys are visited in an order the model
     * leaves open (a hash map's bucket order), so only `Enumerates` is promised.
     */
    method FindAll() returns (r: seq<User>)
      requires Valid()
      ensures Enumerates(r, Model())
      ensures |r| == |Model()|
    {
      r := [];
      var pending := storage.Keys;
      while exists k :: k in pending
        invariant pending <= storage.Keys
        invariant forall i :: 0 <= i < |r| ==> r[i].id in storage && r[i].id !in pending && storage[r[i].id] == r[i]
        invariant forall i, j :: 0 <= i < j < |r| ==> r[i].id != r[j].id
        invariant forall k :: k in storage && k !in pending ==> storage[k] in r
        decreases |pending|
      {
        var k :| k in pending;
        r := r + [storage[k]];
        pending := pending - {k};
      }
      EnumeratesSize(r, storage);
    }

    /** Key removal: an absent key is a no-op. */
    method Delete(id: int)
      requires Valid()
      modifies this
      ensures Valid()
      ensures Model() == Deleted(old(Model()), id)
    {
      storage := storage - {id};
    }
  }
}
