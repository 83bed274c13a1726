/**
 * Callers of the repository contract: the same calls made on one backend of each kind
 * give the same answers, and the demonstration scenario of `DaoArchitecture.demo`.
 */
module Equivalence {
  import opened Users
  import opened Repository
  import opened MapRepository
  import opened ListRepository

  /**
   * Makes the calls `ops` on a fresh map backend and a fresh list backend, then asks both
   * for `id` and for all records. At every step both hold the same abstract store, so
   * `findById` agrees; `findAll` lists the same records, the list backend in its own order.
   */
  method Replay(ops: seq<Op>, id: int)
    returns (fromMap: Option<User>, fromList: Option<User>, allFromMap: seq<User>, allFromList: seq<User>)
    ensures fromMap == fromList
    ensures fromMap == Lookup(Run(map[], ops), id)
    ensures Enumerates(allFromMap, Run(map[], ops)) && Enumerates(allFromList, Run(map[], ops))
    ensures |allFromMap| == |allFromList| == |Run(map[], ops)|
    ensures allFromList == RunList([], ops)
  {
    var byMap := new InMemoryMapUserRepository();
    var byList := new InMemoryListUserRepository();
    var i := 0;
    while i < |ops|
      invariant 0 <= i <= |ops|
      invariant byMap.Valid() && byList.Valid()
      invariant byMap.Model() == Run(map[], ops[..i])
      invariant byList.Model() == byMap.Model()
      invariant byList.storage == RunList([], ops[..i])
    {
      assert ops[..i + 1][..i] == ops[..i];
      match ops[i] {
        case Save(u) =>
          byMap.Save(u);
          byList.Save(u);
        case Delete(k) =>
          byMap.Delete(k);
          byList.Delete(k);
      }
      i := i + 1;
    }
    assert ops[..i] == ops;
    fromMap := byMap.FindById(id);
    fromList := byList.FindById(id);
    allFromMap := byMap.FindAll();
    allFromList := byList.FindAll();
    EnumeratesSize(allFromList, byList.Model());
  }

  /**
   * `demo()`: a counter is incremented to 1, `User(1, "jack")` is saved on a backend of
   * each kind, and both find it under id 1; id 2 is found on neither.
   */
  method Demo()
    returns (fromMap: Option<User>, fromList: Option<User>, missingMap: Option<User>, missingList: Option<User>)
    ensures fromMap == Some(User(1, "jack")) && fromList == fromMap
    ensures missingMap == None && missingList == None
  {
    var repo1 := new InMemoryMapUserRepository();
    var repo2 := new InMemoryListUserRepository();
    var counter := 0;
    counter := counter + 1;
    repo1.Save(User(counter, "jack"));
    repo2.Save(User(counter, "jack"));
    fromMap := repo1.FindById(1);
    fromList := repo2.FindById(1);
    missingMap := repo1.FindById(2);
    missingList := repo2.FindById(2);
  }

  /** Saving ids 1, 2 and then 1 again: the list backend enumerates ids [2, 1]. */
  method ListUpsertScenario() returns (ids: seq<int>)
    ensures ids == [2, 1]
  {
    var a, b, c := User(1, "jack"), User(2, "bob"), User(1, "jill");
    var repo := new InMemoryListUserRepository();
    repo.Save(a);
    repo.Save(b);
    repo.Save(c);
    var all := repo.FindAll();
    SaveMovesToEnd(a, b, c);
    ids := [all[0].id, all[1].id];
  }

  /**
   * Saving ids 1, 2 and then 1 again: the map backend lists exactly the records
   * saved last for ids 1 and 2, in an order the contract does not fix.
   */
  method MapUpsertScenario() returns (all: seq<User>)
    ensures |all| == 2
    ensures forall u :: u in all <==> u == User(1, "jill") || u == User(2, "bob")
  {
    var a, b, c := User(1, "jack"), User(2, "bob"), User(1, "jill");
    var repo := new InMemoryMapUserRepository();
    repo.Save(a);
    repo.Save(b);
    repo.Save(c);
    all := repo.FindAll();
    var m := repo.Model();
    assert m.Keys == {1, 2} by {
      forall k ensures k in m.Keys <==> k in {1, 2} {}
    }
    forall u ensures u in all <==> u == c || u == b {
      if u in all {
        var i :| 0 <= i < |all| && all[i] == u;
        assert u.id in m;
      }
      if u == c || u == b {
        assert m[u.id] == u;
      }
    }
  }
}
