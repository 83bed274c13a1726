# DAO repository: a contract and two in-memory backends

This project models the data-access core of `DaoArchitecture.java`. It has a `User` record
and a `UserRepository` contract with four operations, `save`, `findById`, `findAll` and
`delete`. Two in-memory backends implement the contract:

- `InMemoryMapUserRepository` keeps a hash map from id to user. `save` is a put that inserts
  or replaces (an upsert). `findById` looks up the key. `findAll` copies the values.
  `delete` removes the key.
- `InMemoryListUserRepository` keeps an array list. `save` removes every element with the
  same id and then appends the new user, so a replaced record moves to the end. `findById`
  returns the first element with a matching id. `findAll` copies the list. `delete` removes
  every element with a matching id.

There are five modules:

- `Users` (`users.dfy`): the `User` value and `Option`, the result type of `findById`.
- `Repository` (`repository.dfy`): the contract. A backend's state is abstracted to a `Store`,
  a map from id to the record held for that id. Every operation of the contract is a function
  on stores (`Lookup`, `Saved`, `Deleted`), and `Enumerates` says what `findAll` must return.
  It also has `Run`, which replays a sequence of `save`/`delete` calls, and lemmas about
  sequences of calls: save-then-find, never-saved ids, upsert, delete idempotence, and the
  size of `findAll`.
- `MapRepository` (`map_repository.dfy`): the map backend, as a class whose `storage` field is
  a `map<int, User>`.
- `ListRepository` (`list_repository.dfy`): the list backend, as a class whose `storage` field
  is a `seq<User>`. The loop `RemoveId` models `removeIf`. The module also has the
  value-level functions the class is proved against: `WithoutId` (filter), `SavedList`,
  `ToMap` (the abstraction to a `Store`, taking the first element per id) and `RunList`. The
  refinement lemmas are here too: each list operation acts on `ToMap(storage)` exactly as the
  contract's function acts on a store, and every operation keeps ids distinct.
- `Equivalence` (`equivalence.dfy`): callers. `Replay` makes the same calls on one fresh
  backend of each kind and shows that their answers agree. `Demo` restates the source's
  demonstration. The two upsert scenarios save ids 1, 2 and then 1 again.

Both classes state their method contracts against a ghost `Model()`, using the same
`Repository` functions. This shared contract is what makes them interchangeable.

## Model

| member | source | states |
|---|---|---|
| `Repository.Lookup` | src/main/java/com/architecture/dao/DaoArchitecture.java:17 | `findById` gives `None` exactly when the id is not stored, and otherwise the stored record, whose id is the one asked for |
| `Repository.Saved` | src/main/java/com/architecture/dao/DaoArchitecture.java:19 | after `save(u)`, looking up `u.id` gives `u` and every other id gives what it gave before; the set of stored ids gains `u.id`; one record per id is kept |
| `Repository.Deleted` | src/main/java/com/architecture/dao/DaoArchitecture.java:20 | after `delete(id)`, `id` is absent and every other id gives what it gave before; the invariant is kept |
| `Repository.RunKeyedById` | src/main/java/com/architecture/dao/DaoArchitecture.java:16-21 | every sequence of saves and deletes keeps the invariant that each id holds one record carrying that id |
| `Repository.RunUntouched` | src/main/java/com/architecture/dao/DaoArchitecture.java:16-21 | calls that save or delete other ids do not change what `findById(k)` returns |
| `Repository.SaveThenFind` | src/main/java/com/architecture/dao/DaoArchitecture.java:17-19 | after `save(u)`, `findById(u.id)` returns exactly `u` until a later save or delete of that id, whatever other calls come in between |
| `Repository.NeverSavedNotFound` | src/main/java/com/architecture/dao/DaoArchitecture.java:17 | on a repository that started empty, an id no call saved is not found: the result is empty, not a failure |
| `Repository.UpsertReplaces` | src/main/java/com/architecture/dao/DaoArchitecture.java:19 | a second save with the same id leaves the store as if only the second save had been made |
| `Repository.DeleteIdempotent` | src/main/java/com/architecture/dao/DaoArchitecture.java:20 | deleting an id twice in a row leaves the same store as deleting it once |
| `Repository.EnumeratesSize` | src/main/java/com/architecture/dao/DaoArchitecture.java:18 | a `findAll` result has one element per stored id, and its multiset of elements is the store's set of records |
| `ListRepository.WithoutId` | src/main/java/com/architecture/dao/DaoArchitecture.java:60 | the remove-if filter by id, used by `save` (line 60) and `delete` (line 78): the elements whose id differs, in their order; the result is never longer than the list, and no element of it carries the id |
| `ListRepository.SavedList` | src/main/java/com/architecture/dao/DaoArchitecture.java:60-61 | the list after `save(u)`: the remove-if filter by `u.id`, then `u` appended; `u` is the last element and the only one carrying `u.id` |
| `ListRepository.WithoutIdMembers` | src/main/java/com/architecture/dao/DaoArchitecture.java:78 | `removeIf` by id keeps exactly the elements with another id and adds none |
| `ListRepository.WithoutIdConcat` | src/main/java/com/architecture/dao/DaoArchitecture.java:78 | `removeIf` keeps the relative order of the remaining records: filtering a concatenation is the concatenation of the filtered parts |
| `ListRepository.WithoutIdAbsent` | src/main/java/com/architecture/dao/DaoArchitecture.java:78 | removing an id that does not occur leaves the list unchanged |
| `ListRepository.WithoutIdIdempotent` | src/main/java/com/architecture/dao/DaoArchitecture.java:78 | removing an id a second time changes nothing |
| `ListRepository.WithoutIdDistinct` | src/main/java/com/architecture/dao/DaoArchitecture.java:60 | filtering a list whose ids are distinct keeps them distinct |
| `ListRepository.ToMapKeys` | src/main/java/com/architecture/dao/DaoArchitecture.java:65-69 | an id is found in the list's abstract store exactly when some element carries it |
| `ListRepository.ToMapRecords` | src/main/java/com/architecture/dao/DaoArchitecture.java:65-69 | the list's abstract store keeps one record per id, under its own id, and every record in it is an element of the list |
| `ListRepository.ToMapFirst` | src/main/java/com/architecture/dao/DaoArchitecture.java:66-68 | the first element carrying an id is the record the abstract store holds for that id (`findFirst`) |
| `ListRepository.AbsentNotFound` | src/main/java/com/architecture/dao/DaoArchitecture.java:66-68 | when no element carries the id, the lookup is empty |
| `ListRepository.DistinctEnumerates` | src/main/java/com/architecture/dao/DaoArchitecture.java:73 | a list with distinct ids, copied as it is, is a valid `findAll` result for its abstract store |
| `ListRepository.WithoutIdRefines` | src/main/java/com/architecture/dao/DaoArchitecture.java:78 | filtering the list out by id is the contract's `delete` on the abstract store |
| `ListRepository.SavedListRefines` | src/main/java/com/architecture/dao/DaoArchitecture.java:60-61 | remove-then-append is the contract's upsert on the abstract store, and it keeps ids distinct |
| `ListRepository.RunListRefines` | src/main/java/com/architecture/dao/DaoArchitecture.java:59-79 | replaying any calls on the list and then abstracting gives the same store as replaying them on the abstract store; distinct ids stay distinct |
| `ListRepository.SaveMovesToEnd` | src/main/java/com/architecture/dao/DaoArchitecture.java:60-61 | saving `a`, then `b`, then `c` with `c.id == a.id != b.id` leaves the list `[b, c]`: the replaced record moves to the end |
| `ListRepository.InMemoryListUserRepository.constructor` | src/main/java/com/architecture/dao/DaoArchitecture.java:56 | a new list backend is empty and holds the empty store |
| `ListRepository.InMemoryListUserRepository.RemoveId` | src/main/java/com/architecture/dao/DaoArchitecture.java:60 | the `removeIf` scan leaves `storage` as the old list filtered by id |
| `ListRepository.InMemoryListUserRepository.Save` | src/main/java/com/architecture/dao/DaoArchitecture.java:59-62 | `storage` becomes the old list without `user.id` followed by `user`; the abstract store is upserted; ids stay distinct |
| `ListRepository.InMemoryListUserRepository.FindById` | src/main/java/com/architecture/dao/DaoArchitecture.java:65-69 | returns the first element with the id, or `None` exactly when no element has it; this equals the contract's lookup |
| `ListRepository.InMemoryListUserRepository.FindAll` | src/main/java/com/architecture/dao/DaoArchitecture.java:72-74 | returns the list in its current order; it lists every stored record exactly once, so its length is the number of stored ids |
| `ListRepository.InMemoryListUserRepository.Delete` | src/main/java/com/architecture/dao/DaoArchitecture.java:77-79 | `storage` becomes the old list without the id, in the same order; the abstract store loses the id; ids stay distinct |
| `MapRepository.InMemoryMapUserRepository.constructor` | src/main/java/com/architecture/dao/DaoArchitecture.java:28 | a new map backend holds the empty store |
| `MapRepository.InMemoryMapUserRepository.Save` | src/main/java/com/architecture/dao/DaoArchitecture.java:31-33 | the store is upserted with `user` under `user.id`; the invariant is kept |
| `MapRepository.InMemoryMapUserRepository.FindById` | src/main/java/com/architecture/dao/DaoArchitecture.java:36-38 | returns the contract's lookup: `None` for a missing key, otherwise the record, which carries the id |
| `MapRepository.InMemoryMapUserRepository.FindAll` | src/main/java/com/architecture/dao/DaoArchitecture.java:41-43 | returns every stored record exactly once, in an unspecified order, with length equal to the number of stored ids |
| `MapRepository.InMemoryMapUserRepository.Delete` | src/main/java/com/architecture/dao/DaoArchitecture.java:46-48 | the id is removed from the store, and an absent id is a no-op; the invariant is kept |
| `Equivalence.Replay` | src/main/java/com/architecture/dao/DaoArchitecture.java:31-79 | the same calls on a fresh map backend and a fresh list backend give the same `findById` answer, namely the lookup in the replayed store; both `findAll` results enumerate that store and have equal length; the list backend's result is the replayed list |
| `Equivalence.Demo` | src/main/java/com/architecture/dao/DaoArchitecture.java:93-105 | after saving `User(1, "jack")` on one backend of each kind, both find it under id 1, and neither backend finds id 2 |
| `Equivalence.ListUpsertScenario` | src/main/java/com/architecture/dao/DaoArchitecture.java:59-74 | saving ids 1, 2, 1 on the list backend makes `findAll` list ids `[2, 1]` |
| `Equivalence.MapUpsertScenario` | src/main/java/com/architecture/dao/DaoArchitecture.java:31-43 | saving ids 1, 2, 1 on the map backend makes `findAll` hold exactly two records, the last one saved for each id, in an order that is not fixed |

## Left out

- The `UserRepository` interface is not a type of its own, because the model uses no traits. It is the `Repository` module instead: both classes state the same contract against their own `Model()`, and `Equivalence` uses the two classes directly.
- The Spring Boot start-up in `main` is left out. It is framework wiring.
- The console printing in `demo()` is left out. `Equivalence.Demo` returns the values that would be printed.
- `AtomicInteger` is modelled as a plain integer counter. The demo is sequential.
- `HashMap` iteration order is not modelled. `MapRepository.InMemoryMapUserRepository.FindAll` picks keys in an unspecified order, and its contract fixes none.
- Java's `Optional`, streams and `removeIf` lambdas are modelled by `Option` and explicit loops.
- Java's 32-bit `int` ids are modelled as unbounded integers. The core does no arithmetic on ids; the only arithmetic is the demo's counter, which goes up to 1.
- A `null` user passed to `save` is not modelled, because a `User` value in the model is never null. In the source, the map backend throws a `NullPointerException` at once, from `user.id()` (line 32). The list backend throws only when the list is not empty, because the remove-if condition runs only on existing elements (line 60). On an empty list, `save(null)` appends `null` (line 61). After that, `findAll` returns `[null]` (line 73), and the next `findById`, `save` or `delete` throws from `u.id()` (lines 67, 60, 78). A `User` whose `name` is null cannot be expressed either. This is harmless, because no operation reads the name.
- Aliasing and snapshots are not modelled. `findAll` returns a Dafny `seq`, which is already an independent copy.
- The map's values are written as `Repository.Records(m)`, the set comprehension over its keys, not as `m.Values`. The two denote the same set.
- Equivalence.Replay: agreement is stated after the whole call sequence, not after each call. The loop invariant keeps both abstract stores equal after every call, so running `Replay` on any prefix gives the agreement at that point.
