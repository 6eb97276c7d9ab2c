# User/Post service: in-memory stores and service rules

This project models the core of a small CRUD service for users and the posts they write,
and proves properties of that model.

- **Repositories.** `InMemoryUserRepository` and `InMemoryPostRepository` each hold a map from
  id to entity and a counter for fresh ids. `save` is an upsert. An entity without an id gets
  `counter + 1` and the counter moves on; an entity with an id is stored under that id.
  `deleteById` fails with DataAccess when the id is absent. `findById`, `existsById` and
  `findAll` read the store.
- **`PostServiceImpl`.** A post is written only if its (new) `userId` is a stored user, otherwise
  the result is OperationFailed. The repository's DataAccess failure becomes ResourceNotFound.
  An update keeps the id and replaces title, content and userId.
- **`UserServiceImpl`.** It has the same lookup, update and delete rules (an update replaces name
  and email). `createUser` runs under a retry policy: at most 3 attempts, a retry only after a
  transient failure. The recovery handler turns three transient failures into OperationFailed.

Each repository is a Dafny `class` with the source's two fields, `userStore`/`userIdCounter`
and `postStore`/`postIdCounter`. The pure functions `SaveResult` and `DeleteResult` give the
effect of one call on the abstract state (`UserStoreState`, `PostStoreState`). The `Save` and
`DeleteById` methods are proved to have exactly that effect. The facts the source promises are
proved about those functions: fresh-id assignment, overwrite of one key only, lookup after save,
removal of one key only, and a counter that never goes back.

The services are classes holding references to the repositories. Their methods state the whole
new state of the repositories they may modify. `PostServiceImpl` may modify only the post
repository: `CreatePost`, `UpdatePost` and `DeletePost` name only that one in their `modifies`
clauses and each also ensures `unchanged(userRepository)`; `GetPostById` and `GetAllPosts`
modify nothing.

Exceptions become values: `Result<T>` (`Ok`/`Err`) and `Outcome` (`Pass`/`Fail`) over the error
kinds DataAccess, TransientDataAccess, ResourceNotFound and OperationFailed. The REST layer
answers ResourceNotFound with 404 and OperationFailed with 500. That layer is not part of this
model.

The retry policy of `createUser` is an explicit `while` loop with an attempt counter. It runs
over a script (`seq<SaveAttempt>`) that gives the fate of each save attempt: the store either
proceeds with the save or throws an error before changing anything. The method is proved
against the reference function `AttemptsFrom`.

On ids, the model follows what the code does, which is narrower than "ids are unique and never
reused":

- The code guarantees uniqueness only among ids the counter assigns (`AssignedIdsIncrease`).
  A save with a client-chosen id does not move the counter. So a later fresh id can land on
  that key and overwrite the entity stored there (`ExplicitIdCanBeReassigned`). The fresh id is
  guaranteed unused whenever every key is at or below the counter (`KeysWithinCounter`). Saves
  without an id, saves with an id at or below the counter, and deletes all preserve that condition (the `SaveResult` and `DeleteResult` contracts).
- Ids are `int`, because a client may supply any `Long`, including a negative one. The counter
  is a `nat`.

## Model

| member | source | states |
|---|---|---|
| `Common.ToResourceNotFound` | src/main/java/com/example/userpostapi/service/UserServiceImpl.java:26-31 | the catch clause: `Err(DataAccess)` becomes `Err(ResourceNotFound)`, any other error and any value pass unchanged, and no DataAccess error ever leaves |
| `Common.OutcomeToResourceNotFound` | src/main/java/com/example/userpostapi/service/PostServiceImpl.java:69-73 | the same translation for `void` operations (`deleteUser`, `deletePost`): `Fail(DataAccess)` becomes `Fail(ResourceNotFound)`, other failures and `Pass` are kept |
| `Common.SnapshotIsValueMultiset` | src/main/java/com/example/userpostapi/repository/InMemoryUserRepository.java:26-28 | a `findAll` snapshot has exactly the multiset of the map's values, so nothing is lost or duplicated |
| `UserRepository.SaveResult` | src/main/java/com/example/userpostapi/repository/InMemoryUserRepository.java:31-37 | no id: the user gets old counter + 1 and the counter increments; with an id: the counter is unchanged and the user is stored as given. The result is stored under its id, only that key is added or overwritten, and every other entry stays. Ids keep matching keys, and a fresh id is guaranteed unused whenever all keys are at or below the counter |
| `UserRepository.DeleteResult` | src/main/java/com/example/userpostapi/repository/InMemoryUserRepository.java:40-45 | absent id: Fail(DataAccess) and the same state; present id: Pass, exactly that key removed, other entries and the counter unchanged |
| `UserRepository.AssignedIdsIncrease` | src/main/java/com/example/userpostapi/repository/InMemoryUserRepository.java:32-34 | over any sequence of saves and deletes, the ids assigned to users saved without an id are strictly increasing, so pairwise distinct and never reused after a delete; all lie above the starting counter and at or below the final one, which never decreases |
| `UserRepository.FirstAssignedIdIsOne` | src/main/java/com/example/userpostapi/repository/InMemoryUserRepository.java:18 | the first id assigned by an empty repository is 1 |
| `UserRepository.ExplicitIdCanBeReassigned` | src/main/java/com/example/userpostapi/repository/InMemoryUserRepository.java:32-35 | a save with id 1 on an empty repository, then a save with no id: the second user is assigned id 1, a key already in use |
| `UserRepository.InMemoryUserRepository.constructor` | src/main/java/com/example/userpostapi/repository/InMemoryUserRepository.java:17-18 | a new repository has an empty store and counter 0 |
| `UserRepository.InMemoryUserRepository.FindById` | src/main/java/com/example/userpostapi/repository/InMemoryUserRepository.java:21-23 | Some exactly when the id is stored; the value is the stored user, and that user carries the id asked for |
| `UserRepository.InMemoryUserRepository.FindAll` | src/main/java/com/example/userpostapi/repository/InMemoryUserRepository.java:26-28 | the result is a snapshot of the stored users: same size, no repetition, every stored user present, nothing else |
| `UserRepository.InMemoryUserRepository.Save` | src/main/java/com/example/userpostapi/repository/InMemoryUserRepository.java:31-37 | the new state and the returned user are the ones `SaveResult` gives; afterwards `findById` of the returned id yields it and `existsById` holds |
| `UserRepository.InMemoryUserRepository.DeleteById` | src/main/java/com/example/userpostapi/repository/InMemoryUserRepository.java:40-45 | the new state and the outcome are the ones `DeleteResult` gives |
| `UserRepository.InMemoryUserRepository.ExistsById` | src/main/java/com/example/userpostapi/repository/InMemoryUserRepository.java:48-50 | true exactly when `findById` finds a user |
| `PostRepository.SaveResult` | src/main/java/com/example/userpostapi/repository/InMemoryPostRepository.java:32-38 | the same facts as `UserRepository.SaveResult`, for posts and `postIdCounter` |
| `PostRepository.DeleteResult` | src/main/java/com/example/userpostapi/repository/InMemoryPostRepository.java:41-46 | absent id: Fail(DataAccess) and the same state; present id: only that key removed, the counter unchanged |
| `PostRepository.FirstAssignedIdIsOne` | src/main/java/com/example/userpostapi/repository/InMemoryPostRepository.java:19 | the first id assigned by an empty post repository is 1 |
| `PostRepository.InMemoryPostRepository.constructor` | src/main/java/com/example/userpostapi/repository/InMemoryPostRepository.java:18-19 | a new repository has an empty store and counter 0 |
| `PostRepository.InMemoryPostRepository.FindById` | src/main/java/com/example/userpostapi/repository/InMemoryPostRepository.java:22-24 | Some exactly when the id is stored; the value is the stored post, carrying that id |
| `PostRepository.InMemoryPostRepository.FindAll` | src/main/java/com/example/userpostapi/repository/InMemoryPostRepository.java:27-29 | the result is a snapshot of the stored posts |
| `PostRepository.InMemoryPostRepository.Save` | src/main/java/com/example/userpostapi/repository/InMemoryPostRepository.java:32-38 | the effect that `PostRepository.SaveResult` gives; afterwards `findById` of the returned id yields the returned post |
| `PostRepository.InMemoryPostRepository.DeleteById` | src/main/java/com/example/userpostapi/repository/InMemoryPostRepository.java:41-46 | the effect that `PostRepository.DeleteResult` gives |
| `UserService.AttemptsFrom` | src/main/java/com/example/userpostapi/service/UserServiceImpl.java:40 | the retry policy: between 1 and 3 attempts; every attempt before the last was a transient failure; fewer than 3 attempts only when the last was not a transient failure |
| `UserService.RecoverFromCreateUser` | src/main/java/com/example/userpostapi/service/UserServiceImpl.java:46-50 | called with a transient failure, it never yields a user: the result is always OperationFailed |
| `UserService.UserServiceImpl.constructor` | src/main/java/com/example/userpostapi/service/UserServiceImpl.java:20-22 | the service holds the user repository it is given |
| `UserService.UserServiceImpl.GetUserById` | src/main/java/com/example/userpostapi/service/UserServiceImpl.java:25-32 | Ok exactly when the id is stored, with the stored user carrying that id; otherwise ResourceNotFound |
| `UserService.UserServiceImpl.GetAllUsers` | src/main/java/com/example/userpostapi/service/UserServiceImpl.java:35-37 | the result is a snapshot of the user repository |
| `UserService.UserServiceImpl.CreateUser` | src/main/java/com/example/userpostapi/service/UserServiceImpl.java:39-50 | the number of attempts is what `AttemptsFrom` prescribes, and only transient failures are retried. The first attempt that proceeds performs exactly the repository's save. A non-transient failure is returned as it is. Three transient failures give OperationFailed. Every failure leaves the repository unchanged |
| `UserService.UserServiceImpl.UpdateUser` | src/main/java/com/example/userpostapi/service/UserServiceImpl.java:53-63 | absent id: ResourceNotFound and nothing changes; present id: the result is the user with the same id and the payload's name and email, stored under that id, with other users and the counter unchanged |
| `UserService.UserServiceImpl.DeleteUser` | src/main/java/com/example/userpostapi/service/UserServiceImpl.java:66-72 | absent id: ResourceNotFound and nothing changes; present id: exactly that user is removed |
| `PostService.PostServiceImpl.constructor` | src/main/java/com/example/userpostapi/service/PostServiceImpl.java:19-22 | the service holds the post and user repositories it is given |
| `PostService.PostServiceImpl.GetPostById` | src/main/java/com/example/userpostapi/service/PostServiceImpl.java:25-32 | Ok exactly when the id is stored, with the stored post carrying that id; otherwise ResourceNotFound |
| `PostService.PostServiceImpl.GetAllPosts` | src/main/java/com/example/userpostapi/service/PostServiceImpl.java:35-37 | the result is a snapshot of the post repository |
| `PostService.PostServiceImpl.CreatePost` | src/main/java/com/example/userpostapi/service/PostServiceImpl.java:40-45 | unknown `userId`: OperationFailed and the post repository (map and counter) unchanged; known `userId`: exactly the repository's save. The user repository is unchanged either way |
| `PostService.PostServiceImpl.UpdatePost` | src/main/java/com/example/userpostapi/service/PostServiceImpl.java:48-65 | absent post: ResourceNotFound before any user check; unknown NEW `userId`: OperationFailed. Neither changes anything. Otherwise the same id with the payload's title, content and userId, stored under that id, with other posts and the counter unchanged. The user repository is never changed |
| `PostService.PostServiceImpl.DeletePost` | src/main/java/com/example/userpostapi/service/PostServiceImpl.java:68-74 | absent id: ResourceNotFound and nothing changes; present id: exactly that post is removed; the user repository is unchanged |
| `Scenarios.ReferentialIntegrityScenario` | src/main/java/com/example/userpostapi/service/PostServiceImpl.java:40-45 | on fresh repositories: user Alice gets id 1; a post by user 1 gets id 1; a post by user 99 gives OperationFailed; the post repository then holds exactly one post |
| `Scenarios.RetryScenario` | src/main/java/com/example/userpostapi/service/UserServiceImpl.java:39-50 | two transient failures then success: saved with id 1 after 3 attempts; only transient failures: OperationFailed after 3 attempts; an immediate non-transient failure: that error after 1 attempt |

## Left out

- Concurrency: the `ConcurrentHashMap` stores and `AtomicLong` counters are modelled as
  sequential fields. So the race between the user check and the save of a post (a user
  deleted in between) does not arise in the model.
- `Long` overflow of the id counters: the counters are unbounded `nat`s.
- Java object aliasing. `save` sets the id on the caller's object, and `updatePost`/`updateUser`
  change the stored object in place through setters before saving it back. Entities here are
  values, written back explicitly by `Save`. The observable store contents are the same, because
  the setters run only after every check has passed.
- `null` ids passed to `findById`, `existsById` or `deleteById`, and a `null` `userId`: ids are
  always integers here, so the `NullPointerException` paths are not modelled.
- The exception class hierarchy is not part of this model. The four error kinds are taken to be
  unrelated. In particular, the OperationFailed thrown inside `updatePost`'s `try` is not caught
  by its `catch (DataAccessException e)`.
- Spring Retry mechanics: the interception, the 100 ms backoff between attempts, and what Spring
  does with a non-retryable exception when the only `@Recover` method takes a
  `TransientDataAccessException`. The model returns a non-transient failure unchanged after one
  attempt.
- The repository behind `createUser` failing: `InMemoryUserRepository.save` never throws. The
  failures of each attempt come from the `script` parameter of
  `UserService.UserServiceImpl.CreateUser`, which stands for a store double.
- Logging calls; the `@Valid` field validation of request bodies; the model classes `User` and
  `Post`, which are not part of this model beyond their fields.
- Controllers, `RestExceptionHandler` (ResourceNotFound to 404, OperationFailed to 500), the
  application bootstrap, and the repository and service interfaces (signatures only).
- A replay lemma over several calls exists for the user repository only
  (`UserRepository.AssignedIdsIncrease`). The post repository has the same per-call counter
  facts in `PostRepository.SaveResult` and `PostRepository.DeleteResult`.
