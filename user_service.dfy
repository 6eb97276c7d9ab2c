/** UserServiceImpl: lookups, updates and deletes over the user repository, with the store's
    "no such id" failure translated to ResourceNotFound, and user creation under a bounded
    retry policy for transient store failures. */
module UserService {
  import opened Common
  import opened Entities
  import opened UserRepository

  /** `maxAttempts = 3` of the retry policy on `createUser`. */
  const MaxAttempts: nat := 3

  /** What the store does on one save attempt of `createUser`: either it performs the save,
      or it throws an error before changing anything. */
  datatype SaveAttempt = Proceeds | Throws(error: Error)

  /** The fate of attempt `i` (counting from 0); attempts past the end of `script` proceed. */
  function AttemptAt(script: seq<SaveAttempt>, i: nat): SaveAttempt {
    if i < |script| then script[i] else Proceeds
  }

  /** The one kind of failure the policy retries. */
  predicate IsTransient(a: SaveAttempt) {
    a == Throws(TransientDataAccess)
  }

  /** Reference definition of the retry policy: the number of attempts made when attempts
      `i`, `i + 1`, ... are still available. It stops at the first attempt that is not a
      transient failure, and after the last allowed attempt whatever it gave. */
  function AttemptsFrom(script: seq<SaveAttempt>, i: nat): (n: nat)
    requires i < MaxAttempts
    ensures i < n <= MaxAttempts
    ensures forall j :: i <= j < n - 1 ==> IsTransient(AttemptAt(script, j))
    ensures n < MaxAttempts ==> !IsTransient(AttemptAt(script, n - 1))
    decreases MaxAttempts - i
  {
    if i == MaxAttempts - 1 || !IsTransient(AttemptAt(script, i)) then i + 1
    else AttemptsFrom(script, i + 1)
  }

  /** `recoverFromCreateUser`: reached only with a transient failure once the attempts are
      exhausted; it never yields a user, always OperationFailed. */
  function RecoverFromCreateUser(e: Error, user: User): (r: Result<User>)
    requires e == TransientDataAccess
    ensures r.Err? && r.error == OperationFailed
  {
    Err(OperationFailed)
  }

  class UserServiceImpl {
    const userRepository: InMemoryUserRepository

    ghost predicate Valid()
      reads userRepository
    {
      userRepository.Valid()
    }

    constructor (userRepository: InMemoryUserRepository)
      ensures this.userRepository == userRepository
    {
      this.userRepository := userRepository;
    }

    /** `getUserById`: the stored user, or ResourceNotFound when the id is absent. */
    method GetUserById(id: int) returns (r: Result<User>)
      requires Valid()
      ensures r.Ok? <==> id in userRepository.userStore
      ensures r.Ok? ==> r.value == userRepository.userStore[id] && r.value.id == Some(id)
      ensures r.Err? ==> r.error == ResourceNotFound
    {
      var found := userRepository.FindById(id);
      r := ToResourceNotFound(if found.Some? then Ok(found.value) else Err(DataAccess));
    }

    /** `getAllUsers`: exactly what the repository's `findAll` gives. */
    method GetAllUsers() returns (r: seq<User>)
      requires Valid()
      ensures IsSnapshot(r, userRepository.userStore)
    {
      r := userRepository.FindAll();
    }

    /** `createUser` under `@Retryable(TransientDataAccessException, maxAttempts = 3)` with
        `recoverFromCreateUser` as the recovery handler. `script` gives the fate of each save
        attempt. The number of attempts is the one AttemptsFrom prescribes; only a transient
        failure leads to another attempt; the first attempt that proceeds saves the user; a
        non-transient failure is returned as it is; three transient failures end in
        OperationFailed. A failed call leaves the repository as it was. */
    method CreateUser(user: User, script: seq<SaveAttempt>) returns (r: Result<User>, attempts: nat)
      requires Valid()
      modifies userRepository
      ensures Valid()
      ensures attempts == AttemptsFrom(script, 0)
      ensures forall j :: 0 <= j < attempts - 1 ==> IsTransient(AttemptAt(script, j))
      ensures AttemptAt(script, attempts - 1) == Proceeds ==>
                r.Ok? && (userRepository.State(), r.value) == SaveResult(old(userRepository.State()), user)
      ensures IsTransient(AttemptAt(script, attempts - 1)) ==>
                attempts == MaxAttempts && r == Err(OperationFailed)
      ensures AttemptAt(script, attempts - 1).Throws? && !IsTransient(AttemptAt(script, attempts - 1)) ==>
                r == Err(AttemptAt(script, attempts - 1).error)
      ensures r.Err? ==> userRepository.State() == old(userRepository.State())
    {
      attempts := 0;
      while true
        invariant attempts < MaxAttempts
        invariant forall j :: 0 <= j < attempts ==> IsTransient(AttemptAt(script, j))
        invariant Valid() && userRepository.State() == old(userRepository.State())
        decreases MaxAttempts - attempts
      {
        // the 100 ms backoff before a retry is not modelled
        var outcome := AttemptAt(script, attempts);
        attempts := attempts + 1;
        match outcome
        case Proceeds =>
          assert AttemptsFrom(script, 0) == attempts;
          var saved := userRepository.Save(user);
          return Ok(saved), attempts;
        case Throws(e) =>
          if e != TransientDataAccess {
            assert AttemptsFrom(script, 0) == attempts;
            return Err(e), attempts;
          }
          if attempts == MaxAttempts {
            return RecoverFromCreateUser(e, user), attempts;
          }
      }
    }

    /** `updateUser`: ResourceNotFound, changing nothing, when the id is absent; otherwise the
        stored user keeps its id, takes name and email from `userUpdates`, and is written back. */
    method UpdateUser(id: int, userUpdates: User) returns (r: Result<User>)
      requires Valid()
      modifies userRepository
      ensures Valid()
      ensures id !in old(userRepository.userStore) ==>
                r == Err(ResourceNotFound) && userRepository.State() == old(userRepository.State())
      ensures id in old(userRepository.userStore) ==>
                && r == Ok(User(Some(id), userUpdates.name, userUpdates.email))
                && userRepository.userStore == old(userRepository.userStore)[id := r.value]
                && userRepository.userIdCounter == old(userRepository.userIdCounter)
    {
      var found := userRepository.FindById(id);
      if found.None? {
        return ToResourceNotFound(Err(DataAccess));
      }
      var existingUser := found.value;
      existingUser := existingUser.(name := userUpdates.name, email := userUpdates.email);
      var saved := userRepository.Save(existingUser);
      r := Ok(saved);
    }

    /** `deleteUser`: ResourceNotFound, changing nothing, when the id is absent; otherwise exactly
        that user is removed. Posts that refer to it are not touched. */
    method DeleteUser(id: int) returns (r: Outcome)
      requires Valid()
      modifies userRepository
      ensures Valid()
      ensures id !in old(userRepository.userStore) ==>
                r == Fail(ResourceNotFound) && userRepository.State() == old(userRepository.State())
      ensures id in old(userRepository.userStore) ==>
                && r == Pass
                && userRepository.userStore == old(userRepository.userStore) - {id}
                && userRepository.userIdCounter == old(userRepository.userIdCounter)
    {
      var deleted := userRepository.DeleteById(id);
      r := OutcomeToResourceNotFound(deleted);
    }
  }
}
