/** InMemoryUserRepository: a map from id to User and a counter for fresh ids.
    The pure functions SaveResult and DeleteResult give the effect of one call on the
    abstract state; the class methods are proved to have exactly that effect. */
module UserRepository {
  import opened Common
  import opened Entities

  /** The two fields of the repository: `userStore` and `userIdCounter`. */
  datatype UserStoreState = UserStoreState(userStore: map<int, User>, userIdCounter: nat)

  /** Every stored user carries the id it is stored under. */
  ghost predicate IdsMatchKeys(m: map<int, User>) {
    forall k :: k in m ==> m[k].id == Some(k)
  }

  /** No stored key lies above the counter, so the next fresh id is unused. The repository
      does not maintain this by itself: a save with a client-chosen id above the counter breaks it. */
  ghost predicate KeysWithinCounter(s: UserStoreState) {
    forall k :: k in s.userStore ==> k <= s.userIdCounter
  }

  /** Effect of `save(user)`: a user without an id gets `userIdCounter + 1` and the counter moves
      on; a user with an id is stored under that id (insert or overwrite) and the counter stays. */
  function SaveResult(s: UserStoreState, user: User): (r: (UserStoreState, User))
    ensures r.1.id.Some?
    ensures user.id.None? ==> r.1 == user.(id := Some(s.userIdCounter + 1))
    ensures user.id.None? ==> r.0.userIdCounter == s.userIdCounter + 1
    ensures user.id.Some? ==> r.1 == user && r.0.userIdCounter == s.userIdCounter
    ensures r.0.userStore.Keys == s.userStore.Keys + {r.1.id.value}
    ensures r.0.userStore[r.1.id.value] == r.1
    ensures forall k :: k in s.userStore && k != r.1.id.value ==> r.0.userStore[k] == s.userStore[k]
    ensures IdsMatchKeys(s.userStore) ==> IdsMatchKeys(r.0.userStore)
    ensures user.id.None? && KeysWithinCounter(s) ==> r.1.id.value !in s.userStore && KeysWithinCounter(r.0)
    ensures user.id.Some? && user.id.value <= s.userIdCounter && KeysWithinCounter(s) ==> KeysWithinCounter(r.0)
  {
    var id := if user.id.None? then s.userIdCounter + 1 else user.id.value;
    var stored := user.(id := Some(id));
    (UserStoreState(s.userStore[id := stored], if user.id.None? then id else s.userIdCounter), stored)
  }

  /** Effect of `deleteById(id)`: an absent id is a DataAccess failure with nothing changed;
      a present id is removed, and the counter is never wound back. */
  function DeleteResult(s: UserStoreState, id: int): (r: (UserStoreState, Outcome))
    ensures id !in s.userStore ==> r == (s, Fail(DataAccess))
    ensures id in s.userStore ==> r.1 == Pass
    ensures r.0.userStore.Keys == s.userStore.Keys - {id}
    ensures forall k :: k in r.0.userStore ==> r.0.userStore[k] == s.userStore[k]
    ensures r.0.userIdCounter == s.userIdCounter
    ensures IdsMatchKeys(s.userStore) ==> IdsMatchKeys(r.0.userStore)
    ensures KeysWithinCounter(s) ==> KeysWithinCounter(r.0)
  {
    if id !in s.userStore then (s, Fail(DataAccess))
    else (s.(userStore := s.userStore - {id}), Pass)
  }

  /** A client's call on the repository, for reasoning about several calls in a row. */
  datatype Call = SaveCall(user: User) | DeleteCall(id: int)

  /** One call: the new state, and the id assigned if the call saved a user without an id. */
  function Step(s: UserStoreState, c: Call): (UserStoreState, seq<int>)
  {
    match c
    case SaveCall(u) =>
      var r := SaveResult(s, u);
      (r.0, if u.id.None? then [r.1.id.value] else [])
    case DeleteCall(id) => (DeleteResult(s, id).0, [])
  }

  /** Runs `calls` from `s`; returns the final state and, in order, the ids the repository
      assigned to users saved without an id. */
  function Replay(s: UserStoreState, calls: seq<Call>): (UserStoreState, seq<int>)
    decreases |calls|
  {
    if calls == [] then (s, [])
    else
      var first := Step(s, calls[0]);
      var rest := Replay(first.0, calls[1..]);
      (rest.0, first.1 + rest.1)
  }

  ghost predicate StrictlyIncreasing(ids: seq<int>) {
    forall i, j :: 0 <= i < j < |ids| ==> ids[i] < ids[j]
  }

  /** Ids assigned by successive saves are strictly increasing, whatever saves with ids and
      deletes happen in between: no id is handed out twice, not even after the user holding
      it was deleted. They all lie above the starting counter and up to the final one. */
  lemma {:induction false} AssignedIdsIncrease(s: UserStoreState, calls: seq<Call>)
    ensures Replay(s, calls).0.userIdCounter >= s.userIdCounter
    ensures StrictlyIncreasing(Replay(s, calls).1)
    ensures forall i :: 0 <= i < |Replay(s, calls).1| ==>
              s.userIdCounter < Replay(s, calls).1[i] <= Replay(s, calls).0.userIdCounter
    decreases |calls|
  {
    if calls != [] {
      var first := Step(s, calls[0]);
      AssignedIdsIncrease(first.0, calls[1..]);
      assert forall i :: 0 <= i < |first.1| ==> s.userIdCounter < first.1[i] <= first.0.userIdCounter;
    }
  }

  /** Starting from the empty repository, the first id ever assigned is 1. */
  lemma FirstAssignedIdIsOne(u: User)
    requires u.id.None?
    ensures SaveResult(UserStoreState(map[], 0), u).1.id == Some(1)
  {
  }

  /** Saving with a client-chosen id does not move the counter, so a later fresh id can land on
      that key and overwrite the user stored there. */
  lemma ExplicitIdCanBeReassigned()
    ensures var (s1, _) := SaveResult(UserStoreState(map[], 0), User(Some(1), "a", "a@x"));
            var (_, u2) := SaveResult(s1, User(None, "b", "b@x"));
            1 in s1.userStore && u2.id == Some(1)
  {
  }

  class InMemoryUserRepository {
    var userStore: map<int, User>
    var userIdCounter: nat

    ghost predicate Valid()
      reads this
    {
      IdsMatchKeys(userStore)
    }

    function State(): UserStoreState
      reads this
    {
      UserStoreState(userStore, userIdCounter)
    }

    constructor ()
      ensures Valid()
      ensures userStore == map[] && userIdCounter == 0
    {
      userStore := map[];
      userIdCounter := 0;
    }

    /** `findById`: the stored user, which carries the id asked for, or None. */
    function FindById(id: int): (r: Option<User>)
      reads this
      ensures r.Some? <==> id in userStore
      ensures r.Some? ==> r.value == userStore[id]
      ensures Valid() && r.Some? ==> r.value.id == Some(id)
    {
      if id in userStore then Some(userStore[id]) else None
    }

    /** `findAll`: a snapshot of the stored users, in no promised order. */
    method FindAll() returns (r: seq<User>)
      requires Valid()
      ensures IsSnapshot(r, userStore)
    {
      r := [];
      var rest := userStore.Keys;
      while rest != {}
        invariant rest <= userStore.Keys
        invariant |r| + |rest| == |userStore|
        invariant forall i :: 0 <= i < |r| ==>
                    r[i].id.Some? && r[i].id.value in userStore && r[i].id.value !in rest
                    && userStore[r[i].id.value] == r[i]
        invariant forall k :: k in userStore && k !in rest ==> userStore[k] in r
        invariant Distinct(r)
        decreases |rest|
      {
        // witness for the choice below; without it the choice is not proved under the resource limit
        ghost var someKey := PickOne(rest);
        var k :| k in rest;
        r := r + [userStore[k]];
        rest := rest - {k};
      }
      assert userStore.Keys == userStore.Keys - rest;
    }

    /** `save`: assigns an id when the user has none, then stores it under its id. */
    method Save(user: User) returns (r: User)
      requires Valid()
      modifies this
      ensures Valid()
      ensures (State(), r) == SaveResult(old(State()), user)
      ensures r.id.Some? && FindById(r.id.value) == Some(r) && ExistsById(r.id.value)
    {
      r := user;
      if r.id.None? {
        userIdCounter := userIdCounter + 1;
        r := r.(id := Some(userIdCounter));
      }
      userStore := userStore[r.id.value := r];
    }

    /** `deleteById`: fails with DataAccess, changing nothing, when the id is absent. */
    method DeleteById(id: int) returns (r: Outcome)
      requires Valid()
      modifies this
      ensures Valid()
      ensures (State(), r) == DeleteResult(old(State()), id)
    {
      if id !in userStore {
        return Fail(DataAccess);
      }
      userStore := userStore - {id};
      r := Pass;
    }

    /** `existsById`: whether `findById` would find a user. */
    function ExistsById(id: int): (r: bool)
      reads this
      ensures r <==> FindById(id).Some?
    {
      id in userStore
    }
  }
}
