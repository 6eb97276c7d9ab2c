/** InMemoryPostRepository: a map from id to Post and a counter for fresh ids.
    The pure functions SaveResult and DeleteResult give the effect of one call on the
    abstract state; the class methods are proved to have exactly that effect. */
module PostRepository {
  import opened Common
  import opened Entities

  /** The two fields of the repository: `postStore` and `postIdCounter`. */
  datatype PostStoreState = PostStoreState(postStore: map<int, Post>, postIdCounter: nat)

  /** Every stored post carries the id it is stored under. */
  ghost predicate IdsMatchKeys(m: map<int, Post>) {
    forall k :: k in m ==> m[k].id == Some(k)
  }

  /** No stored key lies above the counter, so the next fresh id is unused. The repository
      does not maintain this by itself: a save with a client-chosen id above the counter breaks it. */
  ghost predicate KeysWithinCounter(s: PostStoreState) {
    forall k :: k in s.postStore ==> k <= s.postIdCounter
  }

  /** Effect of `save(post)`: a post without an id gets `postIdCounter + 1` and the counter moves
      on; a post with an id is stored under that id (insert or overwrite) and the counter stays. */
  function SaveResult(s: PostStoreState, post: Post): (r: (PostStoreState, Post))
    ensures r.1.id.Some?
    ensures post.id.None? ==> r.1 == post.(id := Some(s.postIdCounter + 1))
    ensures post.id.None? ==> r.0.postIdCounter == s.postIdCounter + 1
    ensures post.id.Some? ==> r.1 == post && r.0.postIdCounter == s.postIdCounter
    ensures r.0.postStore.Keys == s.postStore.Keys + {r.1.id.value}
    ensures r.0.postStore[r.1.id.value] == r.1
    ensures forall k :: k in s.postStore && k != r.1.id.value ==> r.0.postStore[k] == s.postStore[k]
    ensures IdsMatchKeys(s.postStore) ==> IdsMatchKeys(r.0.postStore)
    ensures post.id.None? && KeysWithinCounter(s) ==> r.1.id.value !in s.postStore && KeysWithinCounter(r.0)
    ensures post.id.Some? && post.id.value <= s.postIdCounter && KeysWithinCounter(s) ==> KeysWithinCounter(r.0)
  {
    var id := if post.id.None? then s.postIdCounter + 1 else post.id.value;
    var stored := post.(id := Some(id));
    (PostStoreState(s.postStore[id := stored], if post.id.None? then id else s.postIdCounter), stored)
  }

  /** Effect of `deleteById(id)`: an absent id is a DataAccess failure with nothing changed;
      a present id is removed, and the counter is never wound back. */
  function DeleteResult(s: PostStoreState, id: int): (r: (PostStoreState, Outcome))
    ensures id !in s.postStore ==> r == (s, Fail(DataAccess))
    ensures id in s.postStore ==> r.1 == Pass
    ensures r.0.postStore.Keys == s.postStore.Keys - {id}
    ensures forall k :: k in r.0.postStore ==> r.0.postStore[k] == s.postStore[k]
    ensures r.0.postIdCounter == s.postIdCounter
    ensures IdsMatchKeys(s.postStore) ==> IdsMatchKeys(r.0.postStore)
    ensures KeysWithinCounter(s) ==> KeysWithinCounter(r.0)
  {
    if id !in s.postStore then (s, Fail(DataAccess))
    else (s.(postStore := s.postStore - {id}), Pass)
  }

  /** Starting from the empty repository, the first id ever assigned is 1. */
  lemma FirstAssignedIdIsOne(p: Post)
    requires p.id.None?
    ensures SaveResult(PostStoreState(map[], 0), p).1.id == Some(1)
  {
  }

  class InMemoryPostRepository {
    var postStore: map<int, Post>
    var postIdCounter: nat

    ghost predicate Valid()
      reads this
    {
      IdsMatchKeys(postStore)
    }

    function State(): PostStoreState
      reads this
    {
      PostStoreState(postStore, postIdCounter)
    }

    constructor ()
      ensures Valid()
      ensures postStore == map[] && postIdCounter == 0
    {
      postStore := map[];
      postIdCounter := 0;
    }

    /** `findById`: the stored post, which carries the id asked for, or None. */
    function FindById(id: int): (r: Option<Post>)
      reads this
      ensures r.Some? <==> id in postStore
      ensures r.Some? ==> r.value == postStore[id]
      ensures Valid() && r.Some? ==> r.value.id == Some(id)
    {
      if id in postStore then Some(postStore[id]) else None
    }

    /** `findAll`: a snapshot of the stored posts, in no promised order. */
    method FindAll() returns (r: seq<Post>)
      requires Valid()
      ensures IsSnapshot(r, postStore)
    {
      r := [];
      var rest := postStore.Keys;
      while rest != {}
        invariant rest <= postStore.Keys
        invariant |r| + |rest| == |postStore|
        invariant forall i :: 0 <= i < |r| ==>
                    r[i].id.Some? && r[i].id.value in postStore && r[i].id.value !in rest
                    && postStore[r[i].id.value] == r[i]
        invariant forall k :: k in postStore && k !in rest ==> postStore[k] in r
        invariant Distinct(r)
        decreases |rest|
      {
        // witness for the choice below; without it the choice is not proved under the resource limit
        ghost var someKey := PickOne(rest);
        var k :| k in rest;
        r := r + [postStore[k]];
        rest := rest - {k};
      }
      assert postStore.Keys == postStore.Keys - rest;
    }

    /** `save`: assigns an id when the post has none, then stores it under its id. */
    method Save(post: Post) returns (r: Post)
      requires Valid()
      modifies this
      ensures Valid()
      ensures (State(), r) == SaveResult(old(State()), post)
      ensures r.id.Some? && FindById(r.id.value) == Some(r)
    {
      r := post;
      if r.id.None? {
        postIdCounter := postIdCounter + 1;
        r := r.(id := Some(postIdCounter));
      }
      postStore := postStore[r.id.value := r];
    }

    /** `deleteById`: fails with DataAccess, changing nothing, when the id is absent. */
    method DeleteById(id: int) returns (r: Outcome)
      requires Valid()
      modifies this
      ensures Valid()
      ensures (State(), r) == DeleteResult(old(State()), id)
    {
      if id !in postStore {
        return Fail(DataAccess);
      }
      postStore := postStore - {id};
      r := Pass;
    }
  }
}
