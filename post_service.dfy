/** PostServiceImpl: post lookups, updates and deletes with store-level "no such id" failures
    translated to ResourceNotFound, and a write-time check that the post's author exists in the
    user repository. The user repository is only ever asked `existsById`; no method here may
    modify it. */
module PostService {
  import opened Common
  import opened Entities
  import opened PostRepository
  import UserRepository

  class PostServiceImpl {
    const postRepository: InMemoryPostRepository
    const userRepository: UserRepository.InMemoryUserRepository

    ghost predicate Valid()
      reads postRepository, userRepository
    {
      postRepository.Valid() && userRepository.Valid()
    }

    constructor (postRepository: InMemoryPostRepository, userRepository: UserRepository.InMemoryUserRepository)
      ensures this.postRepository == postRepository && this.userRepository == userRepository
    {
      this.postRepository := postRepository;
      this.userRepository := userRepository;
    }

    /** `getPostById`: the stored post, or ResourceNotFound when the id is absent. */
    method GetPostById(id: int) returns (r: Result<Post>)
      requires Valid()
      ensures r.Ok? <==> id in postRepository.postStore
      ensures r.Ok? ==> r.value == postRepository.postStore[id] && r.value.id == Some(id)
      ensures r.Err? ==> r.error == ResourceNotFound
    {
      var found := postRepository.FindById(id);
      r := ToResourceNotFound(if found.Some? then Ok(found.value) else Err(DataAccess));
    }

    /** `getAllPosts`: exactly what the repository's `findAll` gives. */
    method GetAllPosts() returns (r: seq<Post>)
      requires Valid()
      ensures IsSnapshot(r, postRepository.postStore)
    {
      r := postRepository.FindAll();
    }

    /** `createPost`: OperationFailed, with the post repository untouched, when the post's
        `userId` is not a stored user; otherwise exactly the repository's `save(post)`. */
    method CreatePost(post: Post) returns (r: Result<Post>)
      requires Valid()
      modifies postRepository
      ensures Valid()
      ensures unchanged(userRepository)
      ensures post.userId !in userRepository.userStore ==>
                r == Err(OperationFailed) && postRepository.State() == old(postRepository.State())
      ensures post.userId in userRepository.userStore ==>
                r.Ok? && (postRepository.State(), r.value) == SaveResult(old(postRepository.State()), post)
    {
      if !userRepository.ExistsById(post.userId) {
        return Err(OperationFailed);
      }
      var saved := postRepository.Save(post);
      r := Ok(saved);
    }

    /** `updatePost`: ResourceNotFound when the post is absent, checked first; OperationFailed
        when the NEW `userId` of `postUpdates` is not a stored user; in both cases nothing changes.
        Otherwise the post keeps its id (whatever id `postUpdates` carries), takes title, content
        and userId from `postUpdates`, and is written back; other posts are untouched. */
    method UpdatePost(id: int, postUpdates: Post) returns (r: Result<Post>)
      requires Valid()
      modifies postRepository
      ensures Valid()
      ensures unchanged(userRepository)
      ensures id !in old(postRepository.postStore) ==>
                r == Err(ResourceNotFound) && postRepository.State() == old(postRepository.State())
      ensures id in old(postRepository.postStore) && postUpdates.userId !in userRepository.userStore ==>
                r == Err(OperationFailed) && postRepository.State() == old(postRepository.State())
      ensures id in old(postRepository.postStore) && postUpdates.userId in userRepository.userStore ==>
                && r == Ok(Post(Some(id), postUpdates.title, postUpdates.content, postUpdates.userId))
                && postRepository.postStore == old(postRepository.postStore)[id := r.value]
                && postRepository.postIdCounter == old(postRepository.postIdCounter)
    {
      var found := postRepository.FindById(id);
      if found.None? {
        return ToResourceNotFound(Err(DataAccess));
      }
      if !userRepository.ExistsById(postUpdates.userId) {
        return ToResourceNotFound(Err(OperationFailed));
      }
      var existingPost := found.value;
      existingPost := existingPost.(title := postUpdates.title, content := postUpdates.content,
                                    userId := postUpdates.userId);
      var saved := postRepository.Save(existingPost);
      r := Ok(saved);
    }

    /** `deletePost`: ResourceNotFound, changing nothing, when the id is absent; otherwise
        exactly that post is removed. */
    method DeletePost(id: int) returns (r: Outcome)
      requires Valid()
      modifies postRepository
      ensures Valid()
      ensures unchanged(userRepository)
      ensures id !in old(postRepository.postStore) ==>
                r == Fail(ResourceNotFound) && postRepository.State() == old(postRepository.State())
      ensures id in old(postRepository.postStore) ==>
                && r == Pass
                && postRepository.postStore == old(postRepository.postStore) - {id}
                && postRepository.postIdCounter == old(postRepository.postIdCounter)
    {
      var deleted := postRepository.DeleteById(id);
      r := OutcomeToResourceNotFound(deleted);
    }
  }
}
