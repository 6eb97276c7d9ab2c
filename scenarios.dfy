/** End-to-end runs of the services over fresh repositories, with the outcome of each call
    proved from the contracts of the services alone. */
module Scenarios {
  import opened Common
  import opened Entities
  import opened UserRepository
  import opened PostRepository
  import opened UserService
  import opened PostService

  /** A user is created and gets id 1; a post by that user gets id 1; a post by the unknown
      user 99 is refused with OperationFailed and the post repository still holds one post. */
  method ReferentialIntegrityScenario() returns (alice: Result<User>, first: Result<Post>,
                                                   second: Result<Post>, postCount: nat)
    ensures alice == Ok(User(Some(1), "Alice", "a@x.com"))
    ensures first == Ok(Post(Some(1), "T", "C", 1))
    ensures second == Err(OperationFailed)
    ensures postCount == 1
  {
    var users := new InMemoryUserRepository();
    var posts := new InMemoryPostRepository();
    var userService := new UserServiceImpl(users);
    var postService := new PostServiceImpl(posts, users);
    var attempts;
    alice, attempts := userService.CreateUser(User(None, "Alice", "a@x.com"), []);
    first := postService.CreatePost(Post(None, "T", "C", 1));
    second := postService.CreatePost(Post(None, "T2", "C2", 99));
    var all := postService.GetAllPosts();
    postCount := |all|;
  }

  /** Three stores behind `createUser`: one that fails transiently twice and then works
      (three attempts, the user is saved), one that always fails transiently (three attempts,
      OperationFailed, no user), one that fails at once with a non-transient error (one attempt,
      the error as it is). */
  method RetryScenario() returns (recovered: Result<User>, n1: nat,
                                  exhausted: Result<User>, n2: nat,
                                  permanent: Result<User>, n3: nat)
    ensures recovered.Ok? && recovered.value.id == Some(1) && n1 == 3
    ensures exhausted == Err(OperationFailed) && n2 == 3
    ensures permanent == Err(DataAccess) && n3 == 1
  {
    var transient := Throws(TransientDataAccess);
    var user := User(None, "Test User", "test@example.com");

    var users1 := new InMemoryUserRepository();
    var service1 := new UserServiceImpl(users1);
    recovered, n1 := service1.CreateUser(user, [transient, transient, Proceeds]);

    var users2 := new InMemoryUserRepository();
    var service2 := new UserServiceImpl(users2);
    exhausted, n2 := service2.CreateUser(user, [transient, transient, transient, Proceeds]);

    var users3 := new InMemoryUserRepository();
    var service3 := new UserServiceImpl(users3);
    permanent, n3 := service3.CreateUser(user, [Throws(DataAccess), Proceeds]);
  }
}
