/** The two entities of the service, as values. An id of None is Java's `null` id:
    the entity has not been stored yet and the repository will assign one. */
module Entities {
  import opened Common

  datatype User = User(id: Option<int>, name: string, email: string)

  /** `userId` is a weak reference to a User by id: it is checked when the post is
      written and never again. */
  datatype Post = Post(id: Option<int>, title: string, content: string, userId: int)
}
