/** The three record kinds of the schema and the store that holds them.
    Relationships are not stored: a post names its author by id, a comment
    names its author and its post by id. */
module Entities {
  import opened Wrappers

  type Id = string

  /** `type User`; `age` is the schema's optional `Int`. */
  datatype User = User(id: Id, name: string, email: string, age: Option<int>)

  /** `type Post`; `author` is the id of a user. */
  datatype Post = Post(id: Id, title: string, body: string, published: bool, author: Id)

  /** `type Comment`; `author` is a user id and `post` a post id. */
  datatype Comment = Comment(id: Id, text: string, author: Id, post: Id)

  /** The three module-level arrays, in insertion order. */
  datatype Store = Store(users: seq<User>, posts: seq<Post>, comments: seq<Comment>)

  /** No two users share an id. */
  ghost predicate UserIdsUnique(users: seq<User>) {
    forall i, j :: 0 <= i < j < |users| ==> users[i].id != users[j].id
  }

  /** No two posts share an id. */
  ghost predicate PostIdsUnique(posts: seq<Post>) {
    forall i, j :: 0 <= i < j < |posts| ==> posts[i].id != posts[j].id
  }

  /** No two users share an email. The seed data breaks this. */
  ghost predicate EmailsUnique(users: seq<User>) {
    forall i, j :: 0 <= i < j < |users| ==> users[i].email != users[j].email
  }

  /** The contents of the store when the process starts. */
  const Seed: Store := Store(
    [ User("123xcx", "Some user 1", "dddd@cdc.com", Some(23)),
      User("123sas", "Some user 2", "dddd@cdc.com", Some(43)),
      User("1sdcsdc", "Some user 3", "dddd@cdc.com", Some(43)) ],
    [ Post("1", "title 1", "body 1", true, "123xcx"),
      Post("2", "title 2", "body 2", false, "123sas"),
      Post("3", "title 3", "body 3", false, "1sdcsdc"),
      Post("4", "title 4", "body 4", false, "123xcx") ],
    [ Comment("1", "comment 1", "123xcx", "2"),
      Comment("2", "comment 2", "123sas", "2"),
      Comment("3", "comment 3", "123sas", "3") ])
}
