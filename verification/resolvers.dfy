/** The relationship field resolvers of `Post`, `User` and `Comment`: joins
    done by a linear scan of a sibling collection on every request. */
module Resolvers {
  import opened Wrappers
  import opened Lists
  import opened Entities

  function UserWithId(id: Id): User -> bool {
    (u: User) => u.id == id
  }

  function PostWithId(id: Id): Post -> bool {
    (p: Post) => p.id == id
  }

  function PostBy(author: Id): Post -> bool {
    (p: Post) => p.author == author
  }

  function CommentBy(author: Id): Comment -> bool {
    (c: Comment) => c.author == author
  }

  function CommentOn(post: Id): Comment -> bool {
    (c: Comment) => c.post == post
  }

  /** `Post.author`: the first user whose id is the post's author, or none
      when the reference dangles. */
  function PostAuthor(st: Store, post: Post): (r: Option<User>)
    ensures r.None? <==> forall i :: 0 <= i < |st.users| ==> st.users[i].id != post.author
    ensures r.Some? ==> r.value.id == post.author
    ensures r.Some? ==> exists i :: IsFirstMatch(st.users, UserWithId(post.author), i) && st.users[i] == r.value
  {
    Find(st.users, UserWithId(post.author))
  }

  /** `Post.comments`: the comments on this post, in store order. */
  function PostComments(st: Store, post: Post): (r: seq<Comment>)
    ensures SelectsExactly(r, st.comments, CommentOn(post.id))
  {
    FilterSelectsExactly(st.comments, CommentOn(post.id));
    Filter(st.comments, CommentOn(post.id))
  }

  /** `User.posts`: the posts this user wrote, in store order. */
  function UserPosts(st: Store, user: User): (r: seq<Post>)
    ensures SelectsExactly(r, st.posts, PostBy(user.id))
  {
    FilterSelectsExactly(st.posts, PostBy(user.id));
    Filter(st.posts, PostBy(user.id))
  }

  /** `User.comments`: the comments this user wrote, in store order. */
  function UserComments(st: Store, user: User): (r: seq<Comment>)
    ensures SelectsExactly(r, st.comments, CommentBy(user.id))
  {
    FilterSelectsExactly(st.comments, CommentBy(user.id));
    Filter(st.comments, CommentBy(user.id))
  }

  /** `Comment.author`: the first user whose id is the comment's author. */
  function CommentAuthor(st: Store, comment: Comment): (r: Option<User>)
    ensures r.None? <==> forall i :: 0 <= i < |st.users| ==> st.users[i].id != comment.author
    ensures r.Some? ==> r.value.id == comment.author
    ensures r.Some? ==> exists i :: IsFirstMatch(st.users, UserWithId(comment.author), i) && st.users[i] == r.value
  {
    Find(st.users, UserWithId(comment.author))
  }

  /** `Comment.post`: the first post whose id is the comment's post. The
      lookup does not look at `published`. */
  function CommentPost(st: Store, comment: Comment): (r: Option<Post>)
    ensures r.None? <==> forall i :: 0 <= i < |st.posts| ==> st.posts[i].id != comment.post
    ensures r.Some? ==> r.value.id == comment.post
    ensures r.Some? ==> exists i :: IsFirstMatch(st.posts, PostWithId(comment.post), i) && st.posts[i] == r.value
  {
    Find(st.posts, PostWithId(comment.post))
  }

  /** With unique user ids, looking up a stored user's id finds that user. */
  lemma FindUniqueUser(users: seq<User>, u: User)
    requires UserIdsUnique(users) && u in users
    ensures Find(users, UserWithId(u.id)) == Some(u)
  {
  }

  /** With unique post ids, looking up a stored post's id finds that post. */
  lemma FindUniquePost(posts: seq<Post>, p: Post)
    requires PostIdsUnique(posts) && p in posts
    ensures Find(posts, PostWithId(p.id)) == Some(p)
  {
  }

  /** A post's author is the first user the id-filter would list: the
      single-record and the many-record joins agree. */
  lemma PostAuthorIsFirstOfMatches(st: Store, post: Post)
    ensures var m := Filter(st.users, UserWithId(post.author));
            PostAuthor(st, post) == (if m == [] then None else Some(m[0]))
  {
    FindIsHeadOfFilter(st.users, UserWithId(post.author));
  }
}
