/** The `Mutation` resolvers. Each one validates against the current store,
    builds a record under a fresh id (the id generator is a parameter), and
    appends or removes that record. A rejected mutation returns an error and
    no new store, so the store stays as it was. */
module Mutations {
  import opened Wrappers
  import opened Lists
  import opened Entities
  import opened Queries
  import opened Resolvers

  /** The errors the resolvers throw, one per message. */
  datatype Error =
    | EmailTaken              // "this email is already taken"
    | NoSuchUser              // "There is no such user"
    | UserNotFound            // "User not found"
    | NoUserAndPublishedPost  // "No user and corresponding post were found"

  datatype CreateUserInput = CreateUserInput(name: string, email: string, age: Option<int>)

  datatype CreatePostInput = CreatePostInput(title: string, body: string, published: bool, author: Id)

  datatype CreateCommentInput = CreateCommentInput(text: string, author: Id, post: Id)

  /** A committed mutation: the new store and the record it returns. */
  datatype Committed<R> = Committed(store: Store, record: R)

  type Outcome<R> = Result<Committed<R>, Error>

  /** The store after a mutation: the committed one, or the old one. */
  function StoreAfter<R>(st: Store, r: Outcome<R>): Store {
    if r.Ok? then r.value.store else st
  }

  function EmailIs(email: string): User -> bool {
    (u: User) => u.email == email
  }

  function PublishedWithId(id: Id): Post -> bool {
    (p: Post) => p.id == id && p.published
  }

  /** `Mutation.createUser`. */
  function CreateUser(st: Store, data: CreateUserInput, freshId: Id): (r: Outcome<User>)
    ensures r.Err? <==> exists i :: 0 <= i < |st.users| && st.users[i].email == data.email
    ensures r.Err? ==> r == Err(EmailTaken)
    ensures StoreAfter(st, r) == st <==> r.Err?
    ensures r.Ok? ==> r.value.record == User(freshId, data.name, data.email, data.age)
    ensures r.Ok? ==> r.value.store == Store(st.users + [r.value.record], st.posts, st.comments)
  {
    if Any(st.users, EmailIs(data.email)) then
      Err(EmailTaken)
    else
      var user := User(freshId, data.name, data.email, data.age);
      Ok(Committed(st.(users := st.users + [user]), user))
  }

  /** `Mutation.deleteUser`: splices out the first user with the id. Posts
      and comments are left alone, even those that name the user. */
  function DeleteUser(st: Store, id: Id): (r: Outcome<User>)
    ensures r.Err? <==> forall i :: 0 <= i < |st.users| ==> st.users[i].id != id
    ensures r.Err? ==> r == Err(NoSuchUser)
    ensures StoreAfter(st, r) == st <==> r.Err?
    ensures r.Ok? ==> forall i :: IsFirstMatch(st.users, UserWithId(id), i) ==>
                                    && r.value.record == st.users[i]
                                    && r.value.store.users == RemoveAt(st.users, i)
    ensures r.Ok? ==> r.value.record.id == id && |r.value.store.users| == |st.users| - 1
    ensures r.Ok? ==> r.value.store.posts == st.posts && r.value.store.comments == st.comments
  {
    var i := FindIndex(st.users, UserWithId(id));
    if i == -1 then
      Err(NoSuchUser)
    else
      Ok(Committed(st.(users := RemoveAt(st.users, i)), st.users[i]))
  }

  /** `Mutation.createPost`. */
  function CreatePost(st: Store, data: CreatePostInput, freshId: Id): (r: Outcome<Post>)
    ensures r.Err? <==> forall i :: 0 <= i < |st.users| ==> st.users[i].id != data.author
    ensures r.Err? ==> r == Err(UserNotFound)
    ensures StoreAfter(st, r) == st <==> r.Err?
    ensures r.Ok? ==> r.value.record == Post(freshId, data.title, data.body, data.published, data.author)
    ensures r.Ok? ==> r.value.store == Store(st.users, st.posts + [r.value.record], st.comments)
  {
    if !Any(st.users, UserWithId(data.author)) then
      Err(UserNotFound)
    else
      var post := Post(freshId, data.title, data.body, data.published, data.author);
      Ok(Committed(st.(posts := st.posts + [post]), post))
  }

  /** `Mutation.createComment`: needs the author and a published post with
      the id; one combined error covers both failures. */
  function CreateComment(st: Store, data: CreateCommentInput, freshId: Id): (r: Outcome<Comment>)
    ensures r.Err? <==> || (forall i :: 0 <= i < |st.users| ==> st.users[i].id != data.author)
                        || (forall i :: 0 <= i < |st.posts| ==> !(st.posts[i].id == data.post && st.posts[i].published))
    ensures r.Err? ==> r == Err(NoUserAndPublishedPost)
    ensures StoreAfter(st, r) == st <==> r.Err?
    ensures r.Ok? ==> r.value.record == Comment(freshId, data.text, data.author, data.post)
    ensures r.Ok? ==> r.value.store == Store(st.users, st.posts, st.comments + [r.value.record])
  {
    var userExists := Any(st.users, UserWithId(data.author));
    var postExists := Any(st.posts, PublishedWithId(data.post));
    if !userExists || !postExists then
      Err(NoUserAndPublishedPost)
    else
      var comment := Comment(freshId, data.text, data.author, data.post);
      Ok(Committed(st.(comments := st.comments + [comment]), comment))
  }

  /** A new user can be created exactly when no stored user has its email;
      that keeps the emails of a store with distinct emails distinct. */
  lemma CreateUserKeepsEmailsUnique(st: Store, data: CreateUserInput, freshId: Id)
    requires EmailsUnique(st.users)
    requires CreateUser(st, data, freshId).Ok?
    ensures EmailsUnique(CreateUser(st, data, freshId).value.store.users)
  {
  }

  /** A created user is listed by the users query afterwards, last. */
  lemma CreateUserThenListed(st: Store, data: CreateUserInput, freshId: Id)
    requires CreateUser(st, data, freshId).Ok?
    ensures var c := CreateUser(st, data, freshId).value;
            Users(c.store, None) == Users(st, None) + [c.record]
  {
  }

  /** With a fresh id, creating a user keeps user ids distinct. */
  lemma CreateUserKeepsIdsUnique(st: Store, data: CreateUserInput, freshId: Id)
    requires UserIdsUnique(st.users)
    requires forall i :: 0 <= i < |st.users| ==> st.users[i].id != freshId
    requires CreateUser(st, data, freshId).Ok?
    ensures UserIdsUnique(CreateUser(st, data, freshId).value.store.users)
  {
  }

  /** Deleting takes out one copy of the returned user and keeps the others
      in their relative order. */
  lemma DeleteUserRemovesOne(st: Store, id: Id)
    requires DeleteUser(st, id).Ok?
    ensures var c := DeleteUser(st, id).value;
            && multiset(c.store.users) + multiset{c.record} == multiset(st.users)
            && IsSubseq(c.store.users, st.users)
  {
    var i := FindIndex(st.users, UserWithId(id));
    RemoveAtMultiset(st.users, i);
    RemoveAtSubseq(st.users, i);
  }

  /** With distinct ids, no user with the deleted id is left and the deleted
      user is no longer listed. */
  lemma DeleteUserGone(st: Store, id: Id)
    requires UserIdsUnique(st.users)
    requires DeleteUser(st, id).Ok?
    ensures var c := DeleteUser(st, id).value;
            && (forall j :: 0 <= j < |c.store.users| ==> c.store.users[j].id != id)
            && c.record !in Users(c.store, None)
  {
  }

  /** Deleting does not cascade: with distinct ids, a post by the deleted
      user stays stored and its author no longer resolves. */
  lemma DeleteUserLeavesPostsDangling(st: Store, id: Id, post: Post)
    requires UserIdsUnique(st.users)
    requires DeleteUser(st, id).Ok?
    requires post in st.posts && post.author == id
    ensures var st' := DeleteUser(st, id).value.store;
            post in st'.posts && PostAuthor(st', post) == None
  {
  }

  /** A created post is listed last among its author's posts, after the ones
      the author already had. */
  lemma CreatePostListedForAuthor(st: Store, data: CreatePostInput, freshId: Id, user: User)
    requires CreatePost(st, data, freshId).Ok?
    requires user.id == data.author
    ensures var c := CreatePost(st, data, freshId).value;
            UserPosts(c.store, user) == UserPosts(st, user) + [c.record]
  {
    var c := CreatePost(st, data, freshId).value;
    FilterAppend(st.posts, [c.record], PostBy(user.id));
  }

  /** The author of a created post resolves to a user with the requested
      id; with distinct ids, to the very user whose id was given. */
  lemma CreatePostAuthorRoundTrip(st: Store, data: CreatePostInput, freshId: Id, user: User)
    requires CreatePost(st, data, freshId).Ok?
    ensures var c := CreatePost(st, data, freshId).value;
            PostAuthor(c.store, c.record).Some? && PostAuthor(c.store, c.record).value.id == data.author
    ensures var c := CreatePost(st, data, freshId).value;
            UserIdsUnique(st.users) && user in st.users && user.id == data.author ==>
              PostAuthor(c.store, c.record) == Some(user)
  {
  }

  /** A created comment is appended to the comments query and to the
      comments of its post and of its author. */
  lemma CreateCommentListed(st: Store, data: CreateCommentInput, freshId: Id, post: Post, user: User)
    requires CreateComment(st, data, freshId).Ok?
    requires post.id == data.post && user.id == data.author
    ensures var c := CreateComment(st, data, freshId).value;
            && Comments(c.store) == Comments(st) + [c.record]
            && PostComments(c.store, post) == PostComments(st, post) + [c.record]
            && UserComments(c.store, user) == UserComments(st, user) + [c.record]
  {
    var c := CreateComment(st, data, freshId).value;
    assert c.store.comments == st.comments + [c.record];
    FilterAppend(st.comments, [c.record], CommentOn(post.id));
    assert Filter([c.record], CommentOn(post.id)) == [c.record];
    FilterAppend(st.comments, [c.record], CommentBy(user.id));
    assert Filter([c.record], CommentBy(user.id)) == [c.record];
  }

  /** With distinct post ids, the post of a created comment resolves to a
      published post with the requested id. */
  lemma CreateCommentPostIsPublished(st: Store, data: CreateCommentInput, freshId: Id)
    requires PostIdsUnique(st.posts)
    requires CreateComment(st, data, freshId).Ok?
    ensures var c := CreateComment(st, data, freshId).value;
            var p := CommentPost(c.store, c.record);
            p.Some? && p.value.id == data.post && p.value.published
  {
  }
}
