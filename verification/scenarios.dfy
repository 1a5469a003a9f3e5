/** Concrete runs against the seed store. */
module Scenarios {
  import opened Wrappers
  import opened Text
  import opened Lists
  import opened Entities
  import opened Queries
  import opened Resolvers
  import opened Mutations

  /** The seed gives all three users the same email, so distinct emails are
      only checked on creation and are not a property of every store. */
  lemma SeedEmailsNotUnique()
    ensures !EmailsUnique(Seed.users)
  {
    assert Seed.users[0].email == Seed.users[1].email;
  }

  /** Seed ids are distinct. */
  lemma SeedIdsUnique()
    ensures UserIdsUnique(Seed.users) && PostIdsUnique(Seed.posts)
  {
  }

  /** Creating a user with the seed's shared email is rejected. */
  lemma SeedCreateUserEmailTaken(freshId: Id)
    ensures CreateUser(Seed, CreateUserInput("N", "dddd@cdc.com", Some(1)), freshId) == Err(EmailTaken)
  {
  }

  /** Commenting on post '2' is rejected, although its author exists,
      because post '2' is not published. */
  lemma SeedCommentOnUnpublishedPost(freshId: Id)
    ensures CreateComment(Seed, CreateCommentInput("x", "123xcx", "2"), freshId) == Err(NoUserAndPublishedPost)
  {
  }

  /** The seed has no comments on post '1'. */
  lemma SeedNoCommentsOnPostOne()
    ensures PostComments(Seed, Seed.posts[0]) == []
  {
  }

  /** Commenting on the published post '1' by an existing user is accepted. */
  lemma SeedCommentOnPublishedPostAccepted(freshId: Id)
    ensures CreateComment(Seed, CreateCommentInput("x", "123xcx", "1"), freshId).Ok?
  {
  }

  /** After that comment, it is the only comment listed under post '1'. */
  lemma SeedCommentOnPublishedPost(freshId: Id)
    ensures var r := CreateComment(Seed, CreateCommentInput("x", "123xcx", "1"), freshId);
            && r.Ok?
            && PostComments(r.value.store, Seed.posts[0]) == [Comment(freshId, "x", "123xcx", "1")]
  {
    SeedCommentOnPublishedPostAccepted(freshId);
    SeedNoCommentsOnPostOne();
    CreateCommentListed(Seed, CreateCommentInput("x", "123xcx", "1"), freshId, Seed.posts[0], Seed.users[0]);
  }

  /** Deleting user '123sas' leaves post '2' in place with an author that
      no longer resolves. */
  lemma SeedDeleteLeavesDanglingAuthor()
    ensures var r := DeleteUser(Seed, "123sas");
            && r.Ok?
            && r.value.record == Seed.users[1]
            && Seed.posts[1] in r.value.store.posts
            && PostAuthor(r.value.store, Seed.posts[1]) == None
  {
  }

  /** Post lookup ignores `published`, and with a repeated post id the
      comment's post can resolve to an unpublished record, even though the
      comment was only accepted because a published post had that id. */
  lemma RepeatedPostIdResolvesToUnpublished(freshId: Id)
    ensures var st := Store([User("u", "n", "e", None)],
                            [Post("p", "a", "b", false, "u"), Post("p", "c", "d", true, "u")],
                            []);
            var r := CreateComment(st, CreateCommentInput("x", "u", "p"), freshId);
            && r.Ok?
            && CommentPost(r.value.store, r.value.record) == Some(Post("p", "a", "b", false, "u"))
  {
  }

  /** A query in capitals finds the seed posts, since only the query is
      lower-cased before the comparison. */
  lemma SeedPostsCapitalQuery()
    ensures Seed.posts[0] in Posts(Seed, Some("TITLE 1"))
  {
    assert forall i :: 0 <= i < 7 ==> Lower("TITLE 1")[i] == "title 1"[i];
    assert Lower("TITLE 1") == "title 1";
    assert Includes("title 1", "title 1");
    PostsMembership(Seed, "TITLE 1", Seed.posts[0]);
  }

  /** The users query matches names ignoring case. */
  lemma SeedUsersQueryIgnoresCase()
    ensures Seed.users[1] in Users(Seed, Some("USER 2"))
  {
    assert forall i :: 0 <= i < 6 ==> Lower("USER 2")[i] == "user 2"[i];
    assert Lower("USER 2") == "user 2";
    assert forall i :: 0 <= i < 11 ==> Lower("Some user 2")[i] == "some user 2"[i];
    assert Lower("Some user 2") == "some user 2";
    assert OccursAt("some user 2", "user 2", 5);
    UsersMembership(Seed, "USER 2", Seed.users[1]);
  }
}
