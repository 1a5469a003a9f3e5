# In-memory users/posts/comments resolvers, modelled in Dafny

This project models the resolver table of a small GraphQL server. The server keeps three
module-level arrays, `users`, `posts` and `comments`, that start from fixed seed data. It
answers three root queries:

- `users(query)` filters users by name, ignoring letter case.
- `posts(query)` filters posts by title or body.
- `comments` returns every comment.

Relationship fields are joins done by a linear scan of a sibling array. They are `Post.author`,
`Post.comments`, `User.posts`, `User.comments`, `Comment.author` and `Comment.post`. Four
mutations check the store, build a record with a fresh id and append it or splice it out:
`createUser`, `deleteUser`, `createPost` and `createComment`.

The model is functional:

- A `Store` is an immutable value holding three sequences.
- Every resolver is a pure function of the store.
- A mutation is a function `Store × input × freshId → Result<Committed<Record>, Error>`. A
  rejected mutation yields an error and no new store, so the caller keeps the old store, and
  `StoreAfter` names the store the caller ends up with.
- The random id generator becomes the `freshId` parameter.

Modules:

- `Wrappers` holds `Option` and `Result`.
- `Text` holds ASCII `toLowerCase` and `includes`.
- `Lists` holds the array methods `filter`, `some`, `findIndex`, `find` and one-element
  `splice`, each specified without reference to its body. `SelectsExactly` says a result is
  the order-preserving subsequence holding exactly the matching elements.
- `Entities` holds the records, the store and the seed.
- `Queries` holds the root queries.
- `Resolvers` holds the relationship fields.
- `Mutations` holds the mutations.
- `Scenarios` holds concrete runs on the seed.

Policy choices the source leaves open:

- A dangling reference resolves to `None`, as JavaScript's `find` returns `undefined`.
- `deleteUser` does not cascade: posts and comments by the deleted user stay, with a dangling
  author.
- Distinct emails are not a store invariant, because the seed gives all three users the same
  email. `createUser` only keeps distinct emails distinct.
- Results that depend on a lookup being unique assume distinct ids. Examples are "the deleted
  user is gone" and "a comment's post is published". Without distinct ids the first match can
  be a different record; `RepeatedPostIdResolvesToUnpublished` shows this.
- The posts filter lower-cases only the query, not the title or body. The model keeps that
  behaviour. A query in capitals still finds lower-case titles: `TITLE 1` finds `title 1`,
  because the query is lower-cased first. What fails to match is capital letters in the stored
  text. `PostsMissUpperCaseText` and `PostsMissCapitalisedTitle` state this.

## Model

| member | source | states |
|---|---|---|
| `Text.Lower` | src/index.js:145 | lower-casing keeps the length, maps each character through the ASCII mapping, and leaves no capital letter |
| `Text.Includes` | src/index.js:145 | `includes` holds exactly when the needle occurs at some position of the text |
| `Text.IncludesLower` | src/index.js:161 | a match against raw text is also a match once both sides are lower-cased |
| `Text.IncludesNeedsLowerLetter` | src/index.js:161 | a needle with a small letter never occurs in a text without small letters |
| `Lists.Filter` | src/index.js:144-146 | every kept element satisfies the test and comes from the input; every satisfying element is kept; the result is no longer than the input |
| `Lists.FilterSelectsExactly` | src/index.js:144-146 | `filter` returns an order-preserving subsequence holding each satisfying value exactly as often as the input and nothing else |
| `Lists.FilterAppend` | src/index.js:144-146 | filtering a concatenation is concatenating the filtered parts, so store order is kept |
| `Lists.Any` | src/index.js:170 | `some` holds exactly when some position satisfies the test |
| `Lists.FindIndex` | src/index.js:188 | `findIndex` gives -1 exactly when nothing matches, and otherwise the first matching position |
| `Lists.Find` | src/index.js:234-236 | `find` gives nothing exactly when nothing matches, and otherwise the element at the first matching position |
| `Lists.FindIsHeadOfFilter` | src/index.js:234-236 | `find` returns the head of what `filter` with the same test returns, and nothing when that is empty |
| `Lists.RemoveAt` | src/index.js:194 | one-element `splice` shortens by one, keeps the elements before the index and shifts the later ones down |
| `Lists.RemoveAtSubseq` | src/index.js:194 | the spliced array is a subsequence of the original, so the other elements keep their order |
| `Lists.RemoveAtMultiset` | src/index.js:194 | the spliced array plus the removed element is the original multiset |
| `Queries.Users` | src/index.js:139-147 | an absent or empty query returns all users unchanged; otherwise the result is exactly the users whose lower-cased name contains the lower-cased query, in store order |
| `Queries.Comments` | src/index.js:164-166 | returns every comment, unfiltered and in store order |
| `Queries.UsersMembership` | src/index.js:144-146 | for a non-empty query, a user is listed if and only if it is stored and its name contains the query ignoring case |
| `Queries.UsersEmptyQueryIsFilter` | src/index.js:140-146 | the empty-query shortcut returns what filtering with the empty query would |
| `Queries.UsersIgnoresQueryCase` | src/index.js:145 | two queries with the same lower-case form list the same users |
| `Queries.Posts` | src/index.js:155-163 | an absent or empty query returns all posts unchanged; otherwise the result is exactly the posts whose raw title or raw body contains the lower-cased query, in store order |
| `Queries.PostsMembership` | src/index.js:160-162 | for a non-empty query, a post is listed if and only if it is stored and its raw title or raw body contains the lower-cased query |
| `Queries.PostsIgnoresQueryCase` | src/index.js:161 | a query lists the same posts as its lower-case spelling |
| `Queries.PostsMissUpperCaseText` | src/index.js:161 | a post whose title and body have no small letters is never listed for a query holding a letter |
| `Queries.PostsCaseInsensitive` | src/index.js:160-162 | corrected filter: the posts whose lower-cased title or lower-cased body contains the lower-cased query, in store order |
| `Queries.PostsCaseInsensitiveIgnoresCase` | src/index.js:160-162 | the corrected filter's verdict does not depend on the letter case of the title, the body or the query |
| `Queries.PostsWithinCaseInsensitive` | src/index.js:160-162 | every post the source's filter lists, the corrected filter lists too, in the same order |
| `Queries.PostsMissCapitalisedTitle` | src/index.js:160-162 | a post titled `Title` is not found by the query `Title`; the corrected filter finds it, and a user named `Title` is found by that query |
| `Resolvers.PostAuthor` | src/index.js:233-237 | no user exactly when no user has the post's author id; otherwise the first user with that id |
| `Resolvers.PostComments` | src/index.js:238-240 | exactly the comments whose post is this post's id, in store order |
| `Resolvers.UserPosts` | src/index.js:243-245 | exactly the posts whose author is this user's id, in store order |
| `Resolvers.UserComments` | src/index.js:246-248 | exactly the comments whose author is this user's id, in store order |
| `Resolvers.CommentAuthor` | src/index.js:251-253 | no user exactly when no user has the comment's author id; otherwise the first user with that id |
| `Resolvers.CommentPost` | src/index.js:254-256 | no post exactly when no post has the comment's post id; otherwise the first post with that id, published or not |
| `Resolvers.FindUniqueUser` | src/index.js:234-236 | with distinct user ids, looking up a stored user's id returns that user |
| `Resolvers.FindUniquePost` | src/index.js:255 | with distinct post ids, looking up a stored post's id returns that post |
| `Resolvers.PostAuthorIsFirstOfMatches` | src/index.js:233-237 | a post's author is the first user that filtering by the author id would list |
| `Mutations.CreateUser` | src/index.js:169-184 | fails with the email-taken error exactly when some user has exactly this email; failure leaves the store; success appends `{freshId, name, email, age}` to users and changes nothing else |
| `Mutations.DeleteUser` | src/index.js:185-197 | fails with the no-such-user error exactly when no user has the id; failure leaves the store; success removes and returns the user at the first matching index, shortens users by one and leaves posts and comments alone |
| `Mutations.CreatePost` | src/index.js:198-213 | fails with the user-not-found error exactly when no user has the author id; failure leaves the store; success appends the post and changes nothing else |
| `Mutations.CreateComment` | src/index.js:214-230 | fails with the combined error exactly when no user has the author id or no post both has the post id and is published; failure leaves the store; success appends the comment and changes nothing else |
| `Mutations.CreateUserKeepsEmailsUnique` | src/index.js:170-181 | a store whose emails are distinct keeps them distinct after a successful `createUser` |
| `Mutations.CreateUserThenListed` | src/index.js:169-184 | after a successful `createUser`, the users query lists the old users followed by the new one |
| `Mutations.CreateUserKeepsIdsUnique` | src/index.js:176-181 | with an id no user has, `createUser` keeps user ids distinct |
| `Mutations.DeleteUserRemovesOne` | src/index.js:188-196 | the remaining users plus the returned one are the original multiset, and the remaining users keep their order |
| `Mutations.DeleteUserGone` | src/index.js:188-196 | with distinct ids, no remaining user has the deleted id and the users query no longer lists the deleted user |
| `Mutations.DeleteUserLeavesPostsDangling` | src/index.js:188-196 | deletion does not cascade: a post by the deleted user stays and its author resolves to nothing |
| `Mutations.CreatePostListedForAuthor` | src/index.js:205-210 | the author's posts after `createPost` are the author's posts before, followed by the new post |
| `Mutations.CreatePostAuthorRoundTrip` | src/index.js:199-210 | the new post's author resolves to a user with the requested id, and with distinct ids to the very user given |
| `Mutations.CreateCommentListed` | src/index.js:222-227 | a new comment is appended to the comments query, to its post's comments and to its author's comments |
| `Mutations.CreateCommentPostIsPublished` | src/index.js:216 | with distinct post ids, a new comment's post resolves to a published post with the requested id |
| `Scenarios.SeedEmailsNotUnique` | src/index.js:4-23 | the seed users share an email |
| `Scenarios.SeedIdsUnique` | src/index.js:4-54 | the seed user ids are distinct, and so are the seed post ids |
| `Scenarios.SeedCreateUserEmailTaken` | src/index.js:170-174 | on the seed, creating a user with `dddd@cdc.com` fails with the email-taken error |
| `Scenarios.SeedCommentOnUnpublishedPost` | src/index.js:215-219 | on the seed, a comment by `123xcx` on post `2` fails because post `2` is unpublished |
| `Scenarios.SeedNoCommentsOnPostOne` | src/index.js:56-75 | the seed has no comments on post `1` |
| `Scenarios.SeedCommentOnPublishedPostAccepted` | src/index.js:214-230 | on the seed, a comment by `123xcx` on the published post `1` is accepted |
| `Scenarios.SeedCommentOnPublishedPost` | src/index.js:238-240 | after that comment, it is the only comment listed under post `1` |
| `Scenarios.SeedDeleteLeavesDanglingAuthor` | src/index.js:188-196 | on the seed, deleting `123sas` returns that user and leaves post `2` with an author that resolves to nothing |
| `Scenarios.RepeatedPostIdResolvesToUnpublished` | src/index.js:254-256 | when two posts share an id, a comment accepted through the published one resolves to the unpublished one listed first |
| `Scenarios.SeedPostsCapitalQuery` | src/index.js:160-162 | on the seed, the query `TITLE 1` finds post `1` |
| `Scenarios.SeedUsersQueryIgnoresCase` | src/index.js:144-146 | on the seed, the query `USER 2` finds `Some user 2` |

## Left out

- Server bootstrap, schema string and listener (src/index.js:1, 77-135, 260-267) are network and process plumbing. The schema is used only for the record shapes.
- GraphQL non-null enforcement is left out. An example is the error the runtime raises when a `User!` field resolves to nothing after a delete. That belongs to the library, which is not part of this model.
- `uuidv4()` (src/index.js:2, 177, 206, 223) is a foreign randomness call. It is the `freshId` parameter. Uniqueness of generated ids is not proved; lemmas that need it take it as a precondition.
- `console.log` (src/index.js:186, 266) is a side effect only.
- `me()` (src/index.js:148-154) returns a hard-coded value unrelated to the store.
- `Text.Lower` models `toLowerCase` on ASCII only. Full Unicode case mapping is not modelled.
- `Mutations.CreateUser`: the schema lets `data` be null. The model always takes a record. The source's behaviour on a null `data` (a type error, or an id-only user when there are no users) is not modelled.
- `Mutations.CreatePost`: the schema lets `data` be null (src/index.js:88). The model always takes a record. On a null `data` the source throws a TypeError at `args.data.author` when any user exists, and 'User not found' on an empty users array; neither path is modelled.
- `Mutations.CreateComment`: the schema lets `data` be null (src/index.js:89). The model always takes a record. On a null `data` the source throws a TypeError at src/index.js:215-216 when either users or posts is non-empty, and the combined error when both are empty; neither path is modelled.
- `Entities.User`: `age` is an unbounded `int`. The 32-bit range of GraphQL `Int` is checked by the runtime, which is not part of this model.
- The in-place mutation of the shared arrays is modelled as returning a new store. Concurrent requests are not modelled; the source handles one resolver call at a time.

## Findings

| source | as written | input that shows it | evidently intended | confidence | as-written member | corrected member |
|---|---|---|---|---|---|---|
| src/index.js:160-162 | only the query is lower-cased; title and body are compared in their stored case | a post titled `Title`, query `Title`: the lower-cased query `title` does not occur in `Title`, so the post is not listed | match ignoring case on both sides, as the users query does | not executed; medium | `Queries.PostsMissCapitalisedTitle` (on `Queries.Posts`) | `Queries.PostsCaseInsensitive`, with `Queries.PostsCaseInsensitiveIgnoresCase` and `Queries.PostsWithinCaseInsensitive` |
