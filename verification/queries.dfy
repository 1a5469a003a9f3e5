/** The root `Query` resolvers: filtered views of one collection each. */
module Queries {
  import opened Wrappers
  import opened Text
  import opened Lists
  import opened Entities

  /** JavaScript's `!args.query`: the argument is missing, null or "". */
  predicate QueryAbsent(query: Option<string>) {
    query.None? || query.value == ""
  }

  /** A user matches when its lower-cased name contains the lower-cased query. */
  predicate NameMatches(u: User, q: string) {
    Includes(Lower(u.name), Lower(q))
  }

  function NameFilter(q: string): User -> bool {
    u => NameMatches(u, q)
  }

  /** `Query.users`: every user when the query is absent, otherwise the
      users whose name contains the query, ignoring case on both sides. */
  function Users(st: Store, query: Option<string>): (r: seq<User>)
    ensures QueryAbsent(query) ==> r == st.users
    ensures !QueryAbsent(query) ==> SelectsExactly(r, st.users, NameFilter(query.value))
  {
    if QueryAbsent(query) then st.users
    else
      FilterSelectsExactly(st.users, NameFilter(query.value));
      Filter(st.users, NameFilter(query.value))
  }

  /** A post matches when its title or its body, in their stored letter case,
      contains the lower-cased query. */
  predicate PostMatches(p: Post, q: string) {
    Includes(p.title, Lower(q)) || Includes(p.body, Lower(q))
  }

  function PostFilter(q: string): Post -> bool {
    p => PostMatches(p, q)
  }

  /** `Query.posts`: every post when the query is absent, otherwise the posts
      whose raw title or raw body contains the lower-cased query. */
  function Posts(st: Store, query: Option<string>): (r: seq<Post>)
    ensures QueryAbsent(query) ==> r == st.posts
    ensures !QueryAbsent(query) ==> SelectsExactly(r, st.posts, PostFilter(query.value))
  {
    if QueryAbsent(query) then st.posts
    else
      FilterSelectsExactly(st.posts, PostFilter(query.value));
      Filter(st.posts, PostFilter(query.value))
  }

  /** `Query.comments`: the comments collection, unfiltered. */
  function Comments(st: Store): (r: seq<Comment>)
    ensures r == st.comments
  {
    st.comments
  }

  /** A user is listed for a non-empty query exactly when it is stored and
      its name contains the query in any letter case. */
  lemma UsersMembership(st: Store, q: string, u: User)
    requires q != ""
    ensures u in Users(st, Some(q)) <==> u in st.users && Includes(Lower(u.name), Lower(q))
  {
  }

  /** The shortcut for an empty query agrees with filtering by it: the
      empty string occurs in every name. */
  lemma {:induction false} UsersEmptyQueryIsFilter(st: Store)
    ensures Users(st, Some("")) == Filter(st.users, NameFilter(""))
  {
    forall i | 0 <= i < |st.users|
      ensures NameFilter("")(st.users[i])
    {
      IncludesEmpty(Lower(st.users[i].name));
    }
    FilterKeepsAll(st.users, NameFilter(""));
  }

  /** The users query only depends on the query's lower-cased form. */
  lemma UsersIgnoresQueryCase(st: Store, q1: string, q2: string)
    requires Lower(q1) == Lower(q2)
    ensures Users(st, Some(q1)) == Users(st, Some(q2))
  {
    if q1 != "" {
      FilterCongruent(st.users, NameFilter(q1), NameFilter(q2));
    }
  }

  /** A post is listed for a non-empty query exactly when it is stored and
      its raw title or raw body contains the lower-cased query. */
  lemma PostsMembership(st: Store, q: string, p: Post)
    requires q != ""
    ensures p in Posts(st, Some(q)) <==> p in st.posts && (Includes(p.title, Lower(q)) || Includes(p.body, Lower(q)))
  {
  }

  /** The posts query only depends on the query's lower-cased form: a query
      with capital letters behaves as its lower-case spelling. */
  lemma PostsIgnoresQueryCase(st: Store, q: string)
    ensures Posts(st, Some(q)) == Posts(st, Some(Lower(q)))
  {
    LowerIdempotent(q);
    if q != "" {
      FilterCongruent(st.posts, PostFilter(q), PostFilter(Lower(q)));
    }
  }

  /** Capital letters in the stored text block a match: a post whose title
      and body hold no small letters is never found by a query that holds
      a letter. */
  lemma PostsMissUpperCaseText(st: Store, q: string, k: int, p: Post)
    requires 0 <= k < |q| && (IsUpper(q[k]) || IsLower(q[k]))
    requires forall j :: 0 <= j < |p.title| ==> !IsLower(p.title[j])
    requires forall j :: 0 <= j < |p.body| ==> !IsLower(p.body[j])
    ensures p !in Posts(st, Some(q))
  {
    assert IsLower(Lower(q)[k]);
    IncludesNeedsLowerLetter(p.title, Lower(q), k);
    IncludesNeedsLowerLetter(p.body, Lower(q), k);
    PostsMembership(st, q, p);
  }

  /** Case-insensitive post matching: both sides lower-cased, as the users
      query does. */
  predicate PostMatchesIgnoringCase(p: Post, q: string) {
    Includes(Lower(p.title), Lower(q)) || Includes(Lower(p.body), Lower(q))
  }

  function PostFilterIgnoringCase(q: string): Post -> bool {
    p => PostMatchesIgnoringCase(p, q)
  }

  /** The posts query with the letter-case asymmetry removed. */
  function PostsCaseInsensitive(st: Store, query: Option<string>): (r: seq<Post>)
    ensures QueryAbsent(query) ==> r == st.posts
    ensures !QueryAbsent(query) ==> SelectsExactly(r, st.posts, PostFilterIgnoringCase(query.value))
  {
    if QueryAbsent(query) then st.posts
    else
      FilterSelectsExactly(st.posts, PostFilterIgnoringCase(query.value));
      Filter(st.posts, PostFilterIgnoringCase(query.value))
  }

  /** The corrected query finds a post whatever the letter case of its
      title, its body or the query. */
  lemma PostsCaseInsensitiveIgnoresCase(st: Store, q1: string, q2: string, p1: Post, p2: Post)
    requires q1 != "" && Lower(q1) == Lower(q2)
    requires p1 in st.posts && p2 in st.posts
    requires Lower(p1.title) == Lower(p2.title) && Lower(p1.body) == Lower(p2.body)
    ensures p1 in PostsCaseInsensitive(st, Some(q1)) <==> p2 in PostsCaseInsensitive(st, Some(q2))
  {
  }

  /** Everything the posts query finds, the corrected query finds too, in
      the same order. */
  lemma PostsWithinCaseInsensitive(st: Store, query: Option<string>)
    ensures IsSubseq(Posts(st, query), PostsCaseInsensitive(st, query))
  {
    if QueryAbsent(query) {
      SubseqRefl(st.posts);
    } else {
      var q := query.value;
      forall i | 0 <= i < |st.posts| && PostFilter(q)(st.posts[i])
        ensures PostFilterIgnoringCase(q)(st.posts[i])
      {
        LowerIdempotent(q);
        if Includes(st.posts[i].title, Lower(q)) {
          IncludesLower(st.posts[i].title, Lower(q));
        } else {
          IncludesLower(st.posts[i].body, Lower(q));
        }
      }
      FilterMonotone(st.posts, PostFilter(q), PostFilterIgnoringCase(q));
    }
  }

  /** The asymmetry on a concrete post: a capitalised title is not found by
      its own spelling, although a user of that name would be. */
  lemma PostsMissCapitalisedTitle()
    ensures var p := Post("9", "Title", "", true, "u");
            var u := User("u", "Title", "e", None);
            var st := Store([u], [p], []);
            && Posts(st, Some("Title")) == []
            && PostsCaseInsensitive(st, Some("Title")) == [p]
            && Users(st, Some("Title")) == [u]
  {
    var p := Post("9", "Title", "", true, "u");
    var u := User("u", "Title", "e", None);
    var st := Store([u], [p], []);
    assert forall i :: 0 <= i < 5 ==> Lower("Title")[i] == "title"[i];
    assert Lower("Title") == "title";
    assert !OccursAt("Title", "title", 0) by {
      assert "Title"[0..5][0] != "title"[0];
    }
    assert !Includes("Title", "title");
    assert !Includes("", "title");
    assert Includes("title", "title");
    PostsMembership(st, "Title", p);
    UsersMembership(st, "Title", u);
  }
}
