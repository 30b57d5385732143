/** Properties of the feeds as posts are created: the personal feed is empty
    for someone who follows nobody, a new post by a followed author appears at
    its top, and a new post by anyone else leaves it as it was. */
module FeedProperties {

  import opened Models
  import opened Paginator
  import opened Feeds
  import opened Views

  /** Someone who follows nobody has an empty personal feed. */
  lemma FollowFeedEmptyWithoutFollows(posts: seq<Post>, follows: set<Follow>, user: UserName)
    requires forall f :: f in follows ==> f.user != user
    ensures FollowFeed(posts, follows, user) == []
  {
    var keep := (p: Post) => Follow(user, p.author) in follows;
    forall i | 0 <= i < |posts|
      ensures !keep(posts[i])
    {
      assert Follow(user, posts[i].author).user == user;
    }
    FilterNone(posts, keep);
  }

  /** A post created by a followed author appears at the top of the
      follower's feed, above what was there before. */
  lemma NewPostReachesFollowers(s: Store, author: UserName, form: Form<PostFields>, follower: UserName)
    requires form.Valid?
    requires Follow(follower, author) in s.follows
    ensures var after := PostCreate(s, Authenticated(author), form).store;
            FollowFeed(after.posts, after.follows, follower)
              == [after.posts[0]] + FollowFeed(s.posts, s.follows, follower)
  {
    var after := PostCreate(s, Authenticated(author), form).store;
    FilterCons(after.posts[0], s.posts, (p: Post) => Follow(follower, p.author) in s.follows);
    assert after.posts == [after.posts[0]] + s.posts;
  }

  /** A post created by an author someone does not follow leaves their
      personal feed unchanged. */
  lemma NewPostSkipsNonFollowers(s: Store, author: UserName, form: Form<PostFields>, user: UserName)
    requires Follow(user, author) !in s.follows
    ensures var after := PostCreate(s, Authenticated(author), form).store;
            FollowFeed(after.posts, after.follows, user) == FollowFeed(s.posts, s.follows, user)
  {
    var after := PostCreate(s, Authenticated(author), form).store;
    if form.Valid? {
      FilterCons(after.posts[0], s.posts, (p: Post) => Follow(user, p.author) in s.follows);
      assert after.posts == [after.posts[0]] + s.posts;
    }
  }

  /** A new post is the first item of the first page of its author's
      profile. */
  lemma NewPostTopsAuthorProfile(s: Store, author: UserName, form: Form<PostFields>)
    requires form.Valid?
    ensures var after := PostCreate(s, Authenticated(author), form).store;
            var feed := AuthorFeed(after.posts, author);
            |feed| > 0 && PageItems(feed, 1)[0] == after.posts[0]
  {
    var after := PostCreate(s, Authenticated(author), form).store;
    FilterCons(after.posts[0], s.posts, (p: Post) => p.author == author);
    assert after.posts == [after.posts[0]] + s.posts;
  }

  /** The group feed keeps the store's order: splitting the post sequence
      anywhere splits the group feed at the same place. */
  lemma GroupFeedKeepsOrder(a: seq<Post>, b: seq<Post>, slug: Slug)
    ensures GroupFeed(a + b, slug) == GroupFeed(a, slug) + GroupFeed(b, slug)
  {
    FilterConcat(a, b, (p: Post) => p.group == Some(slug));
  }

  /** The personal feed keeps the store's order in the same way. */
  lemma FollowFeedKeepsOrder(a: seq<Post>, b: seq<Post>, follows: set<Follow>, user: UserName)
    ensures FollowFeed(a + b, follows, user) == FollowFeed(a, follows, user) + FollowFeed(b, follows, user)
  {
    FilterConcat(a, b, (p: Post) => Follow(user, p.author) in follows);
  }

  /** Every item shown on a page of a feed belongs to that feed. */
  lemma PageShowsOnlyFeedItems<T>(pg: Page<T>, feed: seq<T>, requested: Option<int>)
    requires ShowsPage(pg, feed, requested)
    ensures forall x :: x in pg.items ==> x in feed
  {
    forall x | x in pg.items
      ensures x in feed
    {
      var i :| 0 <= i < |pg.items| && pg.items[i] == x;
      assert feed[(pg.number - 1) * PostsPerPage + i] == x;
    }
  }
}
