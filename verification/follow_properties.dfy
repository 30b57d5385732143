/** Properties of the follow relation as the two follow views change it:
    self-follow is refused, following is idempotent, and follow and unfollow
    undo each other. */
module FollowProperties {

  import opened Models
  import opened Feeds
  import opened Views

  /** Following oneself redirects to one's own profile and changes nothing. */
  lemma FollowSelfIsNoOp(s: Store, user: UserName)
    requires user in s.users
    ensures ProfileFollow(s, Authenticated(user), user) == Reply(Redirect(ProfileRoute(user)), s)
  {
  }

  /** A second identical follow request answers the same and changes nothing
      more: no duplicate pair can arise. */
  lemma FollowIsIdempotent(s: Store, session: Session, username: UserName)
    ensures ProfileFollow(ProfileFollow(s, session, username).store, session, username)
         == ProfileFollow(s, session, username)
  {
  }

  /** Following a new author adds exactly the pair (user, author) and
      nothing else. */
  lemma FollowAddsExactlyThePair(s: Store, user: UserName, author: UserName)
    requires author in s.users && author != user
    requires Follow(user, author) !in s.follows
    ensures ProfileFollow(s, Authenticated(user), author)
         == Reply(Redirect(ProfileRoute(author)), s.(follows := s.follows + {Follow(user, author)}))
  {
  }

  /** Unfollowing an existing pair removes exactly that pair. */
  lemma UnfollowRemovesExactlyThePair(s: Store, user: UserName, author: UserName)
    requires author in s.users && author != user
    requires Follow(user, author) in s.follows
    ensures ProfileUnfollow(s, Authenticated(user), author)
         == Reply(Redirect(ProfileRoute(author)), s.(follows := s.follows - {Follow(user, author)}))
  {
  }

  /** Unfollowing oneself redirects to one's own profile and changes nothing. */
  lemma UnfollowSelfIsNoOp(s: Store, user: UserName)
    requires user in s.users
    ensures ProfileUnfollow(s, Authenticated(user), user) == Reply(Redirect(ProfileRoute(user)), s)
  {
  }

  /** Unfollowing someone one does not follow is not found and changes
      nothing; in particular a second unfollow after a successful one is. */
  lemma UnfollowTwiceIsNotFound(s: Store, user: UserName, author: UserName)
    requires author in s.users && author != user
    ensures var once := ProfileUnfollow(s, Authenticated(user), author);
            ProfileUnfollow(once.store, Authenticated(user), author) == Reply(NotFound, once.store)
  {
  }

  /** Unfollow undoes a follow that created a pair. */
  lemma UnfollowUndoesFollow(s: Store, user: UserName, author: UserName)
    requires author in s.users && author != user
    requires Follow(user, author) !in s.follows
    ensures var followed := ProfileFollow(s, Authenticated(user), author).store;
            ProfileUnfollow(followed, Authenticated(user), author)
              == Reply(Redirect(ProfileRoute(author)), s)
  {
    var pair := Follow(user, author);
    assert s.follows + {pair} - {pair} == s.follows;
  }

  /** Follow undoes an unfollow that deleted a pair. */
  lemma FollowUndoesUnfollow(s: Store, user: UserName, author: UserName)
    requires author in s.users && author != user
    requires Follow(user, author) in s.follows
    ensures var unfollowed := ProfileUnfollow(s, Authenticated(user), author).store;
            ProfileFollow(unfollowed, Authenticated(user), author)
              == Reply(Redirect(ProfileRoute(author)), s)
  {
    var pair := Follow(user, author);
    assert s.follows - {pair} + {pair} == s.follows;
  }

  /** After following an author, all of that author's posts are in the
      follower's feed. */
  lemma FollowBringsAuthorIntoFeed(s: Store, user: UserName, author: UserName)
    requires author in s.users && author != user
    ensures var after := ProfileFollow(s, Authenticated(user), author).store;
            forall p :: p in AuthorFeed(s.posts, author) ==> p in FollowFeed(after.posts, after.follows, user)
  {
  }

  /** After unfollowing an author, none of that author's posts is in the
      former follower's feed. */
  lemma UnfollowTakesAuthorOutOfFeed(s: Store, user: UserName, author: UserName)
    requires author in s.users && author != user
    ensures var after := ProfileUnfollow(s, Authenticated(user), author).store;
            forall p :: p in FollowFeed(after.posts, after.follows, user) ==> p.author != author
  {
  }

  /** The profile page's follow flag tracks the follow views: it is set
      after following the author and cleared after unfollowing them. */
  lemma ProfileFlagTracksFollow(s: Store, user: UserName, author: UserName, page: Option<int>)
    requires author in s.users && author != user
    ensures var followed := ProfileFollow(s, Authenticated(user), author).store;
            Profile(followed, Authenticated(user), author, page).response.view.following
    ensures var unfollowed := ProfileUnfollow(s, Authenticated(user), author).store;
            !Profile(unfollowed, Authenticated(user), author, page).response.view.following
  {
  }
}
