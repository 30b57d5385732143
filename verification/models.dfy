/** The entities of the blog: users, groups, posts, comments and follow pairs,
    and the abstract store the view handlers read and write.

    Users are identified by their (unique) username and groups by their
    (unique) slug. The post sequence is kept in feed order, newest first, so
    every feed is a filter of it. */
module Models {

  datatype Option<+T> = None | Some(value: T)

  type UserName = string
  type Slug = string
  type PostId = nat
  type CommentId = nat

  datatype Group = Group(title: string, slug: Slug, description: string)

  /** A post; `image` is the stored file name, if any. */
  datatype Post = Post(id: PostId, text: string, author: UserName, group: Option<Slug>, image: Option<string>)

  datatype Comment = Comment(id: CommentId, post: PostId, author: UserName, text: string)

  /** `user` follows `author`. */
  datatype Follow = Follow(user: UserName, author: UserName)

  /** The persistent state behind the views. `nextPostId` and `nextCommentId`
      play the role of the database's auto-increment primary keys. */
  datatype Store = Store(
    users: set<UserName>,
    groups: map<Slug, Group>,
    posts: seq<Post>,
    comments: seq<Comment>,
    follows: set<Follow>,
    nextPostId: PostId,
    nextCommentId: CommentId
  )

  /** Who is making the request. */
  datatype Session = Anonymous | Authenticated(user: UserName)

  function PostIds(posts: seq<Post>): (ids: set<PostId>)
    ensures forall i :: 0 <= i < |posts| ==> posts[i].id in ids
    ensures forall id :: id in ids ==> exists i :: 0 <= i < |posts| && posts[i].id == id
  {
    set i | 0 <= i < |posts| :: posts[i].id
  }

  /** The integrity the database and the views keep between requests:
      primary keys are distinct and below the next key; a post's author, a
      comment's author and post, and both ends of a follow pair exist; and
      nobody follows themselves (the last one is kept by the follow view, not
      by the database). A post's group is not covered. */
  predicate WellFormed(s: Store) {
    && (forall slug :: slug in s.groups ==> s.groups[slug].slug == slug)
    && (forall i :: 0 <= i < |s.posts| ==> s.posts[i].id < s.nextPostId)
    && (forall i, j :: 0 <= i < j < |s.posts| ==> s.posts[i].id != s.posts[j].id)
    && (forall i :: 0 <= i < |s.posts| ==> s.posts[i].author in s.users)
    && (forall i :: 0 <= i < |s.comments| ==> s.comments[i].id < s.nextCommentId)
    && (forall i, j :: 0 <= i < j < |s.comments| ==> s.comments[i].id != s.comments[j].id)
    && (forall i :: 0 <= i < |s.comments| ==> s.comments[i].author in s.users)
    && (forall i :: 0 <= i < |s.comments| ==> s.comments[i].post in PostIds(s.posts))
    && (forall f :: f in s.follows ==> f.user in s.users && f.author in s.users)
    && (forall f :: f in s.follows ==> f.user != f.author)
  }

  /** An authenticated session belongs to a registered user. */
  predicate SessionOk(s: Store, session: Session) {
    session.Authenticated? ==> session.user in s.users
  }
}
