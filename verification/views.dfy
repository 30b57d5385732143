/** The request handlers of the posts application, each a pure transition:
    given the store and the request's inputs, it returns the response and the
    store after the request.

    Handlers behind the login requirement answer an anonymous session with a
    redirect to the login page (carrying the route asked for) before doing
    anything else. Looking up a missing user, group, post or follow pair
    answers `NotFound` and changes nothing. */
module Views {

  import opened Models
  import opened Paginator
  import opened Feeds

  /** The routes of the application, used as redirect targets and as the
      `next` parameter of the login redirect. */
  datatype Route =
    | IndexRoute
    | GroupRoute(slug: Slug)
    | ProfileRoute(username: UserName)
    | PostDetailRoute(postId: PostId)
    | PostCreateRoute
    | PostEditRoute(postId: PostId)
    | AddCommentRoute(postId: PostId)
    | FollowIndexRoute
    | ProfileFollowRoute(username: UserName)
    | ProfileUnfollowRoute(username: UserName)

  datatype Template =
    | IndexTemplate
    | GroupListTemplate
    | ProfileTemplate
    | PostDetailTemplate
    | CreatePostTemplate
    | FollowTemplate

  /** What a rendered page shows (the part of its context that is data). */
  datatype View =
    | FeedView(page: Page<Post>)
    | GroupView(group: Group, page: Page<Post>)
    | ProfileView(author: UserName, page: Page<Post>, postCount: nat, following: bool)
    | DetailView(post: Post, authorPostCount: nat, comments: seq<Comment>)
    | FormView(isEdit: bool)

  datatype Response =
    | Render(template: Template, view: View)
    | Redirect(target: Route)
    | NotFound
    | RedirectToLogin(next: Route)

  datatype Reply = Reply(response: Response, store: Store)

  /** A submitted form as the view sees it: no data at all (a GET request),
      data the form rejected, or data it accepted and cleaned. Only the last
      is valid. */
  datatype Form<T> = Unbound | Invalid | Valid(data: T)

  /** The fields the post form edits. */
  datatype PostFields = PostFields(text: string, group: Option<Slug>, image: Option<string>)

  /** The home page: every post, paginated. */
  function Index(s: Store, page: Option<int>): (r: Reply)
    ensures r.store == s
    ensures r.response.Render? && r.response.template == IndexTemplate
    ensures r.response.view.FeedView? && ShowsPage(r.response.view.page, s.posts, page)
  {
    Reply(Render(IndexTemplate, FeedView(Paginate(s.posts, page))), s)
  }

  /** The page of one group: its posts only, paginated; an unknown slug is
      not found. */
  function GroupPosts(s: Store, slug: Slug, page: Option<int>): (r: Reply)
    ensures r.store == s
    ensures r.response.NotFound? <==> slug !in s.groups
    ensures slug in s.groups ==>
      && r.response.Render? && r.response.template == GroupListTemplate
      && r.response.view.GroupView? && r.response.view.group == s.groups[slug]
      && ShowsPage(r.response.view.page, GroupFeed(s.posts, slug), page)
      && (forall p :: p in r.response.view.page.items ==> p in s.posts && p.group == Some(slug))
  {
    if slug !in s.groups then Reply(NotFound, s)
    else
      var pg := Paginate(GroupFeed(s.posts, slug), page);
      assert forall i :: 0 <= i < |pg.items| ==> pg.items[i] in GroupFeed(s.posts, slug);
      Reply(Render(GroupListTemplate, GroupView(s.groups[slug], pg)), s)
  }

  /** A user's profile: their posts paginated, how many there are, and
      whether the current user (if any) follows them. */
  function Profile(s: Store, session: Session, username: UserName, page: Option<int>): (r: Reply)
    ensures r.store == s
    ensures r.response.NotFound? <==> username !in s.users
    ensures username in s.users ==>
      && r.response.Render? && r.response.template == ProfileTemplate
      && r.response.view.ProfileView? && r.response.view.author == username
      && ShowsPage(r.response.view.page, AuthorFeed(s.posts, username), page)
      && (forall p :: p in r.response.view.page.items ==> p in s.posts && p.author == username)
      && r.response.view.postCount == |AuthorFeed(s.posts, username)|
      && (r.response.view.following <==> session.Authenticated? && Follow(session.user, username) in s.follows)
  {
    if username !in s.users then Reply(NotFound, s)
    else
      var posts := AuthorFeed(s.posts, username);
      var pg := Paginate(posts, page);
      assert forall i :: 0 <= i < |pg.items| ==> pg.items[i] in posts;
      var following := session.Authenticated? && Follow(session.user, username) in s.follows;
      Reply(Render(ProfileTemplate, ProfileView(username, pg, |posts|, following)), s)
  }

  /** One post with its comments and its author's post count. */
  function PostDetail(s: Store, postId: PostId): (r: Reply)
    ensures r.store == s
    ensures r.response.NotFound? <==> postId !in PostIds(s.posts)
    ensures postId in PostIds(s.posts) ==>
      && r.response.Render? && r.response.template == PostDetailTemplate
      && r.response.view.DetailView?
      && r.response.view.post in s.posts && r.response.view.post.id == postId
      && r.response.view.authorPostCount == |AuthorFeed(s.posts, r.response.view.post.author)|
      && (forall c :: c in r.response.view.comments <==> c in s.comments && c.post == postId)
  {
    match FindPost(s.posts, postId)
    case None => Reply(NotFound, s)
    case Some(i) =>
      var post := s.posts[i];
      Reply(Render(PostDetailTemplate,
                   DetailView(post, |AuthorFeed(s.posts, post.author)|, CommentsOf(s.comments, postId))), s)
  }

  /** Creating a post: with a valid form, a new post by the current user goes
      to the top of the feed and the user is sent to their profile;
      otherwise the form is shown again and nothing changes. */
  function PostCreate(s: Store, session: Session, form: Form<PostFields>): (r: Reply)
    ensures session.Anonymous? ==> r == Reply(RedirectToLogin(PostCreateRoute), s)
    ensures session.Authenticated? && !form.Valid? ==>
      r == Reply(Render(CreatePostTemplate, FormView(false)), s)
    ensures session.Authenticated? && form.Valid? ==>
      && r.response == Redirect(ProfileRoute(session.user))
      && |r.store.posts| == |s.posts| + 1
      && r.store.posts[1..] == s.posts
      && r.store.posts[0].author == session.user
      && r.store.posts[0].text == form.data.text
      && r.store.posts[0].group == form.data.group
      && r.store.posts[0].image == form.data.image
      && (WellFormed(s) ==> r.store.posts[0].id !in PostIds(s.posts))
      && r.store.(posts := s.posts, nextPostId := s.nextPostId) == s
  {
    match session
    case Anonymous => Reply(RedirectToLogin(PostCreateRoute), s)
    case Authenticated(user) =>
      match form
      case Valid(f) =>
        var post := Post(s.nextPostId, f.text, user, f.group, f.image);
        Reply(Redirect(ProfileRoute(user)),
              s.(posts := [post] + s.posts, nextPostId := s.nextPostId + 1))
      case _ => Reply(Render(CreatePostTemplate, FormView(false)), s)
  }

  /** Editing a post. Only its author may change it: anyone else is sent to
      the post's page and nothing changes. The author's valid form replaces
      the post's text, group and image in place. */
  function PostEdit(s: Store, session: Session, postId: PostId, form: Form<PostFields>): (r: Reply)
    ensures session.Anonymous? ==> r == Reply(RedirectToLogin(PostEditRoute(postId)), s)
    ensures r.store.(posts := s.posts) == s
    ensures |r.store.posts| == |s.posts|
    ensures forall i :: 0 <= i < |s.posts| && s.posts[i].id != postId ==> r.store.posts[i] == s.posts[i]
    ensures forall i :: 0 <= i < |s.posts| ==>
      r.store.posts[i].id == s.posts[i].id && r.store.posts[i].author == s.posts[i].author
    ensures r.response.NotFound? <==> session.Authenticated? && postId !in PostIds(s.posts)
    ensures r.response.NotFound? ==> r.store == s
    ensures session.Authenticated? && postId in PostIds(s.posts)
            && (forall i :: 0 <= i < |s.posts| && s.posts[i].id == postId ==> s.posts[i].author != session.user)
            ==> r == Reply(Redirect(PostDetailRoute(postId)), s)
    ensures WellFormed(s) && session.Authenticated? ==>
      forall i :: 0 <= i < |s.posts| && s.posts[i].id == postId && s.posts[i].author == session.user ==>
        if form.Valid? then
          && r.response == Redirect(PostDetailRoute(postId))
          && r.store.posts[i].text == form.data.text
          && r.store.posts[i].group == form.data.group
          && r.store.posts[i].image == form.data.image
        else
          r == Reply(Render(CreatePostTemplate, FormView(true)), s)
  {
    match session
    case Anonymous => Reply(RedirectToLogin(PostEditRoute(postId)), s)
    case Authenticated(user) =>
      match FindPost(s.posts, postId)
      case None => Reply(NotFound, s)
      case Some(i) =>
        var post := s.posts[i];
        if user != post.author then Reply(Redirect(PostDetailRoute(post.id)), s)
        else
          match form
          case Valid(f) =>
            var edited := post.(text := f.text, group := f.group, image := f.image);
            Reply(Redirect(PostDetailRoute(post.id)), s.(posts := s.posts[i := edited]))
          case _ => Reply(Render(CreatePostTemplate, FormView(true)), s)
  }

  /** Commenting on a post: a valid form appends one comment by the current
      user on that post; valid or not, the user is sent back to the post. */
  function AddComment(s: Store, session: Session, postId: PostId, form: Form<string>): (r: Reply)
    ensures session.Anonymous? ==> r == Reply(RedirectToLogin(AddCommentRoute(postId)), s)
    ensures r.response.NotFound? <==> session.Authenticated? && postId !in PostIds(s.posts)
    ensures session.Authenticated? && postId in PostIds(s.posts) ==>
      r.response == Redirect(PostDetailRoute(postId))
    ensures r.store.(comments := s.comments, nextCommentId := s.nextCommentId) == s
    ensures session.Authenticated? && postId in PostIds(s.posts) && form.Valid? ==>
      && |r.store.comments| == |s.comments| + 1
      && r.store.comments[..|s.comments|] == s.comments
      && r.store.comments[|s.comments|].author == session.user
      && r.store.comments[|s.comments|].post == postId
      && r.store.comments[|s.comments|].text == form.data
      && (WellFormed(s) ==> forall c :: c in s.comments ==> c.id != r.store.comments[|s.comments|].id)
    ensures !(session.Authenticated? && postId in PostIds(s.posts) && form.Valid?) ==> r.store == s
  {
    match session
    case Anonymous => Reply(RedirectToLogin(AddCommentRoute(postId)), s)
    case Authenticated(user) =>
      match FindPost(s.posts, postId)
      case None => Reply(NotFound, s)
      case Some(_) =>
        match form
        case Valid(text) =>
          var comment := Comment(s.nextCommentId, postId, user, text);
          Reply(Redirect(PostDetailRoute(postId)),
                s.(comments := s.comments + [comment], nextCommentId := s.nextCommentId + 1))
        case _ => Reply(Redirect(PostDetailRoute(postId)), s)
  }

  /** The personal feed: posts of the authors the current user follows. */
  function FollowIndex(s: Store, session: Session, page: Option<int>): (r: Reply)
    ensures r.store == s
    ensures session.Anonymous? ==> r.response == RedirectToLogin(FollowIndexRoute)
    ensures session.Authenticated? ==>
      && r.response.Render? && r.response.template == FollowTemplate
      && r.response.view.FeedView?
      && ShowsPage(r.response.view.page, FollowFeed(s.posts, s.follows, session.user), page)
      && (forall p :: p in r.response.view.page.items ==>
            p in s.posts && Follow(session.user, p.author) in s.follows)
  {
    match session
    case Anonymous => Reply(RedirectToLogin(FollowIndexRoute), s)
    case Authenticated(user) =>
      var posts := FollowFeed(s.posts, s.follows, user);
      var pg := Paginate(posts, page);
      assert forall i :: 0 <= i < |pg.items| ==> pg.items[i] in posts;
      Reply(Render(FollowTemplate, FeedView(pg)), s)
  }

  /** Following an author: never oneself, never twice; every outcome after
      the author lookup redirects to the author's profile. */
  function ProfileFollow(s: Store, session: Session, username: UserName): (r: Reply)
    ensures session.Anonymous? ==> r == Reply(RedirectToLogin(ProfileFollowRoute(username)), s)
    ensures r.store.(follows := s.follows) == s
    ensures s.follows <= r.store.follows
    ensures session.Authenticated? ==> r.store.follows <= s.follows + {Follow(session.user, username)}
    ensures forall u :: Follow(u, u) in r.store.follows ==> Follow(u, u) in s.follows
    ensures r.response.NotFound? <==> session.Authenticated? && username !in s.users
    ensures r.response.NotFound? ==> r.store == s
    ensures session.Authenticated? && username in s.users ==>
      r.response == Redirect(ProfileRoute(username))
    ensures session.Authenticated? && username in s.users && username != session.user ==>
      Follow(session.user, username) in r.store.follows
    ensures session.Authenticated? && username == session.user ==> r.store == s
  {
    match session
    case Anonymous => Reply(RedirectToLogin(ProfileFollowRoute(username)), s)
    case Authenticated(user) =>
      if username !in s.users then Reply(NotFound, s)
      else if username == user then Reply(Redirect(ProfileRoute(username)), s)
      else if Follow(user, username) in s.follows then Reply(Redirect(ProfileRoute(username)), s)
      else Reply(Redirect(ProfileRoute(username)), s.(follows := s.follows + {Follow(user, username)}))
  }

  /** Unfollowing an author: oneself is a no-op, a pair that does not exist
      is not found, and an existing pair is deleted. */
  function ProfileUnfollow(s: Store, session: Session, username: UserName): (r: Reply)
    ensures session.Anonymous? ==> r == Reply(RedirectToLogin(ProfileUnfollowRoute(username)), s)
    ensures r.store.(follows := s.follows) == s
    ensures r.store.follows <= s.follows
    ensures session.Authenticated? ==> s.follows - r.store.follows <= {Follow(session.user, username)}
    ensures r.response.NotFound? <==>
      session.Authenticated? &&
      (username !in s.users || (username != session.user && Follow(session.user, username) !in s.follows))
    ensures r.response.NotFound? ==> r.store == s
    ensures session.Authenticated? && !r.response.NotFound? ==> r.response == Redirect(ProfileRoute(username))
    ensures session.Authenticated? && username == session.user ==> r.store == s
    ensures session.Authenticated? && username in s.users && username != session.user ==>
      Follow(session.user, username) !in r.store.follows
  {
    match session
    case Anonymous => Reply(RedirectToLogin(ProfileUnfollowRoute(username)), s)
    case Authenticated(user) =>
      if username !in s.users then Reply(NotFound, s)
      else if username == user then Reply(Redirect(ProfileRoute(username)), s)
      else if Follow(user, username) !in s.follows then Reply(NotFound, s)
      else Reply(Redirect(ProfileRoute(username)), s.(follows := s.follows - {Follow(user, username)}))
  }
}
