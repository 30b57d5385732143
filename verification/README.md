# Yatube posts views in Dafny

A functional model of the request handlers of Yatube's `posts` application, a
small blog where users write posts, put them in groups, comment on them and
follow other authors to get a personal feed.

Each view is a pure function from the store and the request's inputs to a
`Reply`: the response and the store after the request. The store
(`Models.Store`) holds the registered usernames, the groups by slug, the posts
as a sequence already in feed order (newest first), the comments, the set of
`(follower, author)` follow pairs, and the next free primary keys for posts
and comments. A response is one of:

- `Render(template, view)`: a page with the data it shows;
- `Redirect(route)`;
- `NotFound`;
- `RedirectToLogin(next)`: the login requirement turning an anonymous visitor away.

Modules:

- `Models` (`models.dfy`): entities, the store, and `WellFormed`. `WellFormed` is the store invariant: distinct and fresh primary keys; a post's author, a comment's author and post, and both ends of a follow pair exist; no self-follow. A post's group is not covered.
- `Paginator` (`paginator.dfy`): pages of `PostsPerPage = 10` (`POSTS_CONST`), page-number resolution, and the page slice.
- `Feeds` (`feeds.dfy`): the group, author and follow feeds as order-preserving filters, and lookup of a post by primary key.
- `Views` (`views.dfy`): the ten handlers.
- `FollowProperties`, `PostProperties`, `FeedProperties` and `Invariants`: lemmas that relate several handler calls to each other.

Templates map as follows:

- `IndexTemplate`: `posts/index.html`
- `GroupListTemplate`: `posts/group_list.html`
- `ProfileTemplate`: `posts/profile.html`
- `PostDetailTemplate`: `posts/post_detail.html`
- `CreatePostTemplate`: `posts/create_post.html`, used for both creating and editing
- `FollowTemplate`: `posts/follow.html`

Form handling is abstract. A handler receives `Form<T>`, which is one of:

- `Unbound`: a GET request;
- `Invalid`: submitted data the form rejected;
- `Valid(data)`: the cleaned data.

`form.is_valid()` is true exactly for `Valid`.

## Model

| member | source | states |
|---|---|---|
| `Paginator.NumPages` | yatube/posts/views.py:8-15 | at least one page; the pages hold all items; the last page is not empty unless the feed is |
| `Paginator.ResolvePage` | yatube/posts/views.py:14-15 | the served page is always a real page; a valid requested number is served as is |
| `Paginator.Paginate` | yatube/posts/views.py:13-15 | page n holds feed items `(n-1)*10` up to `min(n*10, len)`, in order; at most 10 items, exactly 10 on every page but the last |
| `Paginator.PagesReassembleFeed` | yatube/posts/views.py:13-15 | reading pages 1..numPages in order gives back the whole feed: nothing lost or repeated |
| `Paginator.ItemPlacement` | yatube/posts/views.py:13-15 | the feed item at position i is on page `i/10 + 1` at position `i%10` |
| `Paginator.ThirteenItems` | yatube/posts/tests/test_views.py:269-297 | 13 posts make 2 pages, holding 10 and 3 posts |
| `Feeds.GroupFeed` | yatube/posts/views.py:28-29 | exactly the posts whose group is the given slug |
| `Feeds.AuthorFeed` | yatube/posts/views.py:45-46 | exactly the posts by the given author |
| `Feeds.FollowFeed` | yatube/posts/views.py:132 | exactly the posts whose author the user follows |
| `Feeds.CommentsOf` | yatube/posts/views.py:77 | exactly the comments attached to the given post |
| `Feeds.FindPost` | yatube/posts/views.py:71 | finds the first post with the key, or reports that no post has it (the 404 case) |
| `Feeds.FilterConcat` | yatube/posts/views.py:29 | filtering distributes over concatenation, so feeds keep store order |
| `Views.Index` | yatube/posts/views.py:11-23 | store unchanged; renders the requested page of all posts |
| `Views.GroupPosts` | yatube/posts/views.py:26-40 | NotFound exactly for an unknown slug; otherwise the page shows only posts of that group; store unchanged |
| `Views.Profile` | yatube/posts/views.py:43-67 | NotFound exactly for an unknown user; the page holds only that author's posts; the post count is the author's total; `following` holds exactly when a signed-in viewer follows the author |
| `Views.PostDetail` | yatube/posts/views.py:70-86 | NotFound exactly for a missing key; otherwise shows the post with that key, its author's post count, and exactly its comments |
| `Views.PostCreate` | yatube/posts/views.py:89-98 | anonymous: login redirect, no change; invalid form: re-render, no change; valid form: exactly one new post on top with the session user as author and a fresh key, redirect to that user's profile, nothing else changes |
| `Views.PostEdit` | yatube/posts/views.py:101-115 | only posts change, and only the post with that key; keys and authors are never changed; a non-author gets a redirect to the post and no change; the author's valid form sets the text, group and image, then redirects to the post |
| `Views.AddComment` | yatube/posts/views.py:118-127 | NotFound exactly for a missing post; every other signed-in case redirects to the post; a valid form appends exactly one comment with the session user as author, that post as target and a fresh key; otherwise no change |
| `Views.FollowIndex` | yatube/posts/views.py:130-139 | anonymous: login redirect; signed-in: the page holds only posts of followed authors; store unchanged |
| `Views.ProfileFollow` | yatube/posts/views.py:142-163 | only the follow set changes, and only by adding the (user, author) pair; no self-follow pair is ever created; NotFound exactly for an unknown author; otherwise redirects to the author's profile, and the pair is present afterwards unless the author is the user |
| `Views.ProfileUnfollow` | yatube/posts/views.py:166-179 | only the follow set changes, and only by removing the (user, author) pair; NotFound exactly for an unknown author or a missing pair, with no change; self-unfollow changes nothing; otherwise redirects to the profile and the pair is gone |
| `FollowProperties.FollowSelfIsNoOp` | yatube/posts/views.py:145-149 | following oneself redirects to one's profile with the store unchanged |
| `FollowProperties.FollowIsIdempotent` | yatube/posts/views.py:150-158 | repeating a follow request gives the same reply and store as sending it once |
| `FollowProperties.FollowAddsExactlyThePair` | yatube/posts/views.py:159-163 | a new follow adds exactly that pair and redirects to the profile |
| `FollowProperties.UnfollowSelfIsNoOp` | yatube/posts/views.py:169-173 | unfollowing oneself redirects to one's profile with the store unchanged |
| `FollowProperties.UnfollowRemovesExactlyThePair` | yatube/posts/views.py:174-179 | unfollowing an existing pair removes exactly that pair and redirects to the profile |
| `FollowProperties.UnfollowTwiceIsNotFound` | yatube/posts/views.py:174 | an unfollow after an unfollow is NotFound with no change |
| `FollowProperties.UnfollowUndoesFollow` | yatube/posts/views.py:142-179 | following a new author and then unfollowing restores the original store |
| `FollowProperties.FollowUndoesUnfollow` | yatube/posts/views.py:142-179 | unfollowing and then following again restores the original store |
| `FollowProperties.FollowBringsAuthorIntoFeed` | yatube/posts/tests/test_views.py:464-488 | after a follow, every post of that author is in the follower's feed |
| `FollowProperties.UnfollowTakesAuthorOutOfFeed` | yatube/posts/views.py:130-179 | after an unfollow, no post of that author is in the feed |
| `FollowProperties.ProfileFlagTracksFollow` | yatube/posts/views.py:51-56 | the profile's `following` flag is set after a follow and cleared after an unfollow |
| `FeedProperties.FollowFeedEmptyWithoutFollows` | yatube/posts/tests/test_views.py:512-530 | a user who follows nobody has an empty personal feed |
| `FeedProperties.NewPostReachesFollowers` | yatube/posts/tests/test_views.py:489-510 | a new post by a followed author goes on top of the follower's feed, above the previous feed |
| `FeedProperties.NewPostSkipsNonFollowers` | yatube/posts/tests/test_views.py:531-552 | a new post by an author the user does not follow leaves that user's feed unchanged |
| `FeedProperties.NewPostTopsAuthorProfile` | yatube/posts/views.py:43-49 | a new post is the first item on page 1 of its author's profile |
| `FeedProperties.GroupFeedKeepsOrder` | yatube/posts/views.py:28-29 | the group feed keeps store order: it splits wherever the post sequence splits |
| `FeedProperties.FollowFeedKeepsOrder` | yatube/posts/views.py:132 | the personal feed keeps store order in the same way |
| `FeedProperties.PageShowsOnlyFeedItems` | yatube/posts/views.py:13-15 | every item on a served page belongs to the feed it was cut from |
| `PostProperties.EditByNonAuthorChangesNothing` | yatube/posts/views.py:104-106 | whatever a non-author submits, the reply is a redirect to the post's page and the store is unchanged |
| `PostProperties.EditByAuthorReplacesOnlyThatPost` | yatube/posts/views.py:107-114 | the author's valid edit changes exactly that post's text, group and image, then redirects to the post |
| `PostProperties.EditIsIdempotent` | yatube/posts/views.py:101-115 | submitting the same edit twice gives the same result as submitting it once |
| `PostProperties.CreatedPostIsShown` | yatube/posts/views.py:92-97 | after a valid create, the detail page for the new key shows exactly the submitted post by the session user |
| `PostProperties.CommentIsShown` | yatube/posts/views.py:118-127 | after a valid comment, the post's detail page lists it with the commenter as author |
| `Invariants.PostCreatePreservesWellFormed` | yatube/posts/views.py:92-97 | creating a post keeps keys distinct and fresh, and keeps the post author, comment author and post, and both ends of every follow pair pointing at existing rows |
| `Invariants.PostEditPreservesWellFormed` | yatube/posts/views.py:107-114 | editing keeps the store well formed |
| `Invariants.AddCommentPreservesWellFormed` | yatube/posts/views.py:121-126 | commenting keeps the store well formed |
| `Invariants.ProfileFollowPreservesWellFormed` | yatube/posts/views.py:145-159 | following never creates a self-follow or a dangling pair |
| `Invariants.ProfileUnfollowPreservesWellFormed` | yatube/posts/views.py:174-175 | unfollowing keeps the store well formed |

Two behaviours of the views worth noting:

- An unfollow of a pair that does not exist answers NotFound (`yatube/posts/views.py:174`); only the other outcomes redirect to the profile.
- A GET on the add-comment route binds no data, so the form is not valid and the view redirects to the post's detail page like any other failed submission (`yatube/posts/views.py:121-127`).

## Left out

- Template rendering, page titles and presentation-only context entries. A `Render` keeps the template and the data it shows.
- The home-page cache. `views.py` does not implement it, and its time-based staleness has no place in a sequential model.
- `Paginator.ResolvePage` follows Django's `Paginator.get_page`, which lies outside the modelled `views.py`. A missing or non-integer `page` parameter is modelled as `None`, giving page 1. An out-of-range number gives the last page.
- The post and comment forms' validation rules and image-upload file naming. Validity is an input (`Form<T>`), and the cleaned fields are taken as given. In particular, a post's group is not checked against the existing groups.
- The login machinery and the login URL format. Only the anonymous-to-`RedirectToLogin(route)` branch is modelled, and it changes nothing.
- Timestamps and the default newest-first ordering. The store's post sequence is assumed to be in feed order already, and a created post is put at its front. Comments are appended, because their ordering is set by the Comment model, which lies outside the modelled `views.py`.
- HTTP method dispatch and URL routing. Each handler is called directly with its parameters.
- `FollowProperties.FollowIsIdempotent`: follow pairs are a set, so duplicate Follow rows cannot be represented and the lemma would hold even without the existence check at `yatube/posts/views.py:150-158`; it does not test that check.
- `Invariants.PostCreatePreservesWellFormed`: a created post's group is not shown to exist, because the group's existence is checked by the post form's choice field, whose validation is not modelled.
- The check-then-create race in `profile_follow` under concurrent requests, database transactions, and the `about` pages.
