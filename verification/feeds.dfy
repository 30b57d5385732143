/** The queries behind the views: every feed is a filter of the store's post
    sequence (which is already in feed order), and a post is looked up by its
    primary key. */
module Feeds {

  import opened Models

  /** The elements of `xs` that satisfy `keep`, in their original order. */
  function Filter<T>(xs: seq<T>, keep: T -> bool): (r: seq<T>)
    ensures |r| <= |xs|
    ensures forall i :: 0 <= i < |r| ==> r[i] in xs && keep(r[i])
    ensures forall i :: 0 <= i < |xs| && keep(xs[i]) ==> xs[i] in r
  {
    if |xs| == 0 then []
    else (if keep(xs[0]) then [xs[0]] else []) + Filter(xs[1..], keep)
  }

  /** Filtering distributes over concatenation: the relative order of kept
      items is the order of the input. */
  lemma {:induction false} FilterConcat<T>(a: seq<T>, b: seq<T>, keep: T -> bool)
    ensures Filter(a + b, keep) == Filter(a, keep) + Filter(b, keep)
  {
    if |a| == 0 {
      assert a + b == b;
    } else {
      assert (a + b)[1..] == a[1..] + b;
      FilterConcat(a[1..], b, keep);
    }
  }

  /** Prepending an item to the input prepends it to the output exactly
      when it is kept. */
  lemma FilterCons<T>(x: T, xs: seq<T>, keep: T -> bool)
    ensures Filter([x] + xs, keep) == (if keep(x) then [x] else []) + Filter(xs, keep)
  {
    FilterConcat([x], xs, keep);
    assert [x][1..] == [];
  }

  /** Filtering by a predicate nothing satisfies gives the empty feed. */
  lemma {:induction false} FilterNone<T>(xs: seq<T>, keep: T -> bool)
    requires forall i :: 0 <= i < |xs| ==> !keep(xs[i])
    ensures Filter(xs, keep) == []
  {
    if |xs| > 0 {
      FilterNone(xs[1..], keep);
    }
  }

  /** Posts of the group with slug `slug` (the group's related posts). */
  function GroupFeed(posts: seq<Post>, slug: Slug): (r: seq<Post>)
    ensures forall p :: p in r <==> p in posts && p.group == Some(slug)
  {
    Filter(posts, (p: Post) => p.group == Some(slug))
  }

  /** Posts written by `author`. */
  function AuthorFeed(posts: seq<Post>, author: UserName): (r: seq<Post>)
    ensures forall p :: p in r <==> p in posts && p.author == author
  {
    Filter(posts, (p: Post) => p.author == author)
  }

  /** Posts whose author `user` follows: the join of posts with the follow
      pairs whose follower is `user`. Because the pairs form a set, a post
      appears once however it was reached. */
  function FollowFeed(posts: seq<Post>, follows: set<Follow>, user: UserName): (r: seq<Post>)
    ensures forall p :: p in r <==> p in posts && Follow(user, p.author) in follows
  {
    Filter(posts, (p: Post) => Follow(user, p.author) in follows)
  }

  /** Comments attached to the post with primary key `id`. */
  function CommentsOf(comments: seq<Comment>, id: PostId): (r: seq<Comment>)
    ensures forall c :: c in r <==> c in comments && c.post == id
  {
    Filter(comments, (c: Comment) => c.post == id)
  }

  /** Index of the post with primary key `id`, if there is one (the lookup
      that answers "not found" otherwise). */
  function FindPost(posts: seq<Post>, id: PostId): (r: Option<nat>)
    ensures r.Some? ==> r.value < |posts| && posts[r.value].id == id
    ensures r.Some? ==> forall j :: 0 <= j < r.value ==> posts[j].id != id
    ensures r.None? <==> id !in PostIds(posts)
  {
    if |posts| == 0 then None
    else if posts[0].id == id then Some(0)
    else match FindPost(posts[1..], id)
      case None => None
      case Some(k) => Some(k + 1)
  }
}
