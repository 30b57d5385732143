/** Properties of creating, editing and commenting on posts, each related to
    the view that reads the result back. */
module PostProperties {

  import opened Models
  import opened Views
  import opened Invariants

  /** A user who is not a post's author cannot change it: the edit view
      sends them to the post's page and the store is untouched, whatever
      they submitted. */
  lemma EditByNonAuthorChangesNothing(s: Store, user: UserName, i: nat, form: Form<PostFields>)
    requires WellFormed(s)
    requires i < |s.posts| && s.posts[i].author != user
    ensures PostEdit(s, Authenticated(user), s.posts[i].id, form)
         == Reply(Redirect(PostDetailRoute(s.posts[i].id)), s)
  {
  }

  /** The author's valid edit replaces that post's text, group and image and
      leaves every other post, and everything else, as it was. */
  lemma EditByAuthorReplacesOnlyThatPost(s: Store, i: nat, fields: PostFields)
    requires WellFormed(s)
    requires i < |s.posts|
    ensures var p := s.posts[i];
            PostEdit(s, Authenticated(p.author), p.id, Valid(fields))
              == Reply(Redirect(PostDetailRoute(p.id)),
                       s.(posts := s.posts[i := p.(text := fields.text, group := fields.group, image := fields.image)]))
  {
    var p := s.posts[i];
    var r := PostEdit(s, Authenticated(p.author), p.id, Valid(fields));
    var expected := s.posts[i := p.(text := fields.text, group := fields.group, image := fields.image)];
    assert r.store.posts == expected by {
      forall j | 0 <= j < |s.posts|
        ensures r.store.posts[j] == expected[j]
      {
        if j != i {
          assert s.posts[j].id != p.id;
        }
      }
    }
  }

  /** Submitting the same edit twice has the effect of submitting it once. */
  lemma EditIsIdempotent(s: Store, session: Session, postId: PostId, form: Form<PostFields>)
    requires WellFormed(s)
    ensures var once := PostEdit(s, session, postId, form);
            PostEdit(once.store, session, postId, form) == once
  {
    var once := PostEdit(s, session, postId, form);
    if once.store != s {
      var i :| 0 <= i < |s.posts| && s.posts[i].id == postId;
      AuthorEditTwice(s, i, form.data);
    }
  }

  /** The author's valid edit, applied a second time, finds the post already
      carrying the submitted fields. */
  lemma AuthorEditTwice(s: Store, i: nat, fields: PostFields)
    requires WellFormed(s)
    requires i < |s.posts|
    ensures var p := s.posts[i];
            var once := PostEdit(s, Authenticated(p.author), p.id, Valid(fields));
            PostEdit(once.store, Authenticated(p.author), p.id, Valid(fields)) == once
  {
    var p := s.posts[i];
    var once := PostEdit(s, Authenticated(p.author), p.id, Valid(fields));
    EditByAuthorReplacesOnlyThatPost(s, i, fields);
    var t := once.store;
    PostEditPreservesWellFormed(s, Authenticated(p.author), p.id, Valid(fields));
    EditByAuthorReplacesOnlyThatPost(t, i, fields);
    assert t.posts[i := t.posts[i].(text := fields.text, group := fields.group, image := fields.image)] == t.posts;
  }

  /** The post a valid create request stores is the one the detail view
      then shows under the new primary key. */
  lemma CreatedPostIsShown(s: Store, user: UserName, fields: PostFields)
    requires WellFormed(s)
    ensures var after := PostCreate(s, Authenticated(user), Valid(fields)).store;
            var shown := PostDetail(after, s.nextPostId).response;
            && shown.Render? && shown.view.DetailView?
            && shown.view.post == Post(s.nextPostId, fields.text, user, fields.group, fields.image)
  {
    var after := PostCreate(s, Authenticated(user), Valid(fields)).store;
    assert after.posts[0].id == s.nextPostId;
    assert s.nextPostId in PostIds(after.posts);
    var shown := PostDetail(after, s.nextPostId).response;
    var k :| 0 <= k < |after.posts| && after.posts[k] == shown.view.post;
    if k != 0 {
      assert after.posts[k] == s.posts[k - 1];
    }
  }

  /** A valid comment is listed on the post's detail page afterwards, with
      the commenter as its author. */
  lemma CommentIsShown(s: Store, user: UserName, postId: PostId, text: string)
    requires postId in PostIds(s.posts)
    ensures var after := AddComment(s, Authenticated(user), postId, Valid(text)).store;
            var shown := PostDetail(after, postId).response;
            && shown.Render? && shown.view.DetailView?
            && Comment(s.nextCommentId, postId, user, text) in shown.view.comments
  {
    var after := AddComment(s, Authenticated(user), postId, Valid(text)).store;
    assert after.comments[|s.comments|] == Comment(s.nextCommentId, postId, user, text);
  }
}
