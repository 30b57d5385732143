/** Every handler that writes keeps the store well formed: primary keys stay
    distinct and fresh keys stay fresh; a post's author, a comment's author
    and post, and both ends of a follow pair keep pointing at existing rows;
    and no follow pair ever has the same user at both ends. A post's group is
    not covered. */
module Invariants {

  import opened Models
  import opened Feeds
  import opened Views

  lemma PostCreatePreservesWellFormed(s: Store, session: Session, form: Form<PostFields>)
    requires WellFormed(s) && SessionOk(s, session)
    ensures WellFormed(PostCreate(s, session, form).store)
  {
    var t := PostCreate(s, session, form).store;
    if session.Authenticated? && form.Valid? {
      assert t.posts == [t.posts[0]] + s.posts;
      assert forall i :: 1 <= i < |t.posts| ==> t.posts[i] == s.posts[i - 1];
      assert PostIds(s.posts) <= PostIds(t.posts) by {
        forall id | id in PostIds(s.posts)
          ensures id in PostIds(t.posts)
        {
          var k :| 0 <= k < |s.posts| && s.posts[k].id == id;
          assert t.posts[k + 1].id == id;
        }
      }
    }
  }

  /** The ids of a post sequence, position by position, determine its set of
      ids. */
  lemma SameIdsSamePostIds(a: seq<Post>, b: seq<Post>)
    requires |a| == |b|
    requires forall i :: 0 <= i < |a| ==> a[i].id == b[i].id
    ensures PostIds(a) == PostIds(b)
  {
    forall id | id in PostIds(a)
      ensures id in PostIds(b)
    {
      var k :| 0 <= k < |a| && a[k].id == id;
      assert b[k].id == id;
    }
    forall id | id in PostIds(b)
      ensures id in PostIds(a)
    {
      var k :| 0 <= k < |b| && b[k].id == id;
      assert a[k].id == id;
    }
  }

  lemma PostEditPreservesWellFormed(s: Store, session: Session, postId: PostId, form: Form<PostFields>)
    requires WellFormed(s)
    ensures WellFormed(PostEdit(s, session, postId, form).store)
  {
    var t := PostEdit(s, session, postId, form).store;
    if t != s {
      var i := FindPost(s.posts, postId).value;
      var f := form.data;
      assert t.posts == s.posts[i := s.posts[i].(text := f.text, group := f.group, image := f.image)];
      assert t.(posts := s.posts) == s;
      SameIdsSamePostIds(s.posts, t.posts);
      assert forall j :: 0 <= j < |t.posts| ==> t.posts[j].id == s.posts[j].id && t.posts[j].author == s.posts[j].author;
    }
  }

  lemma AddCommentPreservesWellFormed(s: Store, session: Session, postId: PostId, form: Form<string>)
    requires WellFormed(s) && SessionOk(s, session)
    ensures WellFormed(AddComment(s, session, postId, form).store)
  {
  }

  lemma ProfileFollowPreservesWellFormed(s: Store, session: Session, username: UserName)
    requires WellFormed(s) && SessionOk(s, session)
    ensures WellFormed(ProfileFollow(s, session, username).store)
  {
  }

  lemma ProfileUnfollowPreservesWellFormed(s: Store, session: Session, username: UserName)
    requires WellFormed(s)
    ensures WellFormed(ProfileUnfollow(s, session, username).store)
  {
  }
}
