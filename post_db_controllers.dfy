/**
 * controllers/posts.py: the database-backed variant of the post
 * controllers, over the same store. It screens only the body of a post, and
 * its `ctrlGetPost` counts a view.
 */
module PostDbControllers {
  import opened Basics
  import opened Text
  import opened Errors
  import opened Utils
  import opened Toxicity
  import opened Storage
  import opened PostsModel
  import opened PostControllers

  /** `ctrlCreatePost`: only the body is screened, so a toxic title alone
      does not stop the post; a toxic body stops it with `field = "body"`. */
  method CtrlCreatePost(s: Store, clf: Classifier, authorId: nat, title: string, body: string, now: int)
    returns (r: Result<Post>)
    requires s.Valid()
    modifies s
    ensures EnsureNotToxic(body, "body", clf).Fail? ==>
      r == Err(EnsureNotToxic(body, "body", clf).error) && s.State() == old(s.State())
    ensures EnsureNotToxic(body, "body", clf).Pass? ==>
      && r == Ok(Post(old(s.modelPostSeq) + 1, Strip(title), Strip(body), authorId, now, now, 0, 0, 0))
      && s.State() == old(s.State()).(
           posts := old(s.posts)[r.value.id := r.value],
           likes := old(s.likes)[r.value.id := {}],
           comments := old(s.comments)[r.value.id := map[]],
           modelPostSeq := r.value.id)
    ensures s.Valid()
    ensures old(s.CommentCountsTrack()) ==> s.CommentCountsTrack()
  {
    var b := EnsureNotToxic(body, "body", clf);
    if b.Fail? {
      return Err(b.error);
    }
    var p := CreatePost(s, authorId, title, body, now);
    r := Ok(p);
  }

  /** `ctrlGetPost`: counts one view and returns the post with the new
      count; the `KeyError` of a missing post becomes a 404. */
  method CtrlGetPost(s: Store, pid: nat) returns (r: Result<Post>)
    requires s.Valid()
    modifies s
    ensures pid !in old(s.posts) ==> r == Err(NotFound(PostNotFoundMessage)) && s.State() == old(s.State())
    ensures pid in old(s.posts) ==>
      && r == Ok(old(s.posts)[pid].(views := old(s.posts)[pid].views + 1))
      && s.State() == old(s.State()).(posts := old(s.posts)[pid := r.value])
    ensures s.Valid()
    ensures old(s.CommentCountsTrack()) ==> s.CommentCountsTrack()
  {
    var views := IncView(s, pid);
    if views.Err? {
      return Err(NotFound(PostNotFoundMessage));
    }
    var p := GetPost(s, pid);
    if p.None? {
      return Err(NotFound(PostNotFoundMessage));
    }
    r := Ok(p.value.(views := views.value));
  }

  /** `ctrlUpdatePost`: 404, then 403 for anyone but the author, then the
      body screen (the title is not screened), then the update. */
  method CtrlUpdatePost(s: Store, clf: Classifier, pid: nat, authorId: nat, title: string, body: string, now: int)
    returns (r: Result<Post>)
    requires s.Valid()
    modifies s
    ensures pid !in old(s.posts) ==> r == Err(NotFound(PostNotFoundMessage))
    ensures pid in old(s.posts) && old(s.posts)[pid].authorId != authorId ==> r == Err(Forbidden(NoEditRightMessage))
    ensures pid in old(s.posts) && old(s.posts)[pid].authorId == authorId && EnsureNotToxic(body, "body", clf).Fail? ==>
      r == Err(EnsureNotToxic(body, "body", clf).error)
    ensures r.Err? ==> s.State() == old(s.State())
    ensures pid in old(s.posts) && old(s.posts)[pid].authorId == authorId && EnsureNotToxic(body, "body", clf).Pass? ==>
      && r == Ok(old(s.posts)[pid].(title := Strip(title), body := Strip(body), updatedAt := now))
      && s.State() == old(s.State()).(posts := old(s.posts)[pid := r.value])
    ensures s.Valid()
    ensures old(s.CommentCountsTrack()) ==> s.CommentCountsTrack()
  {
    var p := RequirePost(s, pid);
    if p.Err? {
      return Err(p.error);
    }
    if p.value.authorId != authorId {
      return Err(Forbidden(NoEditRightMessage));
    }
    var b := EnsureNotToxic(body, "body", clf);
    if b.Fail? {
      return Err(b.error);
    }
    r := UpdatePost(s, pid, title, body, now);
  }

  /** `ctrlDeletePost`: 404, then 403 for anyone but the author (nothing is
      removed), then the delete. */
  method CtrlDeletePost(s: Store, pid: nat, authorId: nat) returns (r: Result<bool>)
    requires s.Valid()
    modifies s
    ensures pid !in old(s.posts) ==> r == Err(NotFound(PostNotFoundMessage))
    ensures pid in old(s.posts) && old(s.posts)[pid].authorId != authorId ==> r == Err(Forbidden(NoDeleteRightMessage))
    ensures r.Err? ==> s.State() == old(s.State())
    ensures pid in old(s.posts) && old(s.posts)[pid].authorId == authorId ==>
      && r == Ok(true)
      && s.State() == old(s.State()).(
           posts := old(s.posts) - {pid},
           comments := old(s.comments) - {pid},
           likes := old(s.likes) - {pid},
           postImages := old(s.postImages) - {pid})
    ensures s.Valid()
    ensures old(s.CommentCountsTrack()) ==> s.CommentCountsTrack()
  {
    var p := RequirePost(s, pid);
    if p.Err? {
      return Err(p.error);
    }
    if p.value.authorId != authorId {
      return Err(Forbidden(NoDeleteRightMessage));
    }
    var ok := DeletePost(s, pid);
    r := Ok(ok);
  }
}
