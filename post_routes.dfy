/**
 * routersPosts.py: the bodies of the post routes. A route that needs a
 * signed-in user receives the user `getCurrentUser` resolved (`current`);
 * request bodies arrive already checked against their schemas.
 */
module PostRoutes {
  import opened Basics
  import opened Text
  import opened Errors
  import opened Utils
  import opened Collections
  import opened Storage
  import opened PostsModel
  import opened PostControllers

  const DefaultSkip := 0
  const DefaultLimit := 20
  const MaxLimit := 1000

  /** The query-parameter errors FastAPI reports for `skip` and `limit`
      outside `skip >= 0` and `1 <= limit <= 1000`. */
  function QueryErrors(skip: int, limit: int): (items: seq<ErrorItem>)
    ensures items == [] <==> 0 <= skip && 1 <= limit <= MaxLimit
  {
    (if skip < 0 then [ErrorItem([Name("query"), Name("skip")], Some("Input should be greater than or equal to 0"))] else [])
    + (if limit < 1 then [ErrorItem([Name("query"), Name("limit")], Some("Input should be greater than or equal to 1"))]
       else if limit > MaxLimit then [ErrorItem([Name("query"), Name("limit")], Some("Input should be less than or equal to 1000"))]
       else [])
  }

  /** `GET /posts`: the page of `listPosts`, for the admitted `skip` and
      `limit` only (20 when `limit` is absent, 0 when `skip` is): the slice
      `[skip:skip + limit]` of the matching posts, newest first. */
  function ListPostsRoute(s: Store, skip: Option<int>, limit: Option<int>, q: Option<string>): (r: Result<seq<Post>>)
    reads s
    ensures r.Ok? <==> 0 <= skip.GetOr(DefaultSkip) && 1 <= limit.GetOr(DefaultLimit) <= MaxLimit
    ensures r.Err? ==> r.error.RequestInvalid? && r.error.items != []
    ensures r.Ok? ==>
      && 0 <= skip.GetOr(DefaultSkip)
      && var sk: nat, all := skip.GetOr(DefaultSkip), Search(s, q);
         r.value == all[Min(sk, |all|)..Min(sk + limit.GetOr(DefaultLimit), |all|)]
    ensures r.Ok? ==>
      && |r.value| <= limit.GetOr(DefaultLimit)
      && (forall p :: p in r.value ==> p in s.posts.Values && Matches(p, q))
      && (forall i, j :: 0 <= i < j < |r.value| ==> r.value[i].createdAt >= r.value[j].createdAt)
      && (s.Valid() ==> Distinct(r.value))
  {
    var sk := skip.GetOr(DefaultSkip);
    var lim := limit.GetOr(DefaultLimit);
    var errors := QueryErrors(sk, lim);
    if errors != [] then Err(RequestInvalid(errors)) else Ok(ListPosts(s, sk, lim, q))
  }

  /** `GET /posts/{postId}`: 404 for a missing post; otherwise the stored
      post itself gets one more view, and is returned. */
  method GetPostRoute(s: Store, pid: nat) returns (r: Result<Post>)
    requires s.Valid()
    modifies s
    ensures pid !in old(s.posts) ==> r == Err(NotFound(PostNotFoundMessage)) && s.State() == old(s.State())
    ensures pid in old(s.posts) ==>
      && r == Ok(old(s.posts)[pid].(views := old(s.posts)[pid].views + 1))
      && s.State() == old(s.State()).(posts := old(s.posts)[pid := r.value])
    ensures s.Valid()
    ensures old(s.CommentCountsTrack()) ==> s.CommentCountsTrack()
  {
    var p := RequirePost(s, pid);
    if p.Err? {
      return Err(p.error);
    }
    var views := IncView(s, pid);
    r := Ok(s.posts[pid]);
  }

  /** `POST /posts/{postId}/like`: 404 for a missing post (nothing changes,
      not even the like table); otherwise the toggle of `toggleLike`. */
  method ToggleLikeRoute(s: Store, pid: nat, current: User) returns (r: Result<LikeResult>)
    requires s.Valid()
    modifies s
    ensures pid !in old(s.posts) ==> r == Err(NotFound(PostNotFoundMessage)) && s.State() == old(s.State())
    ensures pid in old(s.posts) ==>
      && s.State() == ToggledLike(old(s.State()), pid, current.id)
      && r == Ok(LikeResult(current.id !in LikesOf(old(s.likes), pid), s.posts[pid].likesCount))
    ensures r.Ok? ==> r.value.liked == (current.id in s.likes[pid]) && r.value.likesCount == |s.likes[pid]|
    ensures s.Valid()
    ensures old(s.CommentCountsTrack()) ==> s.CommentCountsTrack()
  {
    var p := RequirePost(s, pid);
    if p.Err? {
      return Err(p.error);
    }
    r := ToggleLike(s, pid, current.id);
  }

  /** `GET /posts/{postId}/comments`: 404 for a missing post, otherwise the
      post's comments, oldest first; the same answer as `ctrlListComments`. */
  function ListCommentsRoute(s: Store, pid: nat): (r: Result<seq<Comment>>)
    reads s
    ensures r == CtrlListComments(s, pid)
    ensures r.Ok? ==> forall i, j :: 0 <= i < j < |r.value| ==> r.value[i].createdAt <= r.value[j].createdAt
  {
    if pid !in s.posts then Err(NotFound(PostNotFoundMessage))
    else Ok(SortBy(ValuesUpTo(CommentsOf(s.comments, pid), s.CommentBound()), OldestFirst))
  }

  /** `POST /posts/{postId}/comments`: 404 for a missing post; otherwise the
      comment takes the next id of storage's own comment counter, is stored
      with its text stripped, and the post's count goes up. The text is not
      screened. */
  method CreateCommentRoute(s: Store, pid: nat, text: string, current: User, now: int) returns (r: Result<Comment>)
    requires s.Valid()
    modifies s
    ensures pid !in old(s.posts) ==> r == Err(NotFound(PostNotFoundMessage)) && s.State() == old(s.State())
    ensures pid in old(s.posts) ==>
      && s.commentSeq == old(s.commentSeq) + 1
      && r == Ok(Comment(s.commentSeq, pid, current.id, Strip(text), now, now))
      && s.State() == WithComment(old(s.State()).(commentSeq := s.commentSeq), r.value)
    ensures s.Valid()
    ensures old(s.CommentCountsTrack() && s.CommentIdsAtMost(s.commentSeq))
      ==> s.CommentCountsTrack() && s.CommentIdsAtMost(s.commentSeq)
  {
    var p := RequirePost(s, pid);
    if p.Err? {
      return Err(p.error);
    }
    var cid := s.commentSeq + 1;
    if s.CommentIdsAtMost(s.commentSeq) {
      NextCommentIdFresh(s.comments, s.commentSeq, Comment(cid, pid, current.id, Strip(text), now, now));
    }
    RaiseBounds(s.posts, s.likes, s.comments, s.modelPostSeq, s.CommentBound(), s.modelPostSeq, Max(cid, s.modelCommentSeq));
    s.SetPostCounters(s.modelPostSeq, cid, s.modelCommentSeq);
    r := AddComment(s, pid, cid, current.id, text, now);
  }

  /** `PUT /posts/{postId}/comments/{commentId}`: 404 for a missing post or
      comment, 403 for anyone but its author; otherwise only the text
      (stripped) and `updatedAt` change. The text is not screened. */
  method UpdateCommentRoute(s: Store, pid: nat, cid: nat, text: string, current: User, now: int)
    returns (r: Result<Comment>)
    requires s.Valid()
    modifies s
    ensures pid !in old(s.posts) ==> r == Err(NotFound(PostNotFoundMessage))
    ensures pid in old(s.posts) && cid !in CommentsOf(old(s.comments), pid) ==> r == Err(NotFound(CommentNotFoundMessage))
    ensures pid in old(s.posts) && cid in CommentsOf(old(s.comments), pid) ==>
      && (old(s.comments)[pid][cid].authorId != current.id ==> r == Err(Forbidden(NoEditRightMessage)))
      && (old(s.comments)[pid][cid].authorId == current.id ==>
            && r == Ok(old(s.comments)[pid][cid].(text := Strip(text), updatedAt := now))
            && s.State() == old(s.State()).(comments := old(s.comments)[pid := CommentsOf(old(s.comments), pid)[cid := r.value]]))
    ensures r.Err? ==> s.State() == old(s.State())
    ensures s.Valid()
    ensures old(s.CommentCountsTrack()) ==> s.CommentCountsTrack()
  {
    var p := RequirePost(s, pid);
    if p.Err? {
      return Err(p.error);
    }
    var postComments := CommentsOf(s.comments, pid);
    if cid !in postComments {
      return Err(NotFound(CommentNotFoundMessage));
    }
    if postComments[cid].authorId != current.id {
      return Err(Forbidden(NoEditRightMessage));
    }
    r := UpdateComment(s, pid, cid, text, now);
  }

  /** `DELETE /posts/{postId}/comments/{commentId}`: 404 for a missing post
      or comment, 403 for anyone but its author (nothing is removed);
      otherwise the comment goes and the post's count goes down, floored at 0. */
  method DeleteCommentRoute(s: Store, pid: nat, cid: nat, current: User) returns (r: Result<bool>)
    requires s.Valid()
    modifies s
    ensures pid !in old(s.posts) ==> r == Err(NotFound(PostNotFoundMessage))
    ensures pid in old(s.posts) && cid !in CommentsOf(old(s.comments), pid) ==> r == Err(NotFound(CommentNotFoundMessage))
    ensures pid in old(s.posts) && cid in CommentsOf(old(s.comments), pid) ==>
      && (old(s.comments)[pid][cid].authorId != current.id ==> r == Err(Forbidden(NoDeleteRightMessage)))
      && (old(s.comments)[pid][cid].authorId == current.id ==>
            r == Ok(true) && s.State() == WithoutComment(old(s.State()), pid, cid))
    ensures r.Err? ==> s.State() == old(s.State())
    ensures s.Valid()
    ensures old(s.CommentCountsTrack()) ==> s.CommentCountsTrack()
  {
    var p := RequirePost(s, pid);
    if p.Err? {
      return Err(p.error);
    }
    var postComments := CommentsOf(s.comments, pid);
    if cid !in postComments {
      return Err(NotFound(CommentNotFoundMessage));
    }
    if postComments[cid].authorId != current.id {
      return Err(Forbidden(NoDeleteRightMessage));
    }
    r := DeleteComment(s, pid, cid);
  }

  /** `DELETE /posts/{postId}/image`: 404 for a missing post, 403 for anyone
      but the author; otherwise the image, if any, is removed, so a second
      call by the author changes nothing. */
  method DeletePostImageRoute(s: Store, pid: nat, current: User) returns (r: Result<bool>)
    requires s.Valid()
    modifies s
    ensures pid !in old(s.posts) ==> r == Err(NotFound(PostNotFoundMessage))
    ensures pid in old(s.posts) && old(s.posts)[pid].authorId != current.id ==> r == Err(Forbidden())
    ensures r.Err? ==> s.State() == old(s.State())
    ensures pid in old(s.posts) && old(s.posts)[pid].authorId == current.id ==>
      r == Ok(true) && s.State() == old(s.State()).(postImages := old(s.postImages) - {pid})
    ensures pid !in old(s.postImages) ==> s.State() == old(s.State())
    ensures s.Valid()
    ensures old(s.CommentCountsTrack()) ==> s.CommentCountsTrack()
  {
    var p := RequirePost(s, pid);
    if p.Err? {
      return Err(p.error);
    }
    if p.value.authorId != current.id {
      return Err(Forbidden());
    }
    var ok := DeleteImage(s, pid);
    r := Ok(ok);
  }
}
