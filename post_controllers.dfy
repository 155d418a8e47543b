/**
 * controllersPosts.py: the post, comment and image controllers over the
 * in-memory store. Each one checks, in order, that the post exists, that the
 * caller is its author, that the text is present and that it passes the
 * toxicity screen, and only then calls the store operation.
 */
module PostControllers {
  import opened Basics
  import opened Text
  import opened Errors
  import opened Utils
  import opened Toxicity
  import opened Storage
  import opened PostsModel

  const PostNotFoundMessage := "게시글을 찾을 수 없습니다."
  const NoEditRightMessage := "수정 권한이 없습니다."
  const NoDeleteRightMessage := "삭제 권한이 없습니다."
  const CommentNotFoundMessage := "댓글을 찾을 수 없습니다."
  const NoImageMessage := "이미지가 없습니다."
  const CommentRequiredMessage := "*댓글 내용을 입력해주세요."
  const ToxicMessage := "*부적절한 표현이 포함되어 있습니다. 내용을 수정해주세요."

  /** The `fields` of a rejected text: why, the model's score and label, and
      which input field was rejected. */
  function ToxicFields(v: Verdict, field: string): Fields {
    map["reason" := Str("toxic_language"), "score" := Num(v.score),
        "label" := Str(v.labelName), "field" := Str(field)]
  }

  /** `_ensure_not_toxic(text, field)`: passes exactly when the text is not
      toxic; otherwise a 400 `BAD_REQUEST` naming the field, with the model's
      label and score. */
  function EnsureNotToxic(text: string, field: string, clf: Classifier): (r: Outcome)
    ensures r.Pass? <==> !IsToxic(CheckToxicity(text, clf).labelName, CheckToxicity(text, clf).score)
    ensures r.Fail? ==>
      && InTaxonomy(r.error) && r.error.status == 400 && CodeOf(r.error) == "BAD_REQUEST"
      && r.error.detail.message == Some(ToxicMessage)
      && r.error.detail.fields == Some(ToxicFields(CheckToxicity(text, clf), field))
    ensures IsBlank(text) ==> r.Pass?
  {
    var v := CheckToxicity(text, clf);
    if v.isToxic then Fail(BadRequest(ToxicMessage, Some(ToxicFields(v, field)))) else Pass
  }

  /** `_requirePost(pid)`: the stored post, or 404 with the post message. */
  function RequirePost(s: Store, pid: nat): (r: Result<Post>)
    reads s
    ensures r.Ok? <==> pid in s.posts
    ensures r.Ok? ==> r.value == s.posts[pid]
    ensures r.Err? ==> r.error == NotFound(PostNotFoundMessage)
  {
    match GetPost(s, pid)
    case None => Err(NotFound(PostNotFoundMessage))
    case Some(p) => Ok(p)
  }

  /** `ctrlCreatePost`: screens the title, then the body; the post is created
      only when both pass, and the error names the first rejected field. */
  method CtrlCreatePost(s: Store, clf: Classifier, authorId: nat, title: string, body: string, now: int)
    returns (r: Result<Post>)
    requires s.Valid()
    modifies s
    ensures EnsureNotToxic(title, "title", clf).Fail? ==>
      r == Err(EnsureNotToxic(title, "title", clf).error) && s.State() == old(s.State())
    ensures EnsureNotToxic(title, "title", clf).Pass? && EnsureNotToxic(body, "body", clf).Fail? ==>
      r == Err(EnsureNotToxic(body, "body", clf).error) && s.State() == old(s.State())
    ensures EnsureNotToxic(title, "title", clf).Pass? && EnsureNotToxic(body, "body", clf).Pass? ==>
      && r == Ok(Post(old(s.modelPostSeq) + 1, Strip(title), Strip(body), authorId, now, now, 0, 0, 0))
      && s.State() == old(s.State()).(
           posts := old(s.posts)[r.value.id := r.value],
           likes := old(s.likes)[r.value.id := {}],
           comments := old(s.comments)[r.value.id := map[]],
           modelPostSeq := r.value.id)
    ensures s.Valid()
    ensures old(s.CommentCountsTrack()) ==> s.CommentCountsTrack()
  {
    var t := EnsureNotToxic(title, "title", clf);
    if t.Fail? {
      return Err(t.error);
    }
    var b := EnsureNotToxic(body, "body", clf);
    if b.Fail? {
      return Err(b.error);
    }
    var p := CreatePost(s, authorId, title, body, now);
    r := Ok(p);
  }

  /** `ctrlIncView`: 404 for a missing post, otherwise one more view. */
  method CtrlIncView(s: Store, pid: nat) returns (r: Result<nat>)
    requires s.Valid()
    modifies s
    ensures pid !in old(s.posts) ==> r == Err(NotFound(PostNotFoundMessage)) && s.State() == old(s.State())
    ensures pid in old(s.posts) ==>
      && r == Ok(old(s.posts)[pid].views + 1)
      && s.State() == old(s.State()).(posts := old(s.posts)[pid := old(s.posts)[pid].(views := r.value)])
    ensures s.Valid()
    ensures old(s.CommentCountsTrack()) ==> s.CommentCountsTrack()
  {
    var p := RequirePost(s, pid);
    if p.Err? {
      return Err(p.error);
    }
    r := IncView(s, pid);
  }

  /** `ctrlUpdatePost`: 404 for a missing post, then 403 for anyone but the
      author, then the title and body screens; the post changes only after
      all of them pass. */
  method CtrlUpdatePost(s: Store, clf: Classifier, pid: nat, authorId: nat, title: string, body: string, now: int)
    returns (r: Result<Post>)
    requires s.Valid()
    modifies s
    ensures pid !in old(s.posts) ==> r == Err(NotFound(PostNotFoundMessage))
    ensures pid in old(s.posts) && old(s.posts)[pid].authorId != authorId ==> r == Err(Forbidden(NoEditRightMessage))
    ensures pid in old(s.posts) && old(s.posts)[pid].authorId == authorId ==>
      && (EnsureNotToxic(title, "title", clf).Fail? ==> r == Err(EnsureNotToxic(title, "title", clf).error))
      && (EnsureNotToxic(title, "title", clf).Pass? && EnsureNotToxic(body, "body", clf).Fail? ==>
            r == Err(EnsureNotToxic(body, "body", clf).error))
    ensures r.Err? ==> s.State() == old(s.State())
    ensures r.Ok? ==>
      && pid in old(s.posts) && old(s.posts)[pid].authorId == authorId
      && EnsureNotToxic(title, "title", clf).Pass? && EnsureNotToxic(body, "body", clf).Pass?
      && r.value == old(s.posts)[pid].(title := Strip(title), body := Strip(body), updatedAt := now)
      && s.State() == old(s.State()).(posts := old(s.posts)[pid := r.value])
    ensures (pid in old(s.posts) && old(s.posts)[pid].authorId == authorId
             && EnsureNotToxic(title, "title", clf).Pass? && EnsureNotToxic(body, "body", clf).Pass?) ==> r.Ok?
    ensures s.Valid()
    ensures old(s.CommentCountsTrack()) ==> s.CommentCountsTrack()
  {
    var p := RequirePost(s, pid);
    if p.Err? {
      return Err(p.error);
    }
    if p.value.authorId != authorId {
      return Err(Forbidden(NoEditRightMessage));
    }
    var t := EnsureNotToxic(title, "title", clf);
    if t.Fail? {
      return Err(t.error);
    }
    var b := EnsureNotToxic(body, "body", clf);
    if b.Fail? {
      return Err(b.error);
    }
    r := UpdatePost(s, pid, title, body, now);
  }

  /** `ctrlDeletePost`: 404 for a missing post, 403 for anyone but the author
      (nothing is removed), otherwise the post and everything under it go. */
  method CtrlDeletePost(s: Store, pid: nat, authorId: nat) returns (r: Result<bool>)
    requires s.Valid()
    modifies s
    ensures pid !in old(s.posts) ==> r == Err(NotFound(PostNotFoundMessage))
    ensures pid in old(s.posts) && old(s.posts)[pid].authorId != authorId ==> r == Err(Forbidden(NoDeleteRightMessage))
    ensures r.Err? ==> s.State() == old(s.State())
    ensures pid in old(s.posts) && old(s.posts)[pid].authorId == authorId ==>
      && r == Ok(true)
      && s.State() == old(s.State()).(
           posts := old(s.posts) - {pid},
           comments := old(s.comments) - {pid},
           likes := old(s.likes) - {pid},
           postImages := old(s.postImages) - {pid})
    ensures s.Valid()
    ensures old(s.CommentCountsTrack()) ==> s.CommentCountsTrack()
  {
    var p := RequirePost(s, pid);
    if p.Err? {
      return Err(p.error);
    }
    if p.value.authorId != authorId {
      return Err(Forbidden(NoDeleteRightMessage));
    }
    var ok := DeletePost(s, pid);
    r := Ok(ok);
  }

  /** `ctrlListComments`: 404 for a missing post, otherwise its comments. */
  function CtrlListComments(s: Store, pid: nat): (r: Result<seq<Comment>>)
    reads s
    ensures r.Err? <==> pid !in s.posts
    ensures r.Err? ==> r.error == NotFound(PostNotFoundMessage)
    ensures r.Ok? ==> r.value == ListComments(s, pid)
  {
    var p := RequirePost(s, pid);
    if p.Err? then Err(p.error) else Ok(ListComments(s, pid))
  }

  /** `{c["id"]: c for c in cs}`: later comments win on equal ids. */
  function IndexById(cs: seq<Comment>): map<nat, Comment> {
    if cs == [] then map[]
    else IndexById(cs[..|cs| - 1])[cs[|cs| - 1].id := cs[|cs| - 1]]
  }

  /** The index has an entry for exactly the ids in the list, and each entry
      is a listed comment with that id. */
  lemma {:induction false} IndexByIdSpec(cs: seq<Comment>)
    ensures forall c :: c in cs ==> c.id in IndexById(cs)
    ensures forall id :: id in IndexById(cs) ==> IndexById(cs)[id] in cs && IndexById(cs)[id].id == id
  {
    if cs != [] {
      var init := cs[..|cs| - 1];
      IndexByIdSpec(init);
      assert cs == init + [cs[|cs| - 1]];
    }
  }

  /** `items.get(cid)` over the post's listed comments, as the comment
      controllers look a comment up. */
  function FindComment(s: Store, pid: nat, cid: nat): Option<Comment>
    reads s
  {
    var items := IndexById(ListComments(s, pid));
    if cid in items then Some(items[cid]) else None
  }

  /** In a valid store, looking a comment up through the listed comments
      finds exactly the comment stored under that id. */
  lemma FindCommentSpec(s: Store, pid: nat, cid: nat)
    requires s.Valid()
    ensures FindComment(s, pid, cid).Some? <==> cid in CommentsOf(s.comments, pid)
    ensures FindComment(s, pid, cid).Some? ==> FindComment(s, pid, cid).value == CommentsOf(s.comments, pid)[cid]
  {
    var cs := ListComments(s, pid);
    var m := CommentsOf(s.comments, pid);
    IndexByIdSpec(cs);
    if cid in m {
      assert m[cid] in m.Values;
      assert m[cid] in cs;
    }
    var items := IndexById(cs);
    if cid in items {
      var c := items[cid];
      assert c in m.Values;
      var k :| k in m && m[k] == c;
      assert k == cid;
    }
  }

  /** Comment text that is missing or blank. */
  predicate MissingText(text: string) {
    text == [] || Strip(text) == []
  }

  function CommentRequired(): Raised {
    BadRequest(CommentRequiredMessage, Some(map["text" := Str("required")]))
  }

  /** `ctrlCreateComment`: a blank text is rejected first, then the text is
      screened, and only then is the post required, so a toxic comment on a
      missing post is a 400, not a 404. */
  method CtrlCreateComment(s: Store, clf: Classifier, pid: nat, uid: nat, text: string, now: int)
    returns (r: Result<Comment>)
    requires s.Valid()
    modifies s
    ensures IsBlank(text) ==> r == Err(CommentRequired())
    ensures !IsBlank(text) && EnsureNotToxic(text, "text", clf).Fail? ==> r == Err(EnsureNotToxic(text, "text", clf).error)
    ensures !IsBlank(text) && EnsureNotToxic(text, "text", clf).Pass? && pid !in old(s.posts) ==>
      r == Err(NotFound(PostNotFoundMessage))
    ensures r.Err? ==> s.State() == old(s.State())
    ensures !IsBlank(text) && EnsureNotToxic(text, "text", clf).Pass? && pid in old(s.posts) ==>
      && s.modelCommentSeq == old(s.modelCommentSeq) + 1
      && r == Ok(Comment(s.modelCommentSeq, pid, uid, Strip(text), now, now))
      && s.State() == WithComment(old(s.State()).(modelCommentSeq := s.modelCommentSeq), r.value)
    ensures s.Valid()
    ensures old(s.CommentCountsTrack() && s.CommentIdsAtMost(s.modelCommentSeq))
      ==> s.CommentCountsTrack() && s.CommentIdsAtMost(s.modelCommentSeq)
  {
    if MissingText(text) {
      return Err(CommentRequired());
    }
    var t := EnsureNotToxic(text, "text", clf);
    if t.Fail? {
      return Err(t.error);
    }
    var p := RequirePost(s, pid);
    if p.Err? {
      return Err(p.error);
    }
    r := CreateComment(s, pid, uid, text, now);
  }

  /** `ctrlUpdateComment`: 404 for a missing post or comment, 403 for anyone
      but the comment's author, then the screen; only then does the text change. */
  method CtrlUpdateComment(s: Store, clf: Classifier, pid: nat, cid: nat, uid: nat, text: string, now: int)
    returns (r: Result<Comment>)
    requires s.Valid()
    modifies s
    ensures pid !in old(s.posts) ==> r == Err(NotFound(PostNotFoundMessage))
    ensures pid in old(s.posts) && cid !in CommentsOf(old(s.comments), pid) ==> r == Err(NotFound(CommentNotFoundMessage))
    ensures pid in old(s.posts) && cid in CommentsOf(old(s.comments), pid) ==>
      && (old(s.comments)[pid][cid].authorId != uid ==> r == Err(Forbidden(NoEditRightMessage)))
      && (old(s.comments)[pid][cid].authorId == uid && EnsureNotToxic(text, "text", clf).Fail? ==>
            r == Err(EnsureNotToxic(text, "text", clf).error))
      && (old(s.comments)[pid][cid].authorId == uid && EnsureNotToxic(text, "text", clf).Pass? ==>
            && r == Ok(old(s.comments)[pid][cid].(text := Strip(text), updatedAt := now))
            && s.State() == old(s.State()).(comments := old(s.comments)[pid := CommentsOf(old(s.comments), pid)[cid := r.value]]))
    ensures r.Err? ==> s.State() == old(s.State())
    ensures s.Valid()
    ensures old(s.CommentCountsTrack()) ==> s.CommentCountsTrack()
  {
    var p := RequirePost(s, pid);
    if p.Err? {
      return Err(p.error);
    }
    FindCommentSpec(s, pid, cid);
    var item := FindComment(s, pid, cid);
    if item.None? {
      return Err(NotFound(CommentNotFoundMessage));
    }
    if item.value.authorId != uid {
      return Err(Forbidden(NoEditRightMessage));
    }
    var t := EnsureNotToxic(text, "text", clf);
    if t.Fail? {
      return Err(t.error);
    }
    r := UpdateComment(s, pid, cid, text, now);
  }

  /** `ctrlDeleteComment`: 404 for a missing post or comment, 403 for anyone
      but the comment's author (nothing is removed); otherwise the comment is
      removed and the post's count goes down. */
  method CtrlDeleteComment(s: Store, pid: nat, cid: nat, uid: nat) returns (r: Result<bool>)
    requires s.Valid()
    modifies s
    ensures pid !in old(s.posts) ==> r == Err(NotFound(PostNotFoundMessage))
    ensures pid in old(s.posts) && cid !in CommentsOf(old(s.comments), pid) ==> r == Err(NotFound(CommentNotFoundMessage))
    ensures pid in old(s.posts) && cid in CommentsOf(old(s.comments), pid) ==>
      && (old(s.comments)[pid][cid].authorId != uid ==> r == Err(Forbidden(NoDeleteRightMessage)))
      && (old(s.comments)[pid][cid].authorId == uid ==>
            r == Ok(true) && s.State() == WithoutComment(old(s.State()), pid, cid))
    ensures r.Err? ==> s.State() == old(s.State())
    ensures s.Valid()
    ensures old(s.CommentCountsTrack()) ==> s.CommentCountsTrack()
  {
    var p := RequirePost(s, pid);
    if p.Err? {
      return Err(p.error);
    }
    FindCommentSpec(s, pid, cid);
    var item := FindComment(s, pid, cid);
    if item.None? {
      return Err(NotFound(CommentNotFoundMessage));
    }
    if item.value.authorId != uid {
      return Err(Forbidden(NoDeleteRightMessage));
    }
    r := DeleteComment(s, pid, cid);
  }

  /** `ctrlUploadImage`: 404 for a missing post, 403 for anyone but the
      author, otherwise the image is stored. */
  method CtrlUploadImage(s: Store, pid: nat, uid: nat, filename: string, content: seq<byte>)
    returns (r: Result<PutResult>)
    requires s.Valid()
    modifies s
    ensures pid !in old(s.posts) ==> r == Err(NotFound(PostNotFoundMessage))
    ensures pid in old(s.posts) && old(s.posts)[pid].authorId != uid ==> r == Err(Forbidden())
    ensures r.Err? ==> s.State() == old(s.State())
    ensures pid in old(s.posts) && old(s.posts)[pid].authorId == uid ==>
      && r == Ok(PutResult(true, filename))
      && s.State() == old(s.State()).(postImages := old(s.postImages)[pid := Image(filename, content)])
    ensures s.Valid()
    ensures old(s.CommentCountsTrack()) ==> s.CommentCountsTrack()
  {
    var p := RequirePost(s, pid);
    if p.Err? {
      return Err(p.error);
    }
    if p.value.authorId != uid {
      return Err(Forbidden());
    }
    var put := PutImage(s, pid, filename, content);
    r := Ok(put);
  }

  /** `ctrlGetImage`: the stored image, or 404 when the post has none. */
  function CtrlGetImage(s: Store, pid: nat): (r: Result<Image>)
    reads s
    ensures r.Ok? <==> pid in s.postImages
    ensures r.Ok? ==> r.value == s.postImages[pid]
    ensures r.Err? ==> r.error == NotFound(NoImageMessage)
  {
    match GetImage(s, pid)
    case None => Err(NotFound(NoImageMessage))
    case Some(img) => Ok(img)
  }

  /** `ctrlDeleteImage`: 404 for a missing post, 403 for anyone but the
      author, otherwise the image (if any) is removed. */
  method CtrlDeleteImage(s: Store, pid: nat, uid: nat) returns (r: Result<bool>)
    requires s.Valid()
    modifies s
    ensures pid !in old(s.posts) ==> r == Err(NotFound(PostNotFoundMessage))
    ensures pid in old(s.posts) && old(s.posts)[pid].authorId != uid ==> r == Err(Forbidden())
    ensures r.Err? ==> s.State() == old(s.State())
    ensures pid in old(s.posts) && old(s.posts)[pid].authorId == uid ==>
      r == Ok(true) && s.State() == old(s.State()).(postImages := old(s.postImages) - {pid})
    ensures s.Valid()
    ensures old(s.CommentCountsTrack()) ==> s.CommentCountsTrack()
  {
    var p := RequirePost(s, pid);
    if p.Err? {
      return Err(p.error);
    }
    if p.value.authorId != uid {
      return Err(Forbidden());
    }
    var ok := DeleteImage(s, pid);
    r := Ok(ok);
  }

  /** An uploaded image is what `ctrlGetImage` then returns, and after
      `ctrlDeleteImage` there is none. */
  method UploadThenGet(s: Store, pid: nat, uid: nat, filename: string, content: seq<byte>)
    requires s.Valid() && pid in s.posts && s.posts[pid].authorId == uid
    modifies s
    ensures CtrlGetImage(s, pid) == Err(NotFound(NoImageMessage))
  {
    var put := CtrlUploadImage(s, pid, uid, filename, content);
    assert CtrlGetImage(s, pid) == Ok(Image(filename, content));
    var del := CtrlDeleteImage(s, pid, uid);
  }
}
