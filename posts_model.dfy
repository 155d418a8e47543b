/**
 * modelsPosts.py: the post, comment, like and image operations on the
 * in-memory store. Post and comment ids come from this module's own copies
 * of `postSeq` and `commentSeq` (`Store.modelPostSeq`, `Store.modelCommentSeq`).
 */
module PostsModel {
  import opened Basics
  import opened Text
  import opened Errors
  import opened Collections
  import opened Storage

  // ------------------------------------------------------------ listPosts

  /** The search key of a query, when it filters at all: `if q:` lets only a
      non-empty query through, and the key is `q.strip().lower()`. */
  function SearchKey(q: Option<string>): Option<string> {
    if q.Some? && q.value != [] then Some(Lower(Strip(q.value))) else None
  }

  /** A post survives the query when there is no key, or when the key occurs
      in its lower-cased title or body. */
  predicate Matches(p: Post, q: Option<string>) {
    var key := SearchKey(q);
    key.None? || Contains(Lower(p.title), key.value) || Contains(Lower(p.body), key.value)
  }

  function FilterPosts(ps: seq<Post>, q: Option<string>): (r: seq<Post>)
    ensures forall p :: p in r <==> p in ps && Matches(p, q)
    ensures |r| <= |ps|
  {
    if ps == [] then [] else (if Matches(ps[0], q) then [ps[0]] else []) + FilterPosts(ps[1..], q)
  }

  /** Filtering keeps a sequence free of repeats. */
  lemma {:induction false} FilterDistinct(ps: seq<Post>, q: Option<string>)
    requires Distinct(ps)
    ensures Distinct(FilterPosts(ps, q))
  {
    if ps != [] {
      FilterDistinct(ps[1..], q);
      var rest := FilterPosts(ps[1..], q);
      if Matches(ps[0], q) {
        var all := [ps[0]] + rest;
        forall i, j | 0 <= i < j < |all|
          ensures all[i] != all[j]
        {
          if i == 0 {
            assert all[j] == rest[j - 1] && rest[j - 1] in ps[1..];
          } else {
            assert all[i] == rest[i - 1] && all[j] == rest[j - 1];
          }
        }
      }
    }
  }

  /** The sort key of `sort(key=createdAt, reverse=True)`. */
  function NewestFirst(p: Post): int {
    -p.createdAt
  }

  /** The matching posts, newest first, before the page is cut out. */
  function Search(s: Store, q: Option<string>): seq<Post>
    reads s
  {
    SortBy(FilterPosts(ValuesUpTo(s.posts, s.modelPostSeq), q), NewestFirst)
  }

  /** The search lists only stored posts that match, newest first; in a valid
      store it lists every stored post that matches. */
  lemma SearchSpec(s: Store, q: Option<string>)
    ensures forall p :: p in Search(s, q) ==> p in s.posts.Values && Matches(p, q)
    ensures forall i, j :: 0 <= i < j < |Search(s, q)| ==> Search(s, q)[i].createdAt >= Search(s, q)[j].createdAt
    ensures s.Valid() ==> forall p :: p in s.posts.Values && Matches(p, q) ==> p in Search(s, q)
    ensures s.Valid() ==> Distinct(Search(s, q))
    ensures |Search(s, q)| <= s.modelPostSeq
  {
    var all := ValuesUpTo(s.posts, s.modelPostSeq);
    var data := FilterPosts(all, q);
    ValuesUpToSpec(s.posts, s.modelPostSeq);
    ValuesUpToLength(s.posts, s.modelPostSeq);
    SortBySpec(data, NewestFirst);
    var r := SortBy(data, NewestFirst);
    if s.Valid() {
      ValuesUpToDistinct(s.posts, s.modelPostSeq);
      FilterDistinct(all, q);
      DistinctPerm(data, r);
    }
    forall p | p in r
      ensures p in data
    {
      assert p in multiset(r);
    }
    forall p | p in data
      ensures p in r
    {
      assert p in multiset(data);
    }
    assert |r| == |multiset(r)| == |multiset(data)| == |data|;
  }

  lemma {:induction false} ValuesUpToLength<V>(m: map<nat, V>, n: nat)
    ensures |ValuesUpTo(m, n)| <= n
  {
    if n > 0 {
      ValuesUpToLength(m, n - 1);
    }
  }

  /** `listPosts(skip, limit, q)`: the slice `[skip:skip + limit]` of the
      matching posts, newest first; so at most `limit` posts, all stored and
      matching, none twice in a valid store. */
  function ListPosts(s: Store, skip: nat, limit: nat, q: Option<string>): (r: seq<Post>)
    reads s
    ensures var all := Search(s, q); r == all[Min(skip, |all|)..Min(skip + limit, |all|)]
    ensures |r| <= limit
    ensures s.Valid() ==> Distinct(r)
    ensures forall p :: p in r ==> p in s.posts.Values && Matches(p, q)
    ensures forall i, j :: 0 <= i < j < |r| ==> r[i].createdAt >= r[j].createdAt
  {
    var data := Search(s, q);
    SearchSpec(s, q);
    if skip >= |data| then [] else data[skip..if skip + limit <= |data| then skip + limit else |data|]
  }

  /** With no query, or a blank one, nothing is filtered out: the first page
      with room for every post ever created lists every stored post. */
  lemma BlankQueryListsAll(s: Store, q: Option<string>, limit: nat)
    requires s.Valid()
    requires q.None? || IsBlank(q.value)
    requires limit >= s.modelPostSeq
    ensures forall p :: p in s.posts.Values ==> p in ListPosts(s, 0, limit, q)
  {
    if q.Some? && q.value != [] {
      assert SearchKey(q) == Some([]);
      forall p: Post
        ensures Matches(p, q)
      {
        ContainsEmpty(Lower(p.title));
      }
    }
    SearchSpec(s, q);
    var data := Search(s, q);
    assert ListPosts(s, 0, limit, q) == data || data == [];
  }

  // ------------------------------------------------------------ posts

  /** `getPost(pid)`: `posts.get(pid)`. */
  function GetPost(s: Store, pid: nat): (r: Option<Post>)
    reads s
    ensures r.Some? <==> pid in s.posts
    ensures r.Some? ==> r.value == s.posts[pid]
  {
    if pid in s.posts then Some(s.posts[pid]) else None
  }

  /** `createPost`: the next id of this module's counter, stripped title and
      body, zero counters, one timestamp for both dates, an empty like set and
      an empty comment map. */
  method CreatePost(s: Store, authorId: nat, title: string, body: string, now: int) returns (p: Post)
    requires s.Valid()
    modifies s
    ensures p == Post(old(s.modelPostSeq) + 1, Strip(title), Strip(body), authorId, now, now, 0, 0, 0)
    ensures forall pid :: pid in old(s.posts) ==> pid < p.id
    ensures s.State() == old(s.State()).(
      posts := old(s.posts)[p.id := p],
      likes := old(s.likes)[p.id := {}],
      comments := old(s.comments)[p.id := map[]],
      modelPostSeq := p.id)
    ensures s.Valid()
    ensures old(s.CommentCountsTrack()) ==> s.CommentCountsTrack()
  {
    var pid := s.modelPostSeq + 1;
    p := Post(pid, Strip(title), Strip(body), authorId, now, now, 0, 0, 0);
    NewPostValid(s.posts, s.likes, s.comments, s.modelPostSeq, s.CommentBound(), p);
    RaiseBounds(s.posts, s.likes, s.comments, s.modelPostSeq, s.CommentBound(), pid, s.CommentBound());
    s.SetPostCounters(pid, s.commentSeq, s.modelCommentSeq);
    s.SetPostTables(s.posts[pid := p], s.likes[pid := {}], s.comments[pid := map[]]);
  }

  /** `updatePost`: only title, body (stripped) and `updatedAt` change; a
      missing post raises `KeyError` and changes nothing. */
  method UpdatePost(s: Store, pid: nat, title: string, body: string, now: int) returns (r: Result<Post>)
    requires s.Valid()
    modifies s
    ensures pid !in old(s.posts) ==> r == Err(KeyError) && s.State() == old(s.State())
    ensures pid in old(s.posts) ==>
      && r == Ok(old(s.posts)[pid].(title := Strip(title), body := Strip(body), updatedAt := now))
      && s.State() == old(s.State()).(posts := old(s.posts)[pid := r.value])
    ensures s.Valid()
    ensures old(s.CommentCountsTrack()) ==> s.CommentCountsTrack()
  {
    if pid !in s.posts {
      return Err(KeyError);
    }
    var p := s.posts[pid].(title := Strip(title), body := Strip(body), updatedAt := now);
    ReplacePostValid(s.posts, s.likes, s.comments, s.modelPostSeq, s.CommentBound(), p);
    ReplacePostTracks(s.posts, s.comments, p);
    s.SetPostTables(s.posts[pid := p], s.likes, s.comments);
    r := Ok(p);
  }

  /** `deletePost`: removes the post, its comments, its likes and its image;
      always `True`, and deleting an absent post changes nothing. */
  method DeletePost(s: Store, pid: nat) returns (ok: bool)
    requires s.Valid()
    modifies s
    ensures ok
    ensures s.State() == old(s.State()).(
      posts := old(s.posts) - {pid},
      comments := old(s.comments) - {pid},
      likes := old(s.likes) - {pid},
      postImages := old(s.postImages) - {pid})
    ensures pid !in old(s.posts) && pid !in old(s.comments) && pid !in old(s.likes) && pid !in old(s.postImages)
      ==> s.State() == old(s.State())
    ensures s.Valid()
    ensures old(s.CommentCountsTrack()) ==> s.CommentCountsTrack()
  {
    RemovePostValid(s.posts, s.likes, s.comments, s.modelPostSeq, s.CommentBound(), pid);
    ghost var before := s.State();
    if pid !in s.posts && pid !in s.comments && pid !in s.likes && pid !in s.postImages {
      RemoveAbsentPost(before, pid);
    }
    s.SetPostTables(s.posts - {pid}, s.likes - {pid}, s.comments - {pid});
    s.postImages := s.postImages - {pid};
    ok := true;
  }

  /** Removing a post id that no table holds leaves the store as it was. */
  lemma RemoveAbsentPost(st: Snapshot, pid: nat)
    requires pid !in st.posts && pid !in st.comments && pid !in st.likes && pid !in st.postImages
    ensures st.(posts := st.posts - {pid}, comments := st.comments - {pid},
                likes := st.likes - {pid}, postImages := st.postImages - {pid}) == st
  {
    assert st.posts - {pid} == st.posts;
    assert st.comments - {pid} == st.comments;
    assert st.likes - {pid} == st.likes;
    assert st.postImages - {pid} == st.postImages;
  }

  /** `incView`: one more view, returned; a missing post raises `KeyError`. */
  method IncView(s: Store, pid: nat) returns (r: Result<nat>)
    requires s.Valid()
    modifies s
    ensures pid !in old(s.posts) ==> r == Err(KeyError) && s.State() == old(s.State())
    ensures pid in old(s.posts) ==>
      && r == Ok(old(s.posts)[pid].views + 1)
      && s.State() == old(s.State()).(posts := old(s.posts)[pid := old(s.posts)[pid].(views := r.value)])
    ensures s.Valid()
    ensures old(s.CommentCountsTrack()) ==> s.CommentCountsTrack()
  {
    if pid !in s.posts {
      return Err(KeyError);
    }
    var views := s.posts[pid].views + 1;
    var p := s.posts[pid].(views := views);
    ReplacePostValid(s.posts, s.likes, s.comments, s.modelPostSeq, s.CommentBound(), p);
    ReplacePostTracks(s.posts, s.comments, p);
    s.SetPostTables(s.posts[pid := p], s.likes, s.comments);
    r := Ok(views);
  }

  // ------------------------------------------------------------ likes

  /** What `toggleLike` returns. */
  datatype LikeResult = LikeResult(liked: bool, likesCount: nat)

  /** The like set after `uid` toggles its like. */
  function Flip(users: set<nat>, uid: nat): (r: set<nat>)
    ensures uid in r <==> uid !in users
    ensures r - {uid} == users - {uid}
  {
    if uid in users then users - {uid} else users + {uid}
  }

  /** `likesCount` after a toggle: one less, floored at 0, on removal; one more on addition. */
  function CountAfterToggle(count: nat, wasLiked: bool): nat {
    if wasLiked then (if count >= 1 then count - 1 else 0) else count + 1
  }

  /** `toggleLike`: flips `uid`'s membership in the post's like set and keeps
      `likesCount` equal to the set's size; `liked` is the new membership.
      `likes.setdefault` runs before the post lookup, so a missing post
      raises `KeyError` after its empty like set was added. */
  method ToggleLike(s: Store, pid: nat, uid: nat) returns (r: Result<LikeResult>)
    requires s.Valid()
    modifies s
    ensures pid !in old(s.posts) ==>
      && r == Err(KeyError)
      && s.State() == old(s.State()).(likes := old(s.likes)[pid := LikesOf(old(s.likes), pid)])
    ensures pid in old(s.posts) ==>
      && s.State() == ToggledLike(old(s.State()), pid, uid)
      && r == Ok(LikeResult(uid !in LikesOf(old(s.likes), pid), s.posts[pid].likesCount))
    ensures r.Ok? ==> r.value.liked == (uid in s.likes[pid]) && r.value.likesCount == |s.likes[pid]|
    ensures s.Valid()
    ensures old(s.CommentCountsTrack()) ==> s.CommentCountsTrack()
  {
    var users := LikesOf(s.likes, pid);
    if pid !in s.posts {
      StrayLikesValid(s.posts, s.likes, s.comments, s.modelPostSeq, s.CommentBound(), pid, users);
      s.SetPostTables(s.posts, s.likes[pid := users], s.comments);
      return Err(KeyError);
    }
    var p := s.posts[pid];
    var wasLiked := uid in users;
    var after := Flip(users, uid);
    FlipCount(users, uid, p.likesCount);
    p := p.(likesCount := CountAfterToggle(p.likesCount, wasLiked));
    ReplaceLikesValid(s.posts, s.likes, s.comments, s.modelPostSeq, s.CommentBound(), p, after);
    ReplacePostTracks(s.posts, s.comments, p);
    s.SetPostTables(s.posts[pid := p], s.likes[pid := after], s.comments);
    r := Ok(LikeResult(!wasLiked, p.likesCount));
  }

  /** When the count was the set's size, the count after the toggle is the
      size of the toggled set. */
  lemma FlipCount(users: set<nat>, uid: nat, count: nat)
    requires count == |users|
    ensures CountAfterToggle(count, uid in users) == |Flip(users, uid)|
  {
  }

  /** The store after `uid` toggles its like of the stored post `pid`. */
  function ToggledLike(st: Snapshot, pid: nat, uid: nat): Snapshot
    requires pid in st.posts
  {
    var users := LikesOf(st.likes, pid);
    var p := st.posts[pid];
    st.(likes := st.likes[pid := Flip(users, uid)],
        posts := st.posts[pid := p.(likesCount := CountAfterToggle(p.likesCount, uid in users))])
  }

  /** Toggling twice restores the like set and the post exactly, provided the
      post's `likesCount` was the size of its like set (as `Valid` keeps it). */
  lemma ToggleLikeTwiceRestores(st: Snapshot, pid: nat, uid: nat)
    requires pid in st.posts && pid in st.likes && st.posts[pid].likesCount == |st.likes[pid]|
    ensures ToggledLike(ToggledLike(st, pid, uid), pid, uid) == st
  {
    var users := st.likes[pid];
    var p := st.posts[pid];
    FlipTwice(users, uid, p.likesCount);
    var twice := ToggledLike(ToggledLike(st, pid, uid), pid, uid);
    assert twice.likes == st.likes;
    assert twice.posts == st.posts;
  }

  /** Flipping the same membership twice restores the like set and, when the
      count was the set's size, the count. */
  lemma FlipTwice(users: set<nat>, uid: nat, count: nat)
    requires count == |users|
    ensures Flip(Flip(users, uid), uid) == users
    ensures CountAfterToggle(CountAfterToggle(count, uid in users), uid in Flip(users, uid)) == count
  {
    FlipCount(users, uid, count);
    FlipCount(Flip(users, uid), uid, CountAfterToggle(count, uid in users));
  }

  // ------------------------------------------------------------ comments

  /** The sort key of `sort(key=createdAt)`. */
  function OldestFirst(c: Comment): int {
    c.createdAt
  }

  /** `listComments(pid)`: the post's comments, oldest first. */
  function ListComments(s: Store, pid: nat): (r: seq<Comment>)
    reads s
    ensures forall c :: c in r ==> c in CommentsOf(s.comments, pid).Values
    ensures s.Valid() ==> forall c :: c in CommentsOf(s.comments, pid).Values ==> c in r
    ensures s.Valid() ==> Distinct(r)
    ensures forall i, j :: 0 <= i < j < |r| ==> r[i].createdAt <= r[j].createdAt
  {
    var m := CommentsOf(s.comments, pid);
    OldestFirstListing(m, s.CommentBound());
    SortBy(ValuesUpTo(m, s.CommentBound()), OldestFirst)
  }

  /** The comments of one post under the ids `1..n`, sorted oldest first:
      only comments of the map, all of them when every id is in range, none
      twice when each comment carries its own id, and in `createdAt` order. */
  lemma OldestFirstListing(m: map<nat, Comment>, n: nat)
    ensures forall c :: c in SortBy(ValuesUpTo(m, n), OldestFirst) ==> c in m.Values
    ensures (forall cid :: cid in m ==> 1 <= cid <= n) ==>
      forall c :: c in m.Values ==> c in SortBy(ValuesUpTo(m, n), OldestFirst)
    ensures (forall cid :: cid in m ==> m[cid].id == cid) ==> Distinct(SortBy(ValuesUpTo(m, n), OldestFirst))
    ensures SortedBy(SortBy(ValuesUpTo(m, n), OldestFirst), OldestFirst)
  {
    var data := ValuesUpTo(m, n);
    ValuesUpToSpec(m, n);
    SortBySpec(data, OldestFirst);
    var r := SortBy(data, OldestFirst);
    if forall cid :: cid in m ==> m[cid].id == cid {
      ValuesUpToDistinct(m, n);
      DistinctPerm(data, r);
    }
    assert forall c :: c in r <==> c in multiset(r);
    assert forall c :: c in data <==> c in multiset(data);
  }

  /** The store after `c` is filed under its post and, when the post exists,
      the post's `commentsCount` went up by one. */
  function WithComment(st: Snapshot, c: Comment): Snapshot {
    st.(comments := st.comments[c.postId := CommentsOf(st.comments, c.postId)[c.id := c]],
        posts := if c.postId in st.posts
                 then st.posts[c.postId := st.posts[c.postId].(commentsCount := st.posts[c.postId].commentsCount + 1)]
                 else st.posts)
  }

  /** Filing a comment with an id within the bound keeps the post tables
      valid; the comment counts stay in step when the id is new for its post. */
  lemma WithCommentValid(st: Snapshot, c: Comment, bound: nat)
    requires PostsValid(st.posts, st.likes, st.comments, st.modelPostSeq, bound)
    requires 1 <= c.id <= bound
    ensures var after := WithComment(st, c);
      PostsValid(after.posts, after.likes, after.comments, after.modelPostSeq, bound)
    ensures var after := WithComment(st, c);
      CountsTrack(st.posts, st.comments) && c.id !in CommentsOf(st.comments, c.postId)
      ==> CountsTrack(after.posts, after.comments)
  {
    AddCommentValid(st.comments, bound, c);
  }

  /** An id one past every stored comment id is new for its post, and
      filing the comment under it keeps every id at most the new one. */
  lemma NextCommentIdFresh(comments: map<nat, map<nat, Comment>>, n: nat, c: Comment)
    requires IdsAtMost(comments, n) && c.id == n + 1
    ensures c.id !in CommentsOf(comments, c.postId)
    ensures IdsAtMost(comments[c.postId := CommentsOf(comments, c.postId)[c.id := c]], c.id)
  {
  }

  /** Filing a comment under an id its post already uses replaces the old
      comment while `commentsCount` still goes up: the counts fall out of step. */
  lemma CollidingIdBreaksCount(st: Snapshot, c: Comment)
    requires CountsTrack(st.posts, st.comments)
    requires c.postId in st.posts && c.id in CommentsOf(st.comments, c.postId)
    ensures var after := WithComment(st, c);
      after.posts[c.postId].commentsCount == |after.comments[c.postId]| + 1
  {
    assert CommentsOf(st.comments, c.postId)[c.id := c].Keys == CommentsOf(st.comments, c.postId).Keys;
  }

  /** Files a comment with id `cid` and bumps the post's `commentsCount`,
      as both `createComment` here and the comment route do;
      `posts[pid]` is looked up after the comment is filed, so a missing post
      raises `KeyError` with the comment already stored. */
  method AddComment(s: Store, pid: nat, cid: nat, uid: nat, text: string, now: int) returns (r: Result<Comment>)
    requires s.Valid() && 1 <= cid <= s.CommentBound()
    modifies s
    ensures s.State() == WithComment(old(s.State()), Comment(cid, pid, uid, Strip(text), now, now))
    ensures r == if pid in old(s.posts) then Ok(Comment(cid, pid, uid, Strip(text), now, now)) else Err(KeyError)
    ensures s.Valid()
    ensures old(s.CommentCountsTrack()) && cid !in CommentsOf(old(s.comments), pid) ==> s.CommentCountsTrack()
  {
    var item := Comment(cid, pid, uid, Strip(text), now, now);
    ghost var after := WithComment(s.State(), item);
    var comments := s.comments[pid := CommentsOf(s.comments, pid)[cid := item]];
    assert after.comments == comments;
    if pid !in s.posts {
      assert after.posts == s.posts;
      WithCommentValid(s.State(), item, s.CommentBound());
      s.SetPostTables(s.posts, s.likes, comments);
      assert s.State() == after;
      return Err(KeyError);
    }
    var p := s.posts[pid];
    var posts := s.posts[pid := p.(commentsCount := p.commentsCount + 1)];
    assert after.posts == posts;
    WithCommentValid(s.State(), item, s.CommentBound());
    s.SetPostTables(posts, s.likes, comments);
    assert s.State() == after;
    r := Ok(item);
  }

  /** `createComment`: takes the next id of this module's comment counter.
      The comment counts stay in step as long as that counter is ahead of
      every stored comment id. */
  method CreateComment(s: Store, pid: nat, uid: nat, text: string, now: int) returns (r: Result<Comment>)
    requires s.Valid()
    modifies s
    ensures s.modelCommentSeq == old(s.modelCommentSeq) + 1
    ensures s.State() == WithComment(old(s.State()).(modelCommentSeq := s.modelCommentSeq),
                                     Comment(s.modelCommentSeq, pid, uid, Strip(text), now, now))
    ensures r == if pid in old(s.posts) then Ok(Comment(s.modelCommentSeq, pid, uid, Strip(text), now, now)) else Err(KeyError)
    ensures s.Valid()
    ensures old(s.CommentCountsTrack() && s.CommentIdsAtMost(s.modelCommentSeq))
      ==> s.CommentCountsTrack() && s.CommentIdsAtMost(s.modelCommentSeq)
  {
    var cid := s.modelCommentSeq + 1;
    if s.CommentIdsAtMost(s.modelCommentSeq) {
      NextCommentIdFresh(s.comments, s.modelCommentSeq, Comment(cid, pid, uid, Strip(text), now, now));
    }
    RaiseBounds(s.posts, s.likes, s.comments, s.modelPostSeq, s.CommentBound(), s.modelPostSeq, Max(s.commentSeq, cid));
    s.SetPostCounters(s.modelPostSeq, s.commentSeq, cid);
    r := AddComment(s, pid, cid, uid, text, now);
  }

  /** `updateComment`: only the text (stripped) and `updatedAt` change; a
      missing post entry or comment raises `KeyError` and changes nothing. */
  method UpdateComment(s: Store, pid: nat, cid: nat, text: string, now: int) returns (r: Result<Comment>)
    requires s.Valid()
    modifies s
    ensures cid !in CommentsOf(old(s.comments), pid) ==> r == Err(KeyError) && s.State() == old(s.State())
    ensures cid in CommentsOf(old(s.comments), pid) ==>
      && r == Ok(old(s.comments)[pid][cid].(text := Strip(text), updatedAt := now))
      && s.State() == old(s.State()).(comments := old(s.comments)[pid := CommentsOf(old(s.comments), pid)[cid := r.value]])
    ensures s.Valid()
    ensures old(s.CommentCountsTrack()) ==> s.CommentCountsTrack()
  {
    if pid !in s.comments || cid !in s.comments[pid] {
      return Err(KeyError);
    }
    var item := s.comments[pid][cid].(text := Strip(text), updatedAt := now);
    AddCommentValid(s.comments, s.CommentBound(), item);
    s.SetPostTables(s.posts, s.likes, s.comments[pid := CommentsOf(s.comments, pid)[cid := item]]);
    r := Ok(item);
  }

  /** The store after comment `cid` is removed from post `pid` and, when the
      post exists, its `commentsCount` went down by one, floored at 0. */
  function WithoutComment(st: Snapshot, pid: nat, cid: nat): Snapshot
    requires cid in CommentsOf(st.comments, pid)
  {
    st.(comments := st.comments[pid := st.comments[pid] - {cid}],
        posts := if pid in st.posts
                 then st.posts[pid := st.posts[pid].(commentsCount := if st.posts[pid].commentsCount >= 1 then st.posts[pid].commentsCount - 1 else 0)]
                 else st.posts)
  }

  /** Removing a comment keeps the post tables valid and the comment counts in step. */
  lemma WithoutCommentValid(st: Snapshot, pid: nat, cid: nat, bound: nat)
    requires PostsValid(st.posts, st.likes, st.comments, st.modelPostSeq, bound)
    requires cid in CommentsOf(st.comments, pid)
    ensures var after := WithoutComment(st, pid, cid);
      PostsValid(after.posts, after.likes, after.comments, after.modelPostSeq, bound)
    ensures var after := WithoutComment(st, pid, cid);
      CountsTrack(st.posts, st.comments) ==> CountsTrack(after.posts, after.comments)
  {
    RemoveCommentValid(st.comments, bound, pid, cid);
  }

  /** `deleteComment`: `True`, with the comment removed and `commentsCount`
      one less (floored at 0), exactly when the comment exists; otherwise
      `False` and nothing changes. */
  method DeleteComment(s: Store, pid: nat, cid: nat) returns (r: Result<bool>)
    requires s.Valid()
    modifies s
    ensures cid !in CommentsOf(old(s.comments), pid) ==> r == Ok(false) && s.State() == old(s.State())
    ensures cid in CommentsOf(old(s.comments), pid) ==>
      && s.State() == WithoutComment(old(s.State()), pid, cid)
      && r == if pid in old(s.posts) then Ok(true) else Err(KeyError)
    ensures s.Valid()
    ensures old(s.CommentCountsTrack()) ==> s.CommentCountsTrack()
  {
    if pid !in s.comments || cid !in s.comments[pid] {
      return Ok(false);
    }
    ghost var after := WithoutComment(s.State(), pid, cid);
    var comments := s.comments[pid := s.comments[pid] - {cid}];
    assert after.comments == comments;
    if pid !in s.posts {
      assert after.posts == s.posts;
      WithoutCommentValid(s.State(), pid, cid, s.CommentBound());
      s.SetPostTables(s.posts, s.likes, comments);
      assert s.State() == after;
      return Err(KeyError);
    }
    var p := s.posts[pid];
    var posts := s.posts[pid := p.(commentsCount := if p.commentsCount >= 1 then p.commentsCount - 1 else 0)];
    assert after.posts == posts;
    WithoutCommentValid(s.State(), pid, cid, s.CommentBound());
    s.SetPostTables(posts, s.likes, comments);
    assert s.State() == after;
    r := Ok(true);
  }

  // ------------------------------------------------------------ images

  /** What `putImage` returns. */
  datatype PutResult = PutResult(ok: bool, filename: string)

  /** `putImage`: stores (or replaces) the post's image. */
  method PutImage(s: Store, pid: nat, filename: string, content: seq<byte>) returns (r: PutResult)
    modifies s
    ensures r == PutResult(true, filename)
    ensures s.State() == old(s.State()).(postImages := old(s.postImages)[pid := Image(filename, content)])
    ensures GetImage(s, pid) == Some(Image(filename, content))
    ensures old(s.Valid()) ==> s.Valid()
    ensures old(s.CommentCountsTrack()) ==> s.CommentCountsTrack()
  {
    s.postImages := s.postImages[pid := Image(filename, content)];
    r := PutResult(true, filename);
  }

  /** `getImage`: `postImages.get(pid)`. */
  function GetImage(s: Store, pid: nat): (r: Option<Image>)
    reads s
    ensures r.Some? <==> pid in s.postImages
    ensures r.Some? ==> r.value == s.postImages[pid]
  {
    if pid in s.postImages then Some(s.postImages[pid]) else None
  }

  /** `deleteImage`: removes the post's image, if any; always `True`, and a
      second call changes nothing. */
  method DeleteImage(s: Store, pid: nat) returns (ok: bool)
    modifies s
    ensures ok
    ensures s.State() == old(s.State()).(postImages := old(s.postImages) - {pid})
    ensures GetImage(s, pid) == None
    ensures pid !in old(s.postImages) ==> s.State() == old(s.State())
    ensures old(s.Valid()) ==> s.Valid()
    ensures old(s.CommentCountsTrack()) ==> s.CommentCountsTrack()
  {
    s.postImages := s.postImages - {pid};
    ok := true;
  }
}
