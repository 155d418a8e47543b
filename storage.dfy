/**
 * storage.py: the process-wide dictionaries, sets and counters that every
 * store operation updates in place, gathered in one object.
 *
 * Two of the modules that update the counters bind them with
 * `from storage import userSeq` (modelsAuth.py) and
 * `from storage import postSeq, commentSeq` (modelsPosts.py) and then use
 * `global`, which rebinds the importing module's own copy. The store
 * therefore holds six counters: the three of storage.py (of which only
 * `commentSeq` is ever advanced, by routersPosts.py) and the three copies.
 */
module Storage {
  import opened Basics
  import opened Text

  datatype Image = Image(filename: string, bytes: seq<byte>)

  datatype User = User(
    id: nat, email: string, passwordHash: string, nickname: string,
    createdAt: int, avatar: Option<Image>)

  datatype Post = Post(
    id: nat, title: string, body: string, authorId: nat,
    createdAt: int, updatedAt: int,
    views: nat, likesCount: nat, commentsCount: nat)

  datatype Comment = Comment(
    id: nat, postId: nat, authorId: nat, text: string,
    createdAt: int, updatedAt: int)

  /** The whole store as one value, to state what an operation changes. */
  datatype Snapshot = Snapshot(
    users: map<nat, User>, emails: map<string, nat>,
    nicknames: map<string, nat>, sessions: map<string, nat>,
    posts: map<nat, Post>, postImages: map<nat, Image>,
    comments: map<nat, map<nat, Comment>>, likes: map<nat, set<nat>>,
    userSeq: nat, postSeq: nat, commentSeq: nat,
    authUserSeq: nat, modelPostSeq: nat, modelCommentSeq: nat)

  /** The user tables: ids match keys and stay within the counter; the
      e-mail and lower-cased nickname indices map each user's own address
      and nickname to that user and nothing else; every session belongs to
      an existing user; and no token is empty. */
  ghost predicate UsersValid(
    users: map<nat, User>, emails: map<string, nat>, nicknames: map<string, nat>,
    sessions: map<string, nat>, userBound: nat)
  {
    && (forall uid :: uid in users ==>
          users[uid].id == uid && 1 <= uid <= userBound && users[uid].nickname != [])
    && (forall e :: e in emails ==> emails[e] in users && users[emails[e]].email == e)
    && (forall uid :: uid in users ==>
          users[uid].email in emails && emails[users[uid].email] == uid)
    && (forall n :: n in nicknames ==>
          nicknames[n] in users && Lower(users[nicknames[n]].nickname) == n)
    && (forall uid :: uid in users ==>
          Lower(users[uid].nickname) in nicknames && nicknames[Lower(users[uid].nickname)] == uid)
    && (forall t :: t in sessions ==> sessions[t] in users)
    && [] !in sessions
  }

  /** The post tables: ids match keys and stay within the counter; every
      post has a like set and a comment map, and its `likesCount` is the
      size of its like set; comment ids match keys, name their post and stay
      within the comment counters. */
  ghost predicate PostsValid(
    posts: map<nat, Post>, likes: map<nat, set<nat>>,
    comments: map<nat, map<nat, Comment>>, postBound: nat, commentBound: nat)
  {
    && (forall pid :: pid in posts ==> posts[pid].id == pid && 1 <= pid <= postBound)
    && (forall pid :: pid in posts ==>
          pid in likes && pid in comments && posts[pid].likesCount == |likes[pid]|)
    && CommentsValid(comments, commentBound)
  }

  /** Comment ids match keys, name their post and stay within `commentBound`. */
  ghost predicate CommentsValid(comments: map<nat, map<nat, Comment>>, commentBound: nat) {
    forall pid, cid :: pid in comments && cid in comments[pid] ==>
      comments[pid][cid].id == cid && comments[pid][cid].postId == pid && 1 <= cid <= commentBound
  }

  /** Every post's `commentsCount` is the number of its comments. */
  ghost predicate CountsTrack(posts: map<nat, Post>, comments: map<nat, map<nat, Comment>>) {
    forall pid :: pid in posts && pid in comments ==> posts[pid].commentsCount == |comments[pid]|
  }

  /** Every stored comment id is at most `n`. */
  ghost predicate IdsAtMost(comments: map<nat, map<nat, Comment>>, n: nat) {
    forall pid, cid :: pid in comments && cid in comments[pid] ==> cid <= n
  }

  /** `likes.get(pid, set())`. */
  function LikesOf(likes: map<nat, set<nat>>, pid: nat): set<nat> {
    if pid in likes then likes[pid] else {}
  }

  /** `comments.get(pid, {})`. */
  function CommentsOf(comments: map<nat, map<nat, Comment>>, pid: nat): map<nat, Comment> {
    if pid in comments then comments[pid] else map[]
  }

  /** Replacing a stored user by one with the same id, e-mail and nickname
      keeps the user tables valid. */
  lemma ReplaceUserValid(
    users: map<nat, User>, emails: map<string, nat>, nicknames: map<string, nat>,
    sessions: map<string, nat>, userBound: nat, u: User)
    requires UsersValid(users, emails, nicknames, sessions, userBound)
    requires u.id in users && u.email == users[u.id].email && u.nickname == users[u.id].nickname
    ensures UsersValid(users[u.id := u], emails, nicknames, sessions, userBound)
  {
  }

  /** A larger user bound keeps the user tables valid. */
  lemma RaiseUserBound(
    users: map<nat, User>, emails: map<string, nat>, nicknames: map<string, nat>,
    sessions: map<string, nat>, userBound: nat, larger: nat)
    requires UsersValid(users, emails, nicknames, sessions, userBound)
    requires userBound <= larger
    ensures UsersValid(users, emails, nicknames, sessions, larger)
  {
  }

  /** Replacing a stored post by one with the same id and like count keeps
      the post tables valid. */
  lemma ReplacePostValid(
    posts: map<nat, Post>, likes: map<nat, set<nat>>,
    comments: map<nat, map<nat, Comment>>, postBound: nat, commentBound: nat, p: Post)
    requires PostsValid(posts, likes, comments, postBound, commentBound)
    requires p.id in posts && p.likesCount == posts[p.id].likesCount
    ensures PostsValid(posts[p.id := p], likes, comments, postBound, commentBound)
  {
  }

  /** Replacing a stored post by one with the same comment count keeps the
      comment counts in step. */
  lemma ReplacePostTracks(posts: map<nat, Post>, comments: map<nat, map<nat, Comment>>, p: Post)
    requires p.id in posts && p.commentsCount == posts[p.id].commentsCount
    ensures CountsTrack(posts, comments) ==> CountsTrack(posts[p.id := p], comments)
  {
  }

  /** Adding a post under the next id, with no likes and no comments,
      keeps the post tables valid and the comment counts in step. */
  lemma NewPostValid(
    posts: map<nat, Post>, likes: map<nat, set<nat>>,
    comments: map<nat, map<nat, Comment>>, postBound: nat, commentBound: nat, p: Post)
    requires PostsValid(posts, likes, comments, postBound, commentBound)
    requires p.id == postBound + 1 && p.likesCount == 0 && p.commentsCount == 0
    ensures forall pid :: pid in posts ==> pid < p.id
    ensures PostsValid(posts[p.id := p], likes[p.id := {}], comments[p.id := map[]], p.id, commentBound)
    ensures CountsTrack(posts, comments) ==> CountsTrack(posts[p.id := p], comments[p.id := map[]])
  {
  }

  /** Giving a stored post a new like set, with `likesCount` its size, keeps
      the post tables valid. */
  lemma ReplaceLikesValid(
    posts: map<nat, Post>, likes: map<nat, set<nat>>,
    comments: map<nat, map<nat, Comment>>, postBound: nat, commentBound: nat,
    p: Post, users: set<nat>)
    requires PostsValid(posts, likes, comments, postBound, commentBound)
    requires p.id in posts && p.likesCount == |users|
    ensures PostsValid(posts[p.id := p], likes[p.id := users], comments, postBound, commentBound)
  {
  }

  /** A like set under a key that is not a post leaves the post tables valid. */
  lemma StrayLikesValid(
    posts: map<nat, Post>, likes: map<nat, set<nat>>,
    comments: map<nat, map<nat, Comment>>, postBound: nat, commentBound: nat,
    pid: nat, users: set<nat>)
    requires PostsValid(posts, likes, comments, postBound, commentBound)
    requires pid !in posts
    ensures PostsValid(posts, likes[pid := users], comments, postBound, commentBound)
  {
  }

  /** Filing a comment whose id is within the bound keeps the comments valid. */
  lemma AddCommentValid(comments: map<nat, map<nat, Comment>>, commentBound: nat, c: Comment)
    requires CommentsValid(comments, commentBound) && 1 <= c.id <= commentBound
    ensures CommentsValid(comments[c.postId := CommentsOf(comments, c.postId)[c.id := c]], commentBound)
  {
    var after: map<nat, map<nat, Comment>> := comments[c.postId := CommentsOf(comments, c.postId)[c.id := c]];
    forall pid: nat, cid: nat | pid in after && cid in after[pid]
      ensures after[pid][cid].id == cid && after[pid][cid].postId == pid && 1 <= cid <= commentBound
    {
      if pid != c.postId || cid != c.id {
        assert pid in comments && cid in comments[pid];
      }
    }
  }

  /** Removing a post with its likes and comments keeps the post tables
      valid and the comment counts in step. */
  lemma RemovePostValid(
    posts: map<nat, Post>, likes: map<nat, set<nat>>,
    comments: map<nat, map<nat, Comment>>, postBound: nat, commentBound: nat, pid: nat)
    requires PostsValid(posts, likes, comments, postBound, commentBound)
    ensures PostsValid(posts - {pid}, likes - {pid}, comments - {pid}, postBound, commentBound)
    ensures CountsTrack(posts, comments) ==> CountsTrack(posts - {pid}, comments - {pid})
  {
  }

  /** Larger bounds keep the post tables valid. */
  lemma RaiseBounds(
    posts: map<nat, Post>, likes: map<nat, set<nat>>,
    comments: map<nat, map<nat, Comment>>, postBound: nat, commentBound: nat,
    largerPost: nat, largerComment: nat)
    requires PostsValid(posts, likes, comments, postBound, commentBound)
    requires postBound <= largerPost && commentBound <= largerComment
    ensures PostsValid(posts, likes, comments, largerPost, largerComment)
  {
  }

  /** Removing a comment keeps the comments valid. */
  lemma RemoveCommentValid(comments: map<nat, map<nat, Comment>>, commentBound: nat, pid: nat, cid: nat)
    requires CommentsValid(comments, commentBound) && pid in comments
    ensures CommentsValid(comments[pid := comments[pid] - {cid}], commentBound)
  {
  }

  class Store {
    var users: map<nat, User>
    /** Normalised e-mail address to user id. */
    var emails: map<string, nat>
    /** Lower-cased nickname to user id. */
    var nicknames: map<string, nat>
    /** Access token to user id. */
    var sessions: map<string, nat>
    var posts: map<nat, Post>
    var postImages: map<nat, Image>
    /** Post id to (comment id to comment). */
    var comments: map<nat, map<nat, Comment>>
    /** Post id to the ids of the users who like it. */
    var likes: map<nat, set<nat>>
    /** storage.userSeq, storage.postSeq and storage.commentSeq. */
    var userSeq: nat
    var postSeq: nat
    var commentSeq: nat
    /** modelsAuth.py's own `userSeq`. */
    var authUserSeq: nat
    /** modelsPosts.py's own `postSeq` and `commentSeq`. */
    var modelPostSeq: nat
    var modelCommentSeq: nat

    function State(): Snapshot
      reads this
    {
      Snapshot(users, emails, nicknames, sessions, posts, postImages, comments, likes,
               userSeq, postSeq, commentSeq, authUserSeq, modelPostSeq, modelCommentSeq)
    }

    /** Every comment id lies at or below the larger comment counter. */
    function CommentBound(): nat
      reads this
    {
      Max(commentSeq, modelCommentSeq)
    }

    ghost predicate Valid()
      reads this
    {
      UsersOk() && PostsOk()
    }

    /** The user tables are valid. */
    ghost predicate UsersOk()
      reads this`users, this`emails, this`nicknames, this`sessions, this`authUserSeq
    {
      UsersValid(users, emails, nicknames, sessions, authUserSeq)
    }

    /** The post tables are valid. */
    ghost predicate PostsOk()
      reads this`posts, this`likes, this`comments, this`modelPostSeq, this`commentSeq, this`modelCommentSeq
    {
      PostsValid(posts, likes, comments, modelPostSeq, Max(commentSeq, modelCommentSeq))
    }

    /** Every post's `commentsCount` is the number of its comments. This is
        not part of `Valid`: the two comment counters can hand out the same
        id twice, and a second comment stored under an existing id replaces
        the first while the count still goes up. */
    ghost predicate CommentCountsTrack()
      reads this
    {
      CountsTrack(posts, comments)
    }

    /** Every stored comment id is at most `n`, so `n + 1` is unused. */
    ghost predicate CommentIdsAtMost(n: nat)
      reads this
    {
      IdsAtMost(comments, n)
    }

    /** Replaces the user table and its two indices in one step and touches
        nothing else; the user half of `Valid` holds afterwards when it holds
        of the new tables. */
    method SetUserTables(newUsers: map<nat, User>, newEmails: map<string, nat>, newNicknames: map<string, nat>)
      modifies this`users, this`emails, this`nicknames
      ensures State() == old(State()).(users := newUsers, emails := newEmails, nicknames := newNicknames)
      ensures UsersValid(newUsers, newEmails, newNicknames, sessions, authUserSeq) ==> UsersOk()
    {
      users, emails, nicknames := newUsers, newEmails, newNicknames;
    }

    /** Replaces the session table and touches nothing else. */
    method SetSessions(newSessions: map<string, nat>)
      modifies this`sessions
      ensures State() == old(State()).(sessions := newSessions)
      ensures UsersValid(users, emails, nicknames, newSessions, authUserSeq) ==> UsersOk()
    {
      sessions := newSessions;
    }

    /** Sets the user counter and touches nothing else. */
    method SetUserSeq(newUserSeq: nat)
      modifies this`authUserSeq
      ensures State() == old(State()).(authUserSeq := newUserSeq)
      ensures UsersValid(users, emails, nicknames, sessions, newUserSeq) ==> UsersOk()
    {
      authUserSeq := newUserSeq;
    }

    /** Replaces the post, like and comment tables in one step and touches
        nothing else; the post half of `Valid` holds afterwards when it holds
        of the new tables. */
    method SetPostTables(newPosts: map<nat, Post>, newLikes: map<nat, set<nat>>,
                         newComments: map<nat, map<nat, Comment>>)
      modifies this`posts, this`likes, this`comments
      ensures State() == old(State()).(posts := newPosts, likes := newLikes, comments := newComments)
      ensures PostsValid(newPosts, newLikes, newComments, modelPostSeq, CommentBound()) ==> PostsOk()
    {
      posts, likes, comments := newPosts, newLikes, newComments;
    }

    /** Sets the post and comment counters in one step and touches nothing
        else; the post half of `Valid` holds afterwards when the tables are
        valid under the new bounds. */
    method SetPostCounters(newPostSeq: nat, newCommentSeq: nat, newModelCommentSeq: nat)
      modifies this`modelPostSeq, this`commentSeq, this`modelCommentSeq
      ensures State() == old(State()).(modelPostSeq := newPostSeq, commentSeq := newCommentSeq,
                                       modelCommentSeq := newModelCommentSeq)
      ensures PostsValid(posts, likes, comments, newPostSeq, Max(newCommentSeq, newModelCommentSeq)) ==> PostsOk()
    {
      modelPostSeq, commentSeq, modelCommentSeq := newPostSeq, newCommentSeq, newModelCommentSeq;
    }

    /** The module-level values storage.py starts with. */
    constructor ()
      ensures Valid() && CommentCountsTrack()
      ensures users == map[] && emails == map[] && nicknames == map[] && sessions == map[]
      ensures posts == map[] && postImages == map[] && comments == map[] && likes == map[]
      ensures userSeq == 0 && postSeq == 0 && commentSeq == 0
      ensures authUserSeq == 0 && modelPostSeq == 0 && modelCommentSeq == 0
    {
      users, emails, nicknames, sessions := map[], map[], map[], map[];
      posts, postImages, comments, likes := map[], map[], map[], map[];
      userSeq, postSeq, commentSeq := 0, 0, 0;
      authUserSeq, modelPostSeq, modelCommentSeq := 0, 0, 0;
    }
  }
}
