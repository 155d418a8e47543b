/**
 * modelsAuth.py: users, the e-mail and nickname indices, and sessions.
 * User ids come from this module's own copy of `userSeq`
 * (`Store.authUserSeq`); `datetime.now` is the parameter `now`, and the
 * random token of `issueToken` is the parameter `token`.
 */
module AuthModel {
  import opened Basics
  import opened Text
  import opened Errors
  import opened Storage

  /** `createUser`: the next id, the given fields, no avatar; the user is
      indexed under its e-mail address and its lower-cased nickname. The
      store stays valid when the address and nickname are free and the
      nickname is not empty, which is what the sign-up checks ensure. */
  method CreateUser(s: Store, emailNorm: string, passwordHash: string, nickname: string, now: int)
    returns (u: User)
    requires s.Valid()
    modifies s
    ensures u == User(old(s.authUserSeq) + 1, emailNorm, passwordHash, nickname, now, None)
    ensures u.id !in old(s.users)
    ensures s.State() == old(s.State()).(
      users := old(s.users)[u.id := u],
      emails := old(s.emails)[emailNorm := u.id],
      nicknames := old(s.nicknames)[Lower(nickname) := u.id],
      authUserSeq := u.id)
    ensures emailNorm !in old(s.emails) && Lower(nickname) !in old(s.nicknames) && nickname != []
      ==> s.Valid()
    ensures s.CommentCountsTrack() == old(s.CommentCountsTrack())
  {
    var uid := s.authUserSeq + 1;
    u := User(uid, emailNorm, passwordHash, nickname, now, None);
    if emailNorm !in s.emails && Lower(nickname) !in s.nicknames && nickname != [] {
      CreateUserValid(s.users, s.emails, s.nicknames, s.sessions, s.authUserSeq, u);
      RaiseUserBound(s.users, s.emails, s.nicknames, s.sessions, s.authUserSeq, uid);
    }
    s.SetUserSeq(uid);
    s.SetUserTables(s.users[uid := u], s.emails[emailNorm := uid], s.nicknames[Lower(nickname) := uid]);
  }

  /** Adding a user with the next id, a free address and a free non-empty
      nickname keeps the user tables valid. */
  lemma CreateUserValid(
    users: map<nat, User>, emails: map<string, nat>, nicknames: map<string, nat>,
    sessions: map<string, nat>, bound: nat, u: User)
    requires UsersValid(users, emails, nicknames, sessions, bound)
    requires u.id == bound + 1 && u.email !in emails && Lower(u.nickname) !in nicknames && u.nickname != []
    ensures UsersValid(users[u.id := u], emails[u.email := u.id], nicknames[Lower(u.nickname) := u.id], sessions, u.id)
  {
    assert u.id !in users;
  }

  /** Every indexed nickname belongs to a user, and user ids start at 1, so
      an indexed nickname always has a truthy owner: one that is not taken
      is not indexed at all. */
  lemma IndexedNicknameOwned(
    users: map<nat, User>, emails: map<string, nat>, nicknames: map<string, nat>,
    sessions: map<string, nat>, bound: nat, key: string)
    requires UsersValid(users, emails, nicknames, sessions, bound)
    ensures key in nicknames ==> nicknames[key] in users && nicknames[key] != 0
  {
  }

  /** `getUserByEmailNorm`: the user the address is indexed under, if any. */
  function GetUserByEmailNorm(s: Store, emailNorm: string): (r: Option<User>)
    reads s
    ensures r.Some? ==> emailNorm in s.emails && s.emails[emailNorm] in s.users && r.value == s.users[s.emails[emailNorm]]
  {
    if emailNorm in s.emails && s.emails[emailNorm] != 0 && s.emails[emailNorm] in s.users
    then Some(s.users[s.emails[emailNorm]])
    else None
  }

  /** In a valid store the lookup by address finds exactly the user with
      that address. */
  lemma GetUserByEmailNormSpec(s: Store, emailNorm: string)
    requires s.Valid()
    ensures GetUserByEmailNorm(s, emailNorm).Some? <==> exists uid :: uid in s.users && s.users[uid].email == emailNorm
    ensures GetUserByEmailNorm(s, emailNorm).Some? ==> GetUserByEmailNorm(s, emailNorm).value.email == emailNorm
  {
    if uid :| uid in s.users && s.users[uid].email == emailNorm {
      assert s.emails[emailNorm] == uid;
    }
  }

  /** `getUser`: `users.get(uid)`. */
  function GetUser(s: Store, uid: nat): (r: Option<User>)
    reads s
    ensures r.Some? <==> uid in s.users
    ensures r.Some? ==> r.value == s.users[uid]
  {
    if uid in s.users then Some(s.users[uid]) else None
  }

  /** `isEmailTaken`. */
  predicate IsEmailTaken(s: Store, emailNorm: string)
    reads s
  {
    emailNorm in s.emails
  }

  /** In a valid store an address is taken exactly when some user has it. */
  lemma IsEmailTakenSpec(s: Store, emailNorm: string)
    requires s.Valid()
    ensures IsEmailTaken(s, emailNorm) <==> exists uid :: uid in s.users && s.users[uid].email == emailNorm
  {
    if emailNorm in s.emails {
      assert s.users[s.emails[emailNorm]].email == emailNorm;
    }
  }

  /** `isNicknameTaken(nickname, excludeUid)`: the index has a (truthy)
      owner for the lower-cased nickname, other than `exclude`. */
  predicate IsNicknameTaken(s: Store, nickname: string, exclude: Option<nat>)
    reads s
  {
    NicknameTakenIn(s.nicknames, nickname, exclude)
  }

  predicate NicknameTakenIn(nicknames: map<string, nat>, nickname: string, exclude: Option<nat>) {
    var key := Lower(nickname);
    key in nicknames && nicknames[key] != 0 && Some(nicknames[key]) != exclude
  }

  /** In a valid store a nickname is taken exactly when a user other than
      `exclude` has a nickname equal to it up to letter case. */
  lemma IsNicknameTakenSpec(s: Store, nickname: string, exclude: Option<nat>)
    requires s.Valid()
    ensures IsNicknameTaken(s, nickname, exclude)
      <==> exists uid :: uid in s.users && Lower(s.users[uid].nickname) == Lower(nickname) && Some(uid) != exclude
  {
    var key := Lower(nickname);
    if uid :| uid in s.users && Lower(s.users[uid].nickname) == key && Some(uid) != exclude {
      assert s.nicknames[key] == uid;
    }
    if IsNicknameTaken(s, nickname, exclude) {
      assert Lower(s.users[s.nicknames[key]].nickname) == key;
    }
  }

  /** `updateNickname`: `users[uid]` raises `KeyError` for an unknown user;
      otherwise the old nickname's index entry is dropped when it points to
      this user, the nickname is replaced and the new lower-cased nickname is
      indexed. The store stays valid when no other user holds the new
      nickname and it is not empty. */
  method UpdateNickname(s: Store, uid: nat, nickname: string) returns (r: Result<User>)
    requires s.Valid()
    modifies s
    ensures uid !in old(s.users) ==> r == Err(KeyError) && s.State() == old(s.State())
    ensures uid in old(s.users) ==>
      && var oldKey := Lower(old(s.users)[uid].nickname);
      && r == Ok(old(s.users)[uid].(nickname := nickname))
      && s.State() == old(s.State()).(
           users := old(s.users)[uid := r.value],
           nicknames := (old(s.nicknames) - {oldKey})[Lower(nickname) := uid])
    ensures uid in old(s.users) && !old(IsNicknameTaken(s, nickname, Some(uid))) && nickname != [] ==> s.Valid()
    ensures s.CommentCountsTrack() == old(s.CommentCountsTrack())
  {
    if uid !in s.users {
      return Err(KeyError);
    }
    var u := s.users[uid];
    var oldNick := u.nickname;
    var nicknames := s.nicknames;
    if oldNick != [] && Lower(oldNick) in nicknames && nicknames[Lower(oldNick)] == uid {
      nicknames := nicknames - {Lower(oldNick)};
    }
    u := u.(nickname := nickname);
    if !IsNicknameTaken(s, nickname, Some(uid)) && nickname != [] {
      UpdateNicknameValid(s.users, s.emails, s.nicknames, s.sessions, s.authUserSeq, u);
    }
    s.SetUserTables(s.users[uid := u], s.emails, nicknames[Lower(nickname) := uid]);
    r := Ok(u);
  }

  /** Renaming a user to a non-empty nickname no other user holds keeps the
      user tables valid. */
  lemma UpdateNicknameValid(
    users: map<nat, User>, emails: map<string, nat>, nicknames: map<string, nat>,
    sessions: map<string, nat>, bound: nat, u: User)
    requires UsersValid(users, emails, nicknames, sessions, bound)
    requires u.id in users && u == users[u.id].(nickname := u.nickname) && u.nickname != []
    requires var key := Lower(u.nickname); !(key in nicknames && nicknames[key] != 0 && nicknames[key] != u.id)
    ensures UsersValid(users[u.id := u], emails,
                       (nicknames - {Lower(users[u.id].nickname)})[Lower(u.nickname) := u.id], sessions, bound)
  {
    var after := (nicknames - {Lower(users[u.id].nickname)})[Lower(u.nickname) := u.id];
    var users' := users[u.id := u];
    forall n | n in after
      ensures after[n] in users' && Lower(users'[after[n]].nickname) == n
    {
    }
    forall uid | uid in users'
      ensures Lower(users'[uid].nickname) in after && after[Lower(users'[uid].nickname)] == uid
    {
      if uid != u.id {
        assert nicknames[Lower(users[uid].nickname)] == uid;
      }
    }
  }

  /** `issueToken`: the session maps the token to the user. The token is
      random in the source, so it is a parameter here; the store stays valid
      for a non-empty token of an existing user. */
  method IssueToken(s: Store, uid: nat, token: string) returns (t: string)
    requires s.Valid()
    modifies s
    ensures t == token
    ensures s.State() == old(s.State()).(sessions := old(s.sessions)[token := uid])
    ensures token != [] && uid in s.users ==> s.Valid()
    ensures s.CommentCountsTrack() == old(s.CommentCountsTrack())
  {
    if token != [] && uid in s.users {
      IssueSessionValid(s.users, s.emails, s.nicknames, s.sessions, s.authUserSeq, token, uid);
    }
    s.SetSessions(s.sessions[token := uid]);
    t := token;
  }

  lemma IssueSessionValid(
    users: map<nat, User>, emails: map<string, nat>, nicknames: map<string, nat>,
    sessions: map<string, nat>, bound: nat, token: string, uid: nat)
    requires UsersValid(users, emails, nicknames, sessions, bound)
    requires token != [] && uid in users
    ensures UsersValid(users, emails, nicknames, sessions[token := uid], bound)
  {
  }

  /** The sessions left once every session of `uid` is dropped. */
  function SessionsWithout(sessions: map<string, nat>, uid: nat): map<string, nat> {
    map t | t in sessions && sessions[t] != uid :: sessions[t]
  }

  /** The session clean-up loop of `deleteUser`: visits every token and
      drops those of `uid`, keeping all the others. */
  method RemoveSessionsOf(s: Store, uid: nat)
    modifies s
    ensures s.State() == old(s.State()).(sessions := SessionsWithout(old(s.sessions), uid))
    ensures forall t :: t in s.sessions ==> s.sessions[t] != uid
  {
    var pending := s.sessions.Keys;
    while pending != {}
      invariant s.State() == old(s.State()).(sessions := s.sessions)
      invariant forall t :: t in s.sessions <==> t in old(s.sessions) && (t in pending || old(s.sessions)[t] != uid)
      invariant forall t :: t in s.sessions ==> s.sessions[t] == old(s.sessions)[t]
      decreases pending
    {
      var t :| t in pending;
      if s.sessions[t] == uid {
        s.sessions := s.sessions - {t};
      }
      pending := pending - {t};
    }
  }

  /** `deleteUser`: drops the user's sessions, its e-mail and nickname index
      entries and the user; always `True`, also for an unknown user. The
      user's posts, comments and likes stay. */
  method DeleteUser(s: Store, uid: nat) returns (ok: bool)
    requires s.Valid()
    modifies s
    ensures ok
    ensures uid !in old(s.users) ==> s.State() == old(s.State()).(sessions := SessionsWithout(old(s.sessions), uid))
    ensures uid in old(s.users) ==>
      && var u := old(s.users)[uid];
      && s.State() == old(s.State()).(
           sessions := SessionsWithout(old(s.sessions), uid),
           users := old(s.users) - {uid},
           emails := old(s.emails) - {u.email},
           nicknames := if u.nickname != [] then old(s.nicknames) - {Lower(u.nickname)} else old(s.nicknames))
    ensures s.Valid()
    ensures uid !in s.users && forall t :: t in s.sessions ==> s.sessions[t] != uid
    ensures s.CommentCountsTrack() == old(s.CommentCountsTrack())
  {
    RemoveSessionsOf(s, uid);
    var users, emails, nicknames := s.users, s.emails, s.nicknames;
    if uid in users {
      var u := users[uid];
      emails := emails - {u.email};
      if u.nickname != [] {
        nicknames := nicknames - {Lower(u.nickname)};
      }
      users := users - {uid};
    }
    DeleteUserValid(old(s.users), old(s.emails), old(s.nicknames), old(s.sessions), s.authUserSeq, uid);
    s.SetUserTables(users, emails, nicknames);
    ok := true;
  }

  /** Dropping a user together with its sessions and index entries keeps
      the user tables valid. */
  lemma DeleteUserValid(
    users: map<nat, User>, emails: map<string, nat>, nicknames: map<string, nat>,
    sessions: map<string, nat>, bound: nat, uid: nat)
    requires UsersValid(users, emails, nicknames, sessions, bound)
    ensures uid !in users ==> UsersValid(users, emails, nicknames, SessionsWithout(sessions, uid), bound)
    ensures uid in users ==> UsersValid(
      users - {uid}, emails - {users[uid].email},
      nicknames - {Lower(users[uid].nickname)}, SessionsWithout(sessions, uid), bound)
  {
  }
}
