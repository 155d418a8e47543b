/**
 * controllers/auth.py: sign-up, login, profile lookup, nickname change and
 * account deletion, in terms of the modelsAuth.py operations.
 */
module AuthControllers {
  import opened Basics
  import opened Text
  import opened Errors
  import opened Utils
  import opened Storage
  import opened AuthModel

  const DuplicateEmailMessage := "*중복된 이메일 입니다."
  const DuplicateNicknameMessage := "*중복된 닉네임 입니다."
  const InvalidCredentialsMessage := "*아이디 또는 비밀번호를 확인해주세요."
  const UserNotFoundMessage := "사용자를 찾을 수 없습니다."

  /** The one error of a failed login, whatever the reason. */
  function InvalidCredentials(): (e: Raised)
    ensures InTaxonomy(e) && e.status == 401 && CodeOf(e) == "INVALID_CREDENTIALS"
    ensures e.detail.message == Some(InvalidCredentialsMessage) && e.detail.fields == None
  {
    HttpError(401, Structured(Some("INVALID_CREDENTIALS"), Some(InvalidCredentialsMessage), None))
  }

  /** The checks of `ctrlSignup`, in order: the e-mail format, the
      password, the nickname, a taken address and a taken nickname (ignoring
      letter case). The first that fails is the error. */
  function SignupCheck(emails: map<string, nat>, nicknames: map<string, nat>, email: string, password: string, nickname: string): (r: Outcome)
    ensures r.Pass? <==>
      && NormalizeEmail(email).Ok? && PasswordRule(password) && ValidateNickname(nickname).Pass?
      && NormalizeEmail(email).value !in emails && !NicknameTakenIn(nicknames, nickname, None)
    ensures NormalizeEmail(email).Err? ==> r == Fail(BadRequest(EmailFormatMessage))
    ensures NormalizeEmail(email).Ok? && ValidatePassword(password).Fail? ==> r == Fail(ValidatePassword(password).error)
    ensures NormalizeEmail(email).Ok? && ValidatePassword(password).Pass? && ValidateNickname(nickname).Fail? ==>
      r == Fail(ValidateNickname(nickname).error)
    ensures NormalizeEmail(email).Ok? && ValidatePassword(password).Pass? && ValidateNickname(nickname).Pass? ==>
      && (NormalizeEmail(email).value in emails ==> r == Fail(BadRequest(DuplicateEmailMessage)))
      && (NormalizeEmail(email).value !in emails && NicknameTakenIn(nicknames, nickname, None) ==>
            r == Fail(BadRequest(DuplicateNicknameMessage)))
  {
    var e := NormalizeEmail(email);
    if e.Err? then Fail(e.error)
    else if ValidatePassword(password).Fail? then ValidatePassword(password)
    else if ValidateNickname(nickname).Fail? then ValidateNickname(nickname)
    else if e.value in emails then Fail(BadRequest(DuplicateEmailMessage))
    else if NicknameTakenIn(nicknames, nickname, None) then Fail(BadRequest(DuplicateNicknameMessage))
    else Pass
  }

  /** `ctrlSignup`: the first failing check is the error and nothing
      changes; when all pass, the user is created with the hashed password
      under the next id, and the store stays valid. */
  method CtrlSignup(s: Store, pwd: PasswordContext, email: string, password: string, nickname: string, now: int)
    returns (r: Result<User>)
    requires s.Valid()
    modifies s
    ensures SignupCheck(old(s.emails), old(s.nicknames), email, password, nickname).Fail? ==>
      r == Err(SignupCheck(old(s.emails), old(s.nicknames), email, password, nickname).error) && s.State() == old(s.State())
    ensures SignupCheck(old(s.emails), old(s.nicknames), email, password, nickname).Pass? ==>
      r == Ok(User(old(s.authUserSeq) + 1, NormalizeEmail(email).value, old(pwd.hash(password)), nickname, now, None))
    ensures r.Ok? ==>
      s.State() == old(s.State()).(
        users := old(s.users)[r.value.id := r.value],
        emails := old(s.emails)[r.value.email := r.value.id],
        nicknames := old(s.nicknames)[Lower(nickname) := r.value.id],
        authUserSeq := r.value.id)
    ensures s.Valid()
    ensures s.CommentCountsTrack() == old(s.CommentCountsTrack())
  {
    var check := SignupCheck(s.emails, s.nicknames, email, password, nickname);
    if check.Fail? {
      return Err(check.error);
    }
    var e := NormalizeEmail(email).value;
    IndexedNicknameOwned(s.users, s.emails, s.nicknames, s.sessions, s.authUserSeq, Lower(nickname));
    ghost var hash := pwd.hash(password);
    var u := CreateUser(s, e, pwd.hash(password), nickname, now);
    assert u.id == old(s.authUserSeq) + 1;
    assert u.email == NormalizeEmail(email).value;
    assert u.passwordHash == hash;
    assert u == User(old(s.authUserSeq) + 1, NormalizeEmail(email).value, hash, nickname, now, None);
    r := Ok(u);
  }

  /** `ctrlLogin`: a malformed address fails as in `normalizeEmail`; an
      unknown address and a wrong password fail with the same 401; otherwise
      a session for the user is opened with the given token. */
  method CtrlLogin(s: Store, pwd: PasswordContext, email: string, password: string, token: string)
    returns (r: Result<string>)
    requires s.Valid()
    modifies s
    ensures NormalizeEmail(email).Err? ==> r == Err(NormalizeEmail(email).error)
    ensures NormalizeEmail(email).Ok? ==>
      var u := old(GetUserByEmailNorm(s, NormalizeEmail(email).value));
      && (u.None? ==> r == Err(InvalidCredentials()))
      && (u.Some? && !pwd.verify(password, u.value.passwordHash) ==> r == Err(InvalidCredentials()))
      && (u.Some? && pwd.verify(password, u.value.passwordHash) ==>
            r == Ok(token) && s.State() == old(s.State()).(sessions := old(s.sessions)[token := u.value.id]))
    ensures r.Err? ==> s.State() == old(s.State())
    ensures r.Ok? ==>
      && token in s.sessions && s.sessions[token] in s.users
      && s.users[s.sessions[token]].email == NormalizeEmail(email).value
    ensures token != [] ==> s.Valid()
    ensures s.CommentCountsTrack() == old(s.CommentCountsTrack())
  {
    var e := NormalizeEmail(email);
    if e.Err? {
      return Err(e.error);
    }
    var u := GetUserByEmailNorm(s, e.value);
    if u.None? || !pwd.verify(password, u.value.passwordHash) {
      return Err(InvalidCredentials());
    }
    GetUserByEmailNormSpec(s, e.value);
    var t := IssueToken(s, u.value.id, token);
    r := Ok(t);
  }

  /** `ctrlGetUser`: the user, or 404. */
  function CtrlGetUser(s: Store, uid: nat): (r: Result<User>)
    reads s
    ensures r.Ok? <==> uid in s.users
    ensures r.Ok? ==> r.value == s.users[uid]
    ensures r.Err? ==> r.error == NotFound(UserNotFoundMessage)
  {
    match GetUser(s, uid)
    case None => Err(NotFound(UserNotFoundMessage))
    case Some(u) => Ok(u)
  }

  /** `ctrlUpdateUser`: validates the nickname, rejects one another user holds
      (ignoring letter case), then renames; a user may keep or re-case its
      own nickname. */
  method CtrlUpdateUser(s: Store, uid: nat, nickname: string) returns (r: Result<User>)
    requires s.Valid()
    modifies s
    ensures ValidateNickname(nickname).Fail? ==> r == Err(ValidateNickname(nickname).error)
    ensures ValidateNickname(nickname).Pass? && old(IsNicknameTaken(s, nickname, Some(uid))) ==>
      r == Err(BadRequest(DuplicateNicknameMessage))
    ensures ValidateNickname(nickname).Pass? && !old(IsNicknameTaken(s, nickname, Some(uid))) ==>
      && (uid !in old(s.users) ==> r == Err(KeyError))
      && (uid in old(s.users) ==>
            && r == Ok(old(s.users)[uid].(nickname := nickname))
            && s.State() == old(s.State()).(
                 users := old(s.users)[uid := r.value],
                 nicknames := (old(s.nicknames) - {Lower(old(s.users)[uid].nickname)})[Lower(nickname) := uid]))
    ensures ValidateNickname(nickname).Pass? && uid in old(s.users) && Lower(nickname) == Lower(old(s.users)[uid].nickname)
      ==> r.Ok?
    ensures r.Err? ==> s.State() == old(s.State())
    ensures s.Valid()
    ensures s.CommentCountsTrack() == old(s.CommentCountsTrack())
  {
    var nick := ValidateNickname(nickname);
    if nick.Fail? {
      return Err(nick.error);
    }
    if IsNicknameTaken(s, nickname, Some(uid)) {
      return Err(BadRequest(DuplicateNicknameMessage));
    }
    r := UpdateNickname(s, uid, nickname);
  }

  /** `ctrlDeleteMe`: `deleteUser`. */
  method CtrlDeleteMe(s: Store, uid: nat) returns (ok: bool)
    requires s.Valid()
    modifies s
    ensures ok
    ensures uid !in s.users && forall t :: t in s.sessions ==> s.sessions[t] != uid
    ensures uid !in old(s.users) ==> s.State() == old(s.State()).(sessions := SessionsWithout(old(s.sessions), uid))
    ensures uid in old(s.users) ==>
      && var u := old(s.users)[uid];
      && s.State() == old(s.State()).(
           sessions := SessionsWithout(old(s.sessions), uid),
           users := old(s.users) - {uid},
           emails := old(s.emails) - {u.email},
           nicknames := if u.nickname != [] then old(s.nicknames) - {Lower(u.nickname)} else old(s.nicknames))
    ensures s.Valid()
  {
    ok := DeleteUser(s, uid);
  }
}
