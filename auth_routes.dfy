/**
 * routers/auth.py: the bodies of the login, availability-check, password
 * change and account deletion routes. A route that needs a signed-in user
 * receives the stored user `getCurrentUser` resolved (`current`).
 */
module AuthRoutes {
  import opened Basics
  import opened Text
  import opened Errors
  import opened Utils
  import opened Storage
  import opened AuthModel
  import opened AuthControllers

  const WrongPasswordMessage := "*비밀번호 확인과 다릅니다."

  /** The body `login` returns. */
  datatype LoginOut = LoginOut(accessToken: string, tokenType: string)

  /** `POST /auth/login`: the token of a new session, as a bearer token. */
  method Login(s: Store, pwd: PasswordContext, email: string, password: string, token: string)
    returns (r: Result<LoginOut>)
    requires s.Valid()
    modifies s
    ensures NormalizeEmail(email).Err? ==> r == Err(NormalizeEmail(email).error)
    ensures NormalizeEmail(email).Ok? ==>
      var u := old(GetUserByEmailNorm(s, NormalizeEmail(email).value));
      && (u.None? || !pwd.verify(password, u.value.passwordHash) ==> r == Err(InvalidCredentials()))
      && (u.Some? && pwd.verify(password, u.value.passwordHash) ==>
            r == Ok(LoginOut(token, "bearer")) && s.State() == old(s.State()).(sessions := old(s.sessions)[token := u.value.id]))
    ensures r.Err? ==> s.State() == old(s.State())
    ensures token != [] ==> s.Valid()
  {
    var t := CtrlLogin(s, pwd, email, password, token);
    if t.Err? {
      return Err(t.error);
    }
    r := Ok(LoginOut(t.value, "bearer"));
  }

  /** The `message` of an availability answer: a text, or (as `checkNickname`
      sends it) a whole error detail. */
  datatype Message = Text(text: string) | DetailMsg(detail: Detail)

  /** `{"available": ..., "message": ...}`. */
  datatype Availability = Availability(available: bool, message: Message)

  /** `GET /auth/check-email`: unavailable with the format message for a
      malformed address, unavailable with the duplicate message for a taken
      one, available with an empty message otherwise. */
  function CheckEmail(s: Store, email: string): (r: Availability)
    reads s
    ensures r.available <==> NormalizeEmail(email).Ok? && !IsEmailTaken(s, NormalizeEmail(email).value)
    ensures NormalizeEmail(email).Err? ==> r == Availability(false, Text(EmailFormatMessage))
    ensures NormalizeEmail(email).Ok? && IsEmailTaken(s, NormalizeEmail(email).value) ==>
      r == Availability(false, Text(DuplicateEmailMessage))
    ensures r.available ==> r.message == Text("")
  {
    var e := NormalizeEmail(email);
    if e.Err? then Availability(false, Text(e.error.detail.message.value))
    else if e.value in s.emails then Availability(false, Text(DuplicateEmailMessage))
    else Availability(true, Text(""))
  }

  /** What follows the validator in `checkNickname`: checks that repeat the
      validator's and cannot fail after it passed, then the duplicate check. */
  function NicknameAvailability(s: Store, nickname: string): (r: Availability)
    reads s
    requires ValidateNickname(nickname).Pass?
    ensures r.available <==> !IsNicknameTaken(s, nickname, None)
    ensures r == if IsNicknameTaken(s, nickname, None)
                 then Availability(false, Text(DuplicateNicknameMessage))
                 else Availability(true, Text(""))
  {
    if nickname == [] || Strip(nickname) == [] then Availability(false, Text(NicknameRequiredMessage))
    else if ' ' in nickname then Availability(false, Text(NicknameSpaceMessage))
    else if |nickname| > 10 then Availability(false, Text(NicknameLengthMessage))
    else if Lower(nickname) in s.nicknames && s.nicknames[Lower(nickname)] != 0 then
      Availability(false, Text(DuplicateNicknameMessage))
    else Availability(true, Text(""))
  }

  /** `GET /auth/check-nickname` as written: for a nickname the validator
      rejects, the message is the whole error detail rather than its text. */
  function CheckNickname(s: Store, nickname: string): (r: Availability)
    reads s
    ensures r.available <==> ValidateNickname(nickname).Pass? && !IsNicknameTaken(s, nickname, None)
    ensures ValidateNickname(nickname).Fail? ==>
      r == Availability(false, DetailMsg(ValidateNickname(nickname).error.detail))
  {
    match ValidateNickname(nickname)
    case Fail(ex) => Availability(false, DetailMsg(ex.detail))
    case Pass => NicknameAvailability(s, nickname)
  }

  /** The empty nickname shows it: the answer carries the error detail
      object, not the text "*닉네임을 입력해주세요.". */
  lemma CheckNicknameSendsDetail(s: Store)
    ensures CheckNickname(s, "") ==
      Availability(false, DetailMsg(Structured(Some("BAD_REQUEST"), Some(NicknameRequiredMessage), None)))
    ensures CheckNickname(s, "").message != Text(NicknameRequiredMessage)
  {
  }

  /** `GET /auth/check-nickname` as evidently intended: the validator's
      message as text, exactly as `checkEmail` does it. */
  function CheckNicknameFixed(s: Store, nickname: string): (r: Availability)
    reads s
    ensures r.available <==> ValidateNickname(nickname).Pass? && !IsNicknameTaken(s, nickname, None)
    ensures r.message.Text?
    ensures ValidateNickname(nickname).Fail? ==>
      r == Availability(false, Text(ValidateNickname(nickname).error.detail.message.value))
    ensures ValidateNickname(nickname).Pass? ==> r == CheckNickname(s, nickname)
  {
    match ValidateNickname(nickname)
    case Fail(ex) => Availability(false, Text(ex.detail.message.value))
    case Pass => NicknameAvailability(s, nickname)
  }

  /** In a valid store the corrected check answers "available" exactly when
      sign-up would accept the nickname, with the validator's own message
      otherwise. */
  lemma CheckNicknameFixedAgreesWithSignup(s: Store, nickname: string)
    requires s.Valid()
    ensures CheckNicknameFixed(s, nickname).available
      <==> ValidateNickname(nickname).Pass?
           && !exists uid :: uid in s.users && Lower(s.users[uid].nickname) == Lower(nickname)
    ensures IsBlank(nickname) ==> CheckNicknameFixed(s, nickname) == Availability(false, Text(NicknameRequiredMessage))
  {
    IsNicknameTakenSpec(s, nickname, None);
  }

  /** The body `uploadAvatar` returns. */
  datatype AvatarOut = AvatarOut(ok: bool, filename: string)

  /** `POST /users/me/avatar`: the signed-in user's stored record (the dict
      `current` is) gets the uploaded file as its avatar; nothing else changes. */
  method UploadAvatar(s: Store, current: User, filename: string, content: seq<byte>)
    returns (r: AvatarOut)
    requires s.Valid()
    requires current.id in s.users && s.users[current.id] == current
    modifies s
    ensures r == AvatarOut(true, filename)
    ensures s.State() == old(s.State()).(users := old(s.users)[current.id := current.(avatar := Some(Image(filename, content)))])
    ensures s.Valid()
  {
    ReplaceUserValid(s.users, s.emails, s.nicknames, s.sessions, s.authUserSeq,
                     current.(avatar := Some(Image(filename, content))));
    s.SetUserTables(s.users[current.id := current.(avatar := Some(Image(filename, content)))],
                    s.emails, s.nicknames);
    r := AvatarOut(true, filename);
  }

  /** `DELETE /users/me/avatar`: clears the signed-in user's avatar. */
  method DeleteAvatar(s: Store, current: User) returns (ok: bool)
    requires s.Valid()
    requires current.id in s.users && s.users[current.id] == current
    modifies s
    ensures ok
    ensures s.State() == old(s.State()).(users := old(s.users)[current.id := current.(avatar := None)])
    ensures s.Valid()
  {
    ReplaceUserValid(s.users, s.emails, s.nicknames, s.sessions, s.authUserSeq, current.(avatar := None));
    s.SetUserTables(s.users[current.id := current.(avatar := None)], s.emails, s.nicknames);
    ok := true;
  }

  /** `POST /users/me/change-password`: a wrong current password is a 400
      whatever the new password is; then the new password is validated; only
      then is the stored hash replaced. */
  method ChangePassword(s: Store, pwd: PasswordContext, current: User, currentPassword: string, newPassword: string)
    returns (r: Result<bool>)
    requires s.Valid()
    requires current.id in s.users && s.users[current.id] == current
    modifies s
    ensures !pwd.verify(currentPassword, current.passwordHash) ==> r == Err(BadRequest(WrongPasswordMessage))
    ensures pwd.verify(currentPassword, current.passwordHash) && ValidatePassword(newPassword).Fail? ==>
      r == Err(ValidatePassword(newPassword).error)
    ensures r.Err? ==> s.State() == old(s.State())
    ensures pwd.verify(currentPassword, current.passwordHash) && ValidatePassword(newPassword).Pass? ==>
      && r == Ok(true)
      && s.State() == old(s.State()).(users := old(s.users)[current.id := current.(passwordHash := pwd.hash(newPassword))])
    ensures s.Valid()
    ensures s.CommentCountsTrack() == old(s.CommentCountsTrack())
  {
    if !pwd.verify(currentPassword, current.passwordHash) {
      return Err(BadRequest(WrongPasswordMessage));
    }
    var check := ValidatePassword(newPassword);
    if check.Fail? {
      return Err(check.error);
    }
    ReplaceUserValid(s.users, s.emails, s.nicknames, s.sessions, s.authUserSeq,
                     current.(passwordHash := pwd.hash(newPassword)));
    s.SetUserTables(s.users[current.id := current.(passwordHash := pwd.hash(newPassword))],
                    s.emails, s.nicknames);
    r := Ok(true);
  }

  /** `DELETE /users/me`: drops every session of the user, its e-mail and
      lower-cased nickname index entries, and the user. */
  method DeleteMe(s: Store, current: User) returns (ok: bool)
    requires s.Valid()
    requires current.id in s.users && s.users[current.id] == current
    modifies s
    ensures ok
    ensures s.State() == old(s.State()).(
      sessions := SessionsWithout(old(s.sessions), current.id),
      users := old(s.users) - {current.id},
      emails := old(s.emails) - {current.email},
      nicknames := old(s.nicknames) - {Lower(current.nickname)})
    ensures current.id !in s.users && forall t :: t in s.sessions ==> s.sessions[t] != current.id
    ensures s.Valid()
    ensures s.CommentCountsTrack() == old(s.CommentCountsTrack())
  {
    DeleteUserValid(s.users, s.emails, s.nicknames, s.sessions, s.authUserSeq, current.id);
    RemoveSessionsOf(s, current.id);
    s.SetUserTables(s.users - {current.id}, s.emails - {current.email}, s.nicknames - {Lower(current.nickname)});
    ok := true;
  }
}
