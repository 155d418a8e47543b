/**
 * utils.py: the error raisers, each returning the exception it raises, and
 * the e-mail, password and nickname validators.
 */
module Utils {
  import opened Basics
  import opened Text
  import opened Errors

  const AuthRequiredMessage := "토큰이 필요합니다. (Bearer <token>)"
  const InvalidTokenMessage := "유효하지 않은 토큰"
  const ForbiddenMessage := "권한이 없습니다."
  const NotFoundMessage := "리소스를 찾을 수 없습니다."
  const PayloadTooLargeMessage := "파일 용량이 허용치를 초과했습니다."

  /** `badRequest(message, fields)`: 400 with the caller's message and fields. */
  function BadRequest(message: string, fields: Option<Fields> := None): (e: Raised)
    ensures InTaxonomy(e) && e.status == 400 && CodeOf(e) == "BAD_REQUEST"
    ensures e.detail.message == Some(message) && e.detail.fields == fields
  {
    HttpError(400, Structured(Some("BAD_REQUEST"), Some(message), fields))
  }

  /** `authRequired()`: 401 with a fixed message and no fields. */
  function AuthRequired(): (e: Raised)
    ensures InTaxonomy(e) && e.status == 401 && CodeOf(e) == "AUTH_REQUIRED"
    ensures e.detail.message == Some(AuthRequiredMessage) && e.detail.fields == None
  {
    HttpError(401, Structured(Some("AUTH_REQUIRED"), Some(AuthRequiredMessage), None))
  }

  /** `invalidToken()`: 401 with a fixed message and no fields. */
  function InvalidToken(): (e: Raised)
    ensures InTaxonomy(e) && e.status == 401 && CodeOf(e) == "INVALID_TOKEN"
    ensures e.detail.message == Some(InvalidTokenMessage) && e.detail.fields == None
  {
    HttpError(401, Structured(Some("INVALID_TOKEN"), Some(InvalidTokenMessage), None))
  }

  /** `forbidden(message)`: 403 with the message and no fields. */
  function Forbidden(message: string := ForbiddenMessage): (e: Raised)
    ensures InTaxonomy(e) && e.status == 403 && CodeOf(e) == "FORBIDDEN"
    ensures e.detail.message == Some(message) && e.detail.fields == None
  {
    HttpError(403, Structured(Some("FORBIDDEN"), Some(message), None))
  }

  /** `notFound(message)`: 404 with the message and no fields. */
  function NotFound(message: string := NotFoundMessage): (e: Raised)
    ensures InTaxonomy(e) && e.status == 404 && CodeOf(e) == "NOT_FOUND"
    ensures e.detail.message == Some(message) && e.detail.fields == None
  {
    HttpError(404, Structured(Some("NOT_FOUND"), Some(message), None))
  }

  /** `payloadTooLarge(message)`: 413 with the message and no fields. */
  function PayloadTooLarge(message: string := PayloadTooLargeMessage): (e: Raised)
    ensures InTaxonomy(e) && e.status == 413 && CodeOf(e) == "PAYLOAD_TOO_LARGE"
    ensures e.detail.message == Some(message) && e.detail.fields == None
  {
    HttpError(413, Structured(Some("PAYLOAD_TOO_LARGE"), Some(message), None))
  }

  /** `pwdContext`: the pbkdf2-sha256 password hasher, as its two operations. */
  datatype PasswordContext = PasswordContext(hash: string -> string, verify: (string, string) -> bool)

  // ---------------------------------------------------------------- e-mail

  const EmailFormatMessage := "*올바른 이메일 주소 형식을 입력해주세요. (예: example@example.com)"

  /** The shape `normalizeEmail` accepts: non-empty, with an `@`, and with a
      `.` in the part after the last `@`. */
  predicate EmailShapeOk(e: string) {
    e != [] && '@' in e && '.' in AfterLast(e, '@')
  }

  /** `normalizeEmail(email)`: the stripped, lower-cased address, or a 400 when
      it lacks the expected shape. */
  function NormalizeEmail(email: string): Result<string> {
    var e := Lower(Strip(email));
    if e == [] || '@' !in e || '.' !in AfterLast(e, '@') then
      Err(BadRequest(EmailFormatMessage))
    else
      Ok(e)
  }

  /** What `NormalizeEmail` returns: the stripped, lower-cased address exactly
      when it has the expected shape, and then a stripped, lowered address
      with an `@`; the format error otherwise. */
  lemma NormalizeEmailSpec(email: string)
    ensures NormalizeEmail(email).Ok? <==> EmailShapeOk(Lower(Strip(email)))
    ensures NormalizeEmail(email).Ok? ==> NormalizeEmail(email).value == Lower(Strip(email))
    ensures NormalizeEmail(email).Ok? ==>
      var e := NormalizeEmail(email).value; IsStripped(e) && IsLowered(e) && '@' in e
    ensures NormalizeEmail(email).Err? ==> NormalizeEmail(email).error == BadRequest(EmailFormatMessage)
  {
    LowerSpec(Strip(email));
    LowerKeepsSpaces(Strip(email));
  }

  /** Normalising a normalised address returns it unchanged. */
  lemma NormalizeEmailIdempotent(email: string)
    requires NormalizeEmail(email).Ok?
    ensures NormalizeEmail(NormalizeEmail(email).value) == NormalizeEmail(email)
  {
    NormalizeEmailSpec(email);
    var e := NormalizeEmail(email).value;
    NormalizeEmailSpec(e);
    LowerSpec(e);
  }

  // -------------------------------------------------------------- password

  const PasswordRequiredMessage := "*비밀번호를 입력해주세요."
  const PasswordRuleMessage := "*비밀번호는 8자 이상, 20자 이하이며, 대문자, 소문자, 숫자, 특수문자를 각각 최소 1개 포함해야합니다."

  predicate IsUpperAscii(c: char) { 'A' <= c <= 'Z' }
  predicate IsLowerAscii(c: char) { 'a' <= c <= 'z' }
  predicate IsDigit(c: char) { '0' <= c <= '9' }

  /** The regular-expression class `\w`: ASCII letters, digits and `_`, and,
      standing for Unicode letters, every non-ASCII character that is not
      whitespace. */
  predicate IsWordChar(c: char) {
    IsUpperAscii(c) || IsLowerAscii(c) || IsDigit(c) || c == '_' || (c >= '\U{0080}' && !IsSpace(c))
  }

  /** The class `[^\w\s]`: a character that is neither a word character nor whitespace. */
  predicate IsSpecial(c: char) {
    !IsWordChar(c) && !IsSpace(c)
  }

  /** The password rule `^(?=.*[A-Z])(?=.*[a-z])(?=.*\d)(?=.*[^\w\s]).{8,20}$`:
      8 to 20 characters, with at least one upper-case letter, one lower-case
      letter, one digit and one special character. */
  predicate PasswordRule(pw: string) {
    && 8 <= |pw| <= 20
    && (exists i :: 0 <= i < |pw| && IsUpperAscii(pw[i]))
    && (exists i :: 0 <= i < |pw| && IsLowerAscii(pw[i]))
    && (exists i :: 0 <= i < |pw| && IsDigit(pw[i]))
    && (exists i :: 0 <= i < |pw| && IsSpecial(pw[i]))
  }

  /** `validatePassword(pw)`: passes exactly when the rule holds; an empty
      password gets its own message. */
  function ValidatePassword(pw: string): (r: Outcome)
    ensures r.Pass? <==> PasswordRule(pw)
    ensures pw == [] ==> r == Fail(BadRequest(PasswordRequiredMessage))
    ensures pw != [] && !PasswordRule(pw) ==> r == Fail(BadRequest(PasswordRuleMessage))
  {
    if pw == [] then Fail(BadRequest(PasswordRequiredMessage))
    else if !PasswordRule(pw) then Fail(BadRequest(PasswordRuleMessage))
    else Pass
  }

  // -------------------------------------------------------------- nickname

  const NicknameRequiredMessage := "*닉네임을 입력해주세요."
  const NicknameSpaceMessage := "*띄어쓰기를 없애주세요."
  const NicknameLengthMessage := "*닉네임은 최대 10자 까지 작성 가능합니다."

  /** `validateNickname(nick)`: checks, in this order, that the nickname is not
      blank, has no space and has at most 10 characters. */
  function ValidateNickname(nick: string): (r: Outcome)
    ensures r.Pass? <==> !IsBlank(nick) && ' ' !in nick && |nick| <= 10
    ensures IsBlank(nick) ==> r == Fail(BadRequest(NicknameRequiredMessage))
    ensures !IsBlank(nick) && ' ' in nick ==> r == Fail(BadRequest(NicknameSpaceMessage))
    ensures !IsBlank(nick) && ' ' !in nick && |nick| > 10 ==> r == Fail(BadRequest(NicknameLengthMessage))
  {
    if nick == [] || Strip(nick) == [] then Fail(BadRequest(NicknameRequiredMessage))
    else if ' ' in nick then Fail(BadRequest(NicknameSpaceMessage))
    else if |nick| > 10 then Fail(BadRequest(NicknameLengthMessage))
    else Pass
  }
}
