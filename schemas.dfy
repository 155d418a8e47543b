/**
 * schemas.py: the length bounds the request bodies declare. They are checked
 * before a route body runs; an input outside them is answered 422 by the
 * framework (`RequestInvalid`), so the controllers only see inputs within them.
 */
module Schemas {
  import opened Text
  import opened Errors
  import opened Utils

  /** `Field(min_length = lo, max_length = hi)` on a string. */
  predicate Within(s: string, lo: nat, hi: nat) {
    lo <= |s| <= hi
  }

  /** `SignUpIn`: password 8 to 20 characters, nickname 1 to 10. */
  predicate SignUpIn(password: string, nickname: string): (ok: bool)
    ensures ok <==> 8 <= |password| <= 20 && 1 <= |nickname| <= 10
  {
    Within(password, 8, 20) && Within(nickname, 1, 10)
  }

  /** `UserUpdate`: nickname 1 to 10 characters. */
  predicate UserUpdate(nickname: string): (ok: bool)
    ensures ok <==> 1 <= |nickname| <= 10
  {
    Within(nickname, 1, 10)
  }

  /** `PostCreate`: title 1 to 26 characters, body 5 to 20000. */
  predicate PostCreate(title: string, body: string): (ok: bool)
    ensures ok <==> 1 <= |title| <= 26 && 5 <= |body| <= 20000
  {
    Within(title, 1, 26) && Within(body, 5, 20000)
  }

  /** `CommentCreate`: text 1 to 1000 characters. */
  predicate CommentCreate(text: string): (ok: bool)
    ensures ok <==> 1 <= |text| <= 1000
  {
    Within(text, 1, 1000)
  }

  /** `PasswordChangeIn`: new password 8 to 20 characters. */
  predicate PasswordChangeIn(newPassword: string): (ok: bool)
    ensures ok <==> 8 <= |newPassword| <= 20
  {
    Within(newPassword, 8, 20)
  }

  /** Every password the password rule accepts fits both password fields. */
  lemma PasswordRuleWithinSchema(pw: string)
    requires ValidatePassword(pw).Pass?
    ensures PasswordChangeIn(pw)
    ensures forall nick :: UserUpdate(nick) ==> SignUpIn(pw, nick)
  {
  }

  /** The schema is weaker than the rule: eight lower-case letters fit the
      schema and are still rejected, with the rule's message. */
  lemma SchemaAdmitsWeakPassword()
    ensures PasswordChangeIn("aaaaaaaa")
    ensures ValidatePassword("aaaaaaaa") == Fail(BadRequest(PasswordRuleMessage))
  {
    var pw := "aaaaaaaa";
    assert forall i :: 0 <= i < |pw| ==> pw[i] == 'a';
    assert !exists i :: 0 <= i < |pw| && IsUpperAscii(pw[i]);
  }

  /** Behind the schema the validator never reports an empty password. */
  lemma PasswordRequiredUnreachable(pw: string)
    requires PasswordChangeIn(pw)
    ensures ValidatePassword(pw) != Fail(BadRequest(PasswordRequiredMessage))
  {
    if !PasswordRule(pw) {
      assert ValidatePassword(pw) == Fail(BadRequest(PasswordRuleMessage));
      assert PasswordRuleMessage != PasswordRequiredMessage;
    }
  }

  /** Every nickname the validator accepts fits the nickname field. */
  lemma NicknameValidatorWithinSchema(nick: string)
    requires ValidateNickname(nick).Pass?
    ensures UserUpdate(nick)
  {
  }

  /** Behind the schema the validator's length message is never sent: an
      eleven-character nickname is a 422 before the validator runs. */
  lemma NicknameLengthUnreachable(nick: string)
    requires UserUpdate(nick)
    ensures ValidateNickname(nick) != Fail(BadRequest(NicknameLengthMessage))
  {
    if IsBlank(nick) {
      assert NicknameRequiredMessage != NicknameLengthMessage;
    } else if ' ' in nick {
      assert NicknameSpaceMessage != NicknameLengthMessage;
    }
  }

  /** A single space fits the nickname field but is rejected as missing. */
  lemma BlankNicknameWithinSchema()
    ensures UserUpdate(" ")
    ensures ValidateNickname(" ") == Fail(BadRequest(NicknameRequiredMessage))
  {
    assert IsSpace(" "[0]);
  }

  /** A title of one space fits the post schema, and the title stored for it
      (`title.strip()`) is empty: nothing rejects a blank title. */
  lemma BlankTitleWithinSchema()
    ensures PostCreate(" ", "hello")
    ensures Strip(" ") == []
  {
    assert IsSpace(" "[0]);
    assert IsBlank(" ");
  }

  /** A comment of spaces fits the comment field, so the controller's own
      blank check is what rejects it. */
  lemma BlankCommentWithinSchema(n: nat)
    requires 1 <= n <= 1000
    ensures var text := seq(n, _ => ' ');
      CommentCreate(text) && IsBlank(text)
  {
    var text := seq(n, _ => ' ');
    assert forall i :: 0 <= i < |text| ==> text[i] == ' ';
  }
}
