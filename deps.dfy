/**
 * deps.py: `getCurrentUser`, the dependency that turns the `Authorization`
 * header into the signed-in user.
 */
module Deps {
  import opened Basics
  import opened Text
  import opened Errors
  import opened Utils
  import opened Storage

  const BearerPrefix := "Bearer "

  /** `authorization.startswith("Bearer ")`. */
  predicate HasBearerPrefix(h: string) {
    |h| >= |BearerPrefix| && h[..|BearerPrefix|] == BearerPrefix
  }

  /** `authorization.split(" ", 1)[1].strip()`: the first space is the one
      ending the prefix, so the token is the rest of the header, stripped. */
  function BearerToken(h: string): (t: string)
    requires HasBearerPrefix(h)
    ensures t == Strip(h[|BearerPrefix|..])
    ensures IsStripped(t)
  {
    assert h[6] == ' ';
    assert h[..6] == "Bearer";
    AfterFirstAt(h, ' ', 6);
    Strip(AfterFirst(h, ' '))
  }

  /** `getCurrentUser(authorization)`: 401 `AUTH_REQUIRED` without a bearer
      header, 401 `INVALID_TOKEN` for a token with no (truthy) session, and
      `users[uid]` otherwise, which raises `KeyError` for a session whose
      user is gone. */
  function GetCurrentUser(s: Store, authorization: Option<string>): (r: Result<User>)
    reads s
    ensures r == Err(AuthRequired()) <==> authorization.None? || !HasBearerPrefix(authorization.value)
    ensures r.Ok? <==>
      && authorization.Some? && HasBearerPrefix(authorization.value)
      && var token := Strip(authorization.value[|BearerPrefix|..]);
      && token in s.sessions && s.sessions[token] != 0 && s.sessions[token] in s.users
    ensures r.Ok? ==> r.value == s.users[s.sessions[Strip(authorization.value[|BearerPrefix|..])]]
    ensures s.Valid() && r.Err? ==> r.error == AuthRequired() || r.error == InvalidToken()
  {
    if authorization.None? || authorization.value == [] || !HasBearerPrefix(authorization.value) then
      Err(AuthRequired())
    else
      var token := BearerToken(authorization.value);
      if token !in s.sessions || s.sessions[token] == 0 then Err(InvalidToken())
      else if s.sessions[token] !in s.users then Err(KeyError)
      else Ok(s.users[s.sessions[token]])
  }

  /** In a valid store the signed-in user is the stored record under its
      own id, which is what the routes that change it rely on. */
  lemma CurrentUserIsStored(s: Store, authorization: Option<string>)
    requires s.Valid() && GetCurrentUser(s, authorization).Ok?
    ensures var u := GetCurrentUser(s, authorization).value;
      u.id in s.users && s.users[u.id] == u
  {
  }

  /** A session's own token, sent as `Bearer <token>`, signs in the session's
      user: `issueToken` and `getCurrentUser` fit together. */
  lemma IssuedTokenAuthenticates(s: Store, token: string)
    requires s.Valid()
    requires token in s.sessions && IsStripped(token)
    ensures GetCurrentUser(s, Some(BearerPrefix + token)) == Ok(s.users[s.sessions[token]])
  {
    var h := BearerPrefix + token;
    assert h[..|BearerPrefix|] == BearerPrefix;
    assert h[|BearerPrefix|..] == token;
  }

  /** Two bearer headers whose stripped tokens agree sign in alike. */
  lemma SameTokenSameUser(s: Store, h1: string, h2: string)
    requires HasBearerPrefix(h1) && HasBearerPrefix(h2)
    requires Strip(h1[|BearerPrefix|..]) == Strip(h2[|BearerPrefix|..])
    ensures GetCurrentUser(s, Some(h1)) == GetCurrentUser(s, Some(h2))
  {
  }

  /** `"Bearer " + t` carries the prefix and leaves `t` after it. */
  lemma BearerHeaderParts(t: string)
    ensures HasBearerPrefix(BearerPrefix + t)
    ensures (BearerPrefix + t)[|BearerPrefix|..] == t
  {
    assert (BearerPrefix + t)[..|BearerPrefix|] == BearerPrefix;
  }

  /** Surrounding whitespace after the prefix is ignored: the same session
      signs in whether or not the token is padded. */
  lemma PaddedTokenAuthenticates(s: Store, token: string, pad: string)
    requires IsBlank(pad)
    ensures GetCurrentUser(s, Some(BearerPrefix + token + pad)) == GetCurrentUser(s, Some(BearerPrefix + Strip(token)))
  {
    assert BearerPrefix + token + pad == BearerPrefix + (token + pad);
    BearerHeaderParts(token + pad);
    BearerHeaderParts(Strip(token));
    StripBlankSuffix(token, pad);
    StripIdempotent(token);
    SameTokenSameUser(s, BearerPrefix + (token + pad), BearerPrefix + Strip(token));
  }
}
