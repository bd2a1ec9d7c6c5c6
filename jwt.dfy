/**
 * The JWT manager, abstractly. A token is either a well-formed token signed with
 * one of the two secrets (the access secret or the refresh secret) or
 * something that does not decode at all. Signatures, the signing algorithm and
 * the expiry claim are not modelled; `issuedAt` keeps tokens made at different
 * times apart, as the expiry claim does in the real tokens.
 */
module Jwt {
  import opened Results

  /** Which of the two independent secrets signed the token. */
  datatype Secret = AccessSecret | RefreshSecret

  /** The payload: the optional `user_id` claim and the issue time. */
  datatype Claims = Claims(userId: Option<nat>, issuedAt: int)

  datatype Jwt = Signed(secret: Secret, claims: Claims) | Malformed(text: string)

  /** The `detail` of the security error a failed decode raises. */
  const InvalidTokenDetail := "Token is invalid or expired."

  function Decode(t: Jwt, key: Secret): (r: Option<Claims>)
    ensures r.Some? <==> t.Signed? && t.secret == key
    ensures r.Some? ==> r.value == t.claims
  {
    if t.Signed? && t.secret == key then Some(t.claims) else None
  }

  /** `decode_access_token`. */
  function DecodeAccess(t: Jwt): Option<Claims>
  {
    Decode(t, AccessSecret)
  }

  /** `decode_refresh_token`. */
  function DecodeRefresh(t: Jwt): Option<Claims>
  {
    Decode(t, RefreshSecret)
  }

  /** `create_access_token({"user_id": ...})`. */
  function CreateAccessToken(userId: Option<nat>, now: int): (t: Jwt)
    ensures DecodeAccess(t) == Some(Claims(userId, now))
    ensures DecodeRefresh(t).None?
  {
    Signed(AccessSecret, Claims(userId, now))
  }

  /** `create_refresh_token({"user_id": ...})`. */
  function CreateRefreshToken(userId: Option<nat>, now: int): (t: Jwt)
    ensures DecodeRefresh(t) == Some(Claims(userId, now))
    ensures DecodeAccess(t).None?
  {
    Signed(RefreshSecret, Claims(userId, now))
  }

  /** No token decodes under both secrets: an access token is never a refresh token. */
  lemma SecretsIndependent(t: Jwt)
    ensures !(DecodeAccess(t).Some? && DecodeRefresh(t).Some?)
  {
  }

  /** Access tokens made for the same user at different times differ. */
  lemma LaterAccessTokenDiffers(userId: Option<nat>, earlier: int, now: int)
    requires earlier != now
    ensures CreateAccessToken(userId, earlier) != CreateAccessToken(userId, now)
  {
  }
}
