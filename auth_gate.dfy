/**
 * The authentication dependencies every protected endpoint runs before its
 * body: the caller's access token is decoded, its `user_id` claim is looked
 * up, and the user must be active; the moderator gate further demands the
 * MODERATOR or ADMIN group.
 */
module AuthGate {
  import opened Results
  import opened Http
  import opened AccountRecords
  import Jwt

  /** The authenticated caller: the user id and the record it was loaded with. */
  datatype Principal = Principal(id: UserId, user: User)

  /** The `user_id` claim of a token that decodes under the access secret. */
  predicate ClaimsUser(token: Jwt.Jwt, id: UserId)
  {
    Jwt.DecodeAccess(token).Some? && Jwt.DecodeAccess(token).value.userId == Some(id)
  }

  /** `get_current_user`. */
  function CurrentUser(users: map<UserId, User>, token: Jwt.Jwt): (r: Result<Principal, HttpError>)
    ensures r.Ok? <==> exists id :: ClaimsUser(token, id) && id in users && users[id].isActive
    ensures r.Ok? ==> ClaimsUser(token, r.value.id) && r.value.id in users && r.value.user == users[r.value.id]
    ensures Jwt.DecodeAccess(token).None? ==> r == Err(HttpError(Unauthorized, "Token is invalid or expired"))
    ensures Jwt.DecodeAccess(token).Some? && Jwt.DecodeAccess(token).value.userId.None? ==>
      r == Err(HttpError(Unauthorized, "Could not validate credentials"))
    ensures forall id :: ClaimsUser(token, id) && id !in users ==> r == Err(HttpError(NotFound, "User not found"))
    ensures forall id :: ClaimsUser(token, id) && id in users && !users[id].isActive ==>
      r == Err(HttpError(Forbidden, "User account is not active"))
  {
    match Jwt.DecodeAccess(token)
    case None => Err(HttpError(Unauthorized, "Token is invalid or expired"))
    case Some(claims) =>
      match claims.userId
      case None => Err(HttpError(Unauthorized, "Could not validate credentials"))
      case Some(id) =>
        if id !in users then Err(HttpError(NotFound, "User not found"))
        else if !users[id].isActive then Err(HttpError(Forbidden, "User account is not active"))
        else Ok(Principal(id, users[id]))
  }

  predicate IsModerator(g: Group)
  {
    g == ModeratorGroup || g == AdminGroup
  }

  /** `get_current_moderator`: the user gate first, then the group check. */
  function CurrentModerator(users: map<UserId, User>, token: Jwt.Jwt): (r: Result<Principal, HttpError>)
    ensures r.Ok? <==> CurrentUser(users, token).Ok? && IsModerator(CurrentUser(users, token).value.user.group)
    ensures r.Ok? ==> r == CurrentUser(users, token)
    ensures CurrentUser(users, token).Err? ==> r == CurrentUser(users, token)
    ensures CurrentUser(users, token).Ok? && !IsModerator(CurrentUser(users, token).value.user.group) ==>
      r == Err(HttpError(Forbidden, "User is not a moderator"))
  {
    match CurrentUser(users, token)
    case Err(e) => Err(e)
    case Ok(p) =>
      if IsModerator(p.user.group) then Ok(p) else Err(HttpError(Forbidden, "User is not a moderator"))
  }

  /** A token fresh from login passes the gate exactly while its user exists and is active. */
  lemma FreshAccessTokenAdmits(users: map<UserId, User>, id: UserId, now: int)
    ensures CurrentUser(users, Jwt.CreateAccessToken(Some(id), now)).Ok? <==> id in users && users[id].isActive
  {
  }

  /** A refresh token is never accepted as an access token. */
  lemma RefreshTokenRejected(users: map<UserId, User>, id: UserId, now: int)
    ensures CurrentUser(users, Jwt.CreateRefreshToken(Some(id), now)) == Err(HttpError(Unauthorized, "Token is invalid or expired"))
  {
  }
}
