/**
 * Properties of the account lifecycle that span several requests: a new
 * password replaces the old one for login, a login's refresh token is honoured
 * until it is revoked, revocation by password change or deactivation is
 * final, and an activation token works once.
 */
module AccountProperties {
  import opened Results
  import opened Http
  import opened AccountRecords
  import Password
  import Jwt
  import Text
  import AccountSchemas
  import AuthGate
  import opened Accounts

  /** After a password is replaced, the new one logs in and any other strong one is refused. */
  lemma NewPasswordReplacesOld(users: map<UserId, User>, id: UserId, email: string, oldPassword: string, newPassword: string)
    requires UniqueEmails(users) && id in users && users[id].isActive && users[id].email == Text.Lower(email)
    requires Password.IsStrong(newPassword) && Password.IsStrong(oldPassword) && oldPassword != newPassword
    ensures var after := users[id := users[id].(password := Password.Hash(newPassword))];
      UniqueEmails(after)
      && LoginOutcome(after, email, newPassword) == Ok(id)
      && LoginOutcome(after, email, oldPassword) == Err(InvalidCredentials)
  {
    var after := users[id := users[id].(password := Password.Hash(newPassword))];
    assert forall u :: u in after ==> u in users && after[u].email == users[u].email;
    assert Credentials(after, id, Text.Lower(email), newPassword);
    assert forall u :: u in after && after[u].email == Text.Lower(email) ==> u == id;
    assert !Credentials(after, id, Text.Lower(email), oldPassword);
  }

  /** A refresh token a login persisted is exchanged for an access token for the same user. */
  lemma LoginTokenRefreshes(users: map<UserId, User>, rows: seq<RefreshRow>, id: UserId, issuedAt: int, now: int)
    requires id in users
    ensures var row := LoginRow(id, issuedAt);
      RefreshAccessToken(users, rows + [row], row.token, now)
        == Ok(AccountSchemas.RefreshResponse(Jwt.CreateAccessToken(Some(id), now), AccountSchemas.BearerTokenType))
  {
    var row := LoginRow(id, issuedAt);
    assert (rows + [row])[|rows|].token == row.token;
    assert ClaimsRefresh(row.token, id);
  }

  /** Once a user's rows are revoked, no refresh token naming that user is honoured. */
  lemma RevokedTokenRejected(users: map<UserId, User>, after: map<UserId, User>, rows: seq<RefreshRow>, id: UserId, token: Jwt.Jwt, now: int)
    requires LedgerValid(rows, users) && ClaimsRefresh(token, id)
    ensures RefreshAccessToken(after, RowsWithout(rows, id), token, now) == Err(RefreshNotFound)
  {
    var r := RowsWithout(rows, id);
    forall i | 0 <= i < |r|
      ensures r[i].userId != id && ClaimsRefresh(r[i].token, r[i].userId)
    {
      assert r[i] in r;
      var j :| 0 <= j < |rows| && rows[j] == r[i];
    }
  }

  /** A password reset leaves every refresh token as it was: sessions survive a reset. */
  lemma RefreshSurvivesPasswordReset(users: map<UserId, User>, rows: seq<RefreshRow>, id: UserId, password: string, token: Jwt.Jwt, now: int)
    requires id in users
    ensures RefreshAccessToken(users[id := users[id].(password := Password.Hash(password))], rows, token, now)
      == RefreshAccessToken(users, rows, token, now)
  {
  }

  /** Activating twice with the same token: the second attempt finds no token. */
  method ActivationIsSingleUse(s: AccountStore, email: string, token: TokenValue, now: int)
    returns (first: Result<string, HttpError>, second: Result<string, HttpError>)
    requires s.Valid()
    modifies s
    ensures s.Valid()
    ensures first.Ok? ==> second == Err(InvalidActivation)
  {
    first := s.Activate(email, token, now);
    second := s.Activate(email, token, now);
  }

  /** After a successful password change, none of the caller's earlier refresh tokens is honoured. */
  method ChangePasswordRevokesSessions(s: AccountStore, accessToken: Jwt.Jwt, oldPassword: string, newPassword: string,
                                       refreshToken: Jwt.Jwt, now: int)
    returns (r: Result<string, HttpError>)
    requires s.Valid()
    modifies s
    ensures s.Valid()
    ensures r.Ok? ==> forall id :: AuthGate.ClaimsUser(accessToken, id) && ClaimsRefresh(refreshToken, id) ==>
      RefreshAccessToken(s.users, s.refreshTokens, refreshToken, now) == Err(RefreshNotFound)
  {
    ghost var users, rows := s.users, s.refreshTokens;
    r := s.ChangePassword(accessToken, oldPassword, newPassword);
    if r.Ok? {
      var id := AuthGate.CurrentUser(users, accessToken).value.id;
      if ClaimsRefresh(refreshToken, id) {
        RevokedTokenRejected(users, s.users, rows, id, refreshToken, now);
      }
    }
  }

  /** After a user is deactivated, none of that user's refresh tokens is honoured. */
  method DeactivationRevokesSessions(s: AccountStore, accessToken: Jwt.Jwt, target: UserId, refreshToken: Jwt.Jwt, now: int)
    returns (r: Result<string, HttpError>)
    requires s.Valid() && ClaimsRefresh(refreshToken, target)
    modifies s
    ensures s.Valid()
    ensures r.Ok? ==> RefreshAccessToken(s.users, s.refreshTokens, refreshToken, now) == Err(RefreshNotFound)
  {
    ghost var users, rows := s.users, s.refreshTokens;
    r := s.ChangeUserActiveStatus(accessToken, target, false);
    if r.Ok? {
      RevokedTokenRejected(users, s.users, rows, target, refreshToken, now);
    }
  }

  /** A successful reset makes the new password the one that logs in. */
  method ResetThenLogin(s: AccountStore, email: string, oldPassword: string, newPassword: string, token: TokenValue, now: int)
    returns (reset: Result<string, HttpError>, withNew: Result<AccountSchemas.LoginResponse, HttpError>,
             withOld: Result<AccountSchemas.LoginResponse, HttpError>)
    requires s.Valid() && Password.IsStrong(oldPassword) && oldPassword != newPassword
    modifies s
    ensures s.Valid()
    ensures reset.Ok? ==> withOld == Err(InvalidCredentials) && withNew.Ok?
  {
    ghost var users := s.users;
    ghost var target := s.ResetTarget(email, newPassword);
    reset := s.ResetPassword(email, newPassword, token, now);
    if reset.Ok? {
      NewPasswordReplacesOld(users, target.value, email, oldPassword, newPassword);
    }
    withOld := s.Login(email, oldPassword, now);
    withNew := s.Login(email, newPassword, now);
  }
}
