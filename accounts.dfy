/**
 * The account lifecycle: registration with an activation token, activation,
 * resending the activation token, password reset by emailed token, login with
 * a persisted refresh token, access-token refresh, logout, password change and
 * the admin operations on a user's group and active flag.
 *
 * The database tables are the fields of `AccountStore`; each endpoint is a
 * method that either fails with the endpoint's HTTP error or commits its
 * changes. The request-independent decisions (who may log in, whether a
 * refresh token is honoured) are functions of the tables, so that properties
 * across several requests can be stated as lemmas.
 */
module Accounts {
  import opened Results
  import opened Http
  import opened AccountRecords
  import Password
  import Jwt
  import Text
  import AccountSchemas
  import AuthGate

  // ------------------------------------------------------------------
  // Users by email
  // ------------------------------------------------------------------

  /** The `email` column is unique. */
  ghost predicate UniqueEmails(users: map<UserId, User>)
  {
    forall a, b :: a in users && b in users && users[a].email == users[b].email ==> a == b
  }

  /** `select(UserModel).filter_by(email=...)` followed by `.first()`. */
  function UserByEmail(users: map<UserId, User>, email: string): (r: Option<UserId>)
    requires UniqueEmails(users)
    ensures r.Some? ==> r.value in users && users[r.value].email == email
    ensures r.None? <==> forall id :: id in users ==> users[id].email != email
  {
    if exists id :: id in users && users[id].email == email then
      var id :| id in users && users[id].email == email; Some(id)
    else None
  }

  // ------------------------------------------------------------------
  // Activation and password-reset token tables
  // ------------------------------------------------------------------

  /** The tokens a table holds for one user. */
  function TokensOf(t: map<TokenValue, TokenRow>, id: UserId): set<TokenValue>
  {
    set v | v in t && t[v].userId == id
  }

  /** Every user has at most one token in the table. */
  ghost predicate AtMostOnePerUser(t: map<TokenValue, TokenRow>)
  {
    forall a, b :: a in t && b in t && t[a].userId == t[b].userId ==> a == b
  }

  /** `select(...).filter_by(user_id=...)` followed by `.first()`. */
  function TokenOfUser(t: map<TokenValue, TokenRow>, id: UserId): (r: Option<TokenValue>)
    requires AtMostOnePerUser(t)
    ensures r.Some? ==> TokensOf(t, id) == {r.value}
    ensures r.None? ==> TokensOf(t, id) == {}
  {
    if exists v :: v in t && t[v].userId == id then
      var v :| v in t && t[v].userId == id;
      OnlyToken(t, id, v);
      Some(v)
    else None
  }

  lemma OnlyToken(t: map<TokenValue, TokenRow>, id: UserId, v: TokenValue)
    requires AtMostOnePerUser(t) && v in t && t[v].userId == id
    ensures TokensOf(t, id) == {v}
  {
  }

  /** Issuing a token: the user's old tokens are deleted, then the fresh one is added. */
  function Reissue(t: map<TokenValue, TokenRow>, id: UserId, v: TokenValue, expiresAt: int): (r: map<TokenValue, TokenRow>)
    requires v !in t
    ensures TokensOf(r, id) == {v} && r[v] == TokenRow(id, expiresAt)
    ensures forall w :: w in t && t[w].userId != id ==> w in r && r[w] == t[w]
    ensures forall w :: w in r && w != v ==> w in t && t[w].userId != id
  {
    (t - TokensOf(t, id))[v := TokenRow(id, expiresAt)]
  }

  /** Issuing keeps at most one token per user. */
  lemma ReissueKeepsOnePerUser(t: map<TokenValue, TokenRow>, id: UserId, v: TokenValue, expiresAt: int)
    requires AtMostOnePerUser(t) && v !in t
    ensures AtMostOnePerUser(Reissue(t, id, v, expiresAt))
  {
    var r := Reissue(t, id, v, expiresAt);
    forall a, b | a in r && b in r && a != v && b != v
      ensures r[a] == t[a] && r[b] == t[b]
    {
    }
  }

  predicate Expired(row: TokenRow, now: int)
  {
    row.expiresAt < now
  }

  // ------------------------------------------------------------------
  // Refresh-token ledger
  // ------------------------------------------------------------------

  /** `select(RefreshTokenModel).filter_by(token=...)` finds a row. */
  predicate InLedger(rows: seq<RefreshRow>, token: Jwt.Jwt)
  {
    exists i :: 0 <= i < |rows| && rows[i].token == token
  }

  /** `delete(RefreshTokenModel).where(user_id == ...)`. */
  function RowsWithout(rows: seq<RefreshRow>, id: UserId): (r: seq<RefreshRow>)
    ensures forall x :: x in r <==> x in rows && x.userId != id
    ensures |r| <= |rows|
  {
    if rows == [] then []
    else if rows[0].userId == id then RowsWithout(rows[1..], id)
    else [rows[0]] + RowsWithout(rows[1..], id)
  }

  /** The first row holding `token` for user `id`, as the logout query finds it. */
  function FindRow(rows: seq<RefreshRow>, token: Jwt.Jwt, id: UserId): (r: Option<nat>)
    ensures r.Some? ==> (r.value < |rows| && rows[r.value].token == token && rows[r.value].userId == id
      && forall j :: 0 <= j < r.value ==> !(rows[j].token == token && rows[j].userId == id))
    ensures r.None? <==> forall j :: 0 <= j < |rows| ==> !(rows[j].token == token && rows[j].userId == id)
  {
    if rows == [] then None
    else if rows[0].token == token && rows[0].userId == id then Some(0)
    else match FindRow(rows[1..], token, id)
      case None => None
      case Some(k) => Some(k + 1)
  }

  /** The token a login issues, and the row it persists, for user `id`. */
  function LoginRow(id: UserId, now: int): (row: RefreshRow)
    ensures Jwt.DecodeRefresh(row.token) == Some(Jwt.Claims(Some(id), now))
    ensures row.userId == id && row.expiresAt == now + LoginTimeDays * SecondsPerDay
  {
    RefreshRow(Jwt.CreateRefreshToken(Some(id), now), id, now + LoginTimeDays * SecondsPerDay)
  }

  /** Each persisted refresh token names the row's owner, who is an active user. */
  ghost predicate LedgerValid(rows: seq<RefreshRow>, users: map<UserId, User>)
  {
    forall i :: 0 <= i < |rows| ==>
      rows[i].userId in users && users[rows[i].userId].isActive
      && Jwt.DecodeRefresh(rows[i].token).Some? && Jwt.DecodeRefresh(rows[i].token).value.userId == Some(rows[i].userId)
  }

  /** Dropping one row keeps the ledger valid, and the dropped row is the only one that goes. */
  lemma DropRowKeepsLedger(rows: seq<RefreshRow>, users: map<UserId, User>, k: nat)
    requires LedgerValid(rows, users) && k < |rows|
    ensures LedgerValid(rows[..k] + rows[k + 1..], users)
    ensures forall x :: x in rows && x !in rows[..k] + rows[k + 1..] ==> x == rows[k]
  {
    var r := rows[..k] + rows[k + 1..];
    assert forall j :: 0 <= j < k ==> r[j] == rows[j];
    assert forall j :: k <= j < |r| ==> r[j] == rows[j + 1];
    forall x | x in rows && x != rows[k]
      ensures x in r
    {
      var j :| 0 <= j < |rows| && rows[j] == x;
      if j < k {
        assert r[j] == x;
      } else {
        assert r[j - 1] == x;
      }
    }
  }

  // ------------------------------------------------------------------
  // Login and refresh decisions
  // ------------------------------------------------------------------

  /** User `id` is registered under `email` with the bcrypt hash of `password`. */
  ghost predicate Credentials(users: map<UserId, User>, id: UserId, email: string, password: string)
  {
    id in users && users[id].email == email && Password.Verify(password, users[id].password)
  }

  const InvalidCredentials := HttpError(Unauthorized, "Invalid email or password.")
  const NotActivated := HttpError(Forbidden, "User account is not activated.")

  /** The checks of `login_user`, after schema validation, up to the issue of tokens. */
  function LoginOutcome(users: map<UserId, User>, email: string, password: string): (r: Result<UserId, HttpError>)
    requires UniqueEmails(users)
    ensures r.Ok? <==> (Password.IsStrong(password) &&
      exists id :: Credentials(users, id, Text.Lower(email), password) && users[id].isActive)
    ensures r.Ok? ==> Credentials(users, r.value, Text.Lower(email), password) && users[r.value].isActive
    ensures !Password.IsStrong(password) ==> r.Err? && r.error.status == UnprocessableEntity
    ensures Password.IsStrong(password) && (forall id :: !Credentials(users, id, Text.Lower(email), password)) ==>
      r == Err(InvalidCredentials)
    ensures (Password.IsStrong(password) &&
      exists id :: Credentials(users, id, Text.Lower(email), password) && !users[id].isActive) ==>
      r == Err(NotActivated)
  {
    match AccountSchemas.ParseEmailPassword(email, password)
    case Err(w) => Err(AccountSchemas.ValidationFailure(w))
    case Ok(req) =>
      match UserByEmail(users, req.email)
      case None => Err(InvalidCredentials)
      case Some(id) =>
        if !Password.Verify(req.password, users[id].password) then Err(InvalidCredentials)
        else if !users[id].isActive then
          assert Credentials(users, id, req.email, password);
          Err(NotActivated)
        else Ok(id)
  }

  /** The `user_id` claim of a token that decodes under the refresh secret. */
  predicate ClaimsRefresh(token: Jwt.Jwt, id: UserId)
  {
    Jwt.DecodeRefresh(token).Some? && Jwt.DecodeRefresh(token).value.userId == Some(id)
  }

  const RefreshNotFound := HttpError(Unauthorized, "Refresh token not found.")

  /** `refresh_access_token`: decode, look the token up in the ledger, look the user up, re-issue. */
  function RefreshAccessToken(users: map<UserId, User>, rows: seq<RefreshRow>, token: Jwt.Jwt, now: int)
    : (r: Result<AccountSchemas.RefreshResponse, HttpError>)
    ensures r.Ok? <==> InLedger(rows, token) && exists id :: ClaimsRefresh(token, id) && id in users
    ensures r.Ok? ==> r.value.tokenType == AccountSchemas.BearerTokenType
    ensures forall id :: ClaimsRefresh(token, id) && r.Ok? ==>
      r.value.accessToken == Jwt.CreateAccessToken(Some(id), now) && AuthGate.ClaimsUser(r.value.accessToken, id)
    ensures Jwt.DecodeRefresh(token).None? ==> r == Err(HttpError(BadRequest, Jwt.InvalidTokenDetail))
    ensures Jwt.DecodeRefresh(token).Some? && !InLedger(rows, token) ==> r == Err(RefreshNotFound)
    ensures InLedger(rows, token) && (forall id :: ClaimsRefresh(token, id) ==> id !in users) && Jwt.DecodeRefresh(token).Some? ==>
      r == Err(HttpError(NotFound, "User not found."))
  {
    match Jwt.DecodeRefresh(token)
    case None => Err(HttpError(BadRequest, Jwt.InvalidTokenDetail))
    case Some(claims) =>
      if !InLedger(rows, token) then Err(RefreshNotFound)
      else if claims.userId.None? || claims.userId.value !in users then Err(HttpError(NotFound, "User not found."))
      else Ok(AccountSchemas.RefreshResponse(Jwt.CreateAccessToken(claims.userId, now), AccountSchemas.BearerTokenType))
  }

  // ------------------------------------------------------------------
  // The store
  // ------------------------------------------------------------------

  datatype Registered = Registered(id: UserId, email: string)

  const InvalidActivation := HttpError(BadRequest, "Invalid or expired activation token.")
  const InvalidEmailOrToken := HttpError(BadRequest, "Invalid email or token.")
  const OnlyForAdmin := HttpError(Forbidden, "Only for admin")
  const ResetRequestMessage := "If you are registered, you will receive an email with instructions."

  class AccountStore {
    var users: map<UserId, User>
    var activationTokens: map<TokenValue, TokenRow>
    var resetTokens: map<TokenValue, TokenRow>
    var refreshTokens: seq<RefreshRow>
    var outbox: seq<Email>
    var nextUserId: UserId
    var nextToken: TokenValue
    /** The rows of the group table. */
    const groups: set<Group>
    /** How long a fresh activation token and a fresh reset token stay valid. */
    const activationLifetime: int
    const resetLifetime: int

    ghost predicate Valid()
      reads this`users, this`activationTokens, this`resetTokens, this`refreshTokens, this`nextUserId, this`nextToken
    {
      StoreValid(users, activationTokens, resetTokens, refreshTokens, nextUserId, nextToken)
    }

    constructor (groups: set<Group>, activationLifetime: int, resetLifetime: int)
      ensures Valid()
      ensures this.groups == groups && this.activationLifetime == activationLifetime && this.resetLifetime == resetLifetime
      ensures users == map[] && activationTokens == map[] && resetTokens == map[] && refreshTokens == [] && outbox == []
    {
      this.groups := groups;
      this.activationLifetime := activationLifetime;
      this.resetLifetime := resetLifetime;
      users := map[];
      activationTokens := map[];
      resetTokens := map[];
      refreshTokens := [];
      outbox := [];
      nextUserId := 0;
      nextToken := 0;
    }

    /** `register_user`. */
    method Register(email: string, password: string, now: int) returns (r: Result<Registered, HttpError>)
      requires Valid()
      modifies this`users, this`activationTokens, this`outbox, this`nextUserId, this`nextToken
      ensures Valid()
      ensures var p := AccountSchemas.ParseEmailPassword(email, password);
        && (p.Err? ==> r == Err(AccountSchemas.ValidationFailure(p.error)))
        && (p.Ok? && UserByEmail(old(users), p.value.email).Some? ==>
              r == Err(HttpError(Conflict, "A user with this email " + p.value.email + " already exists.")))
        && (p.Ok? && UserByEmail(old(users), p.value.email).None? && UserGroup !in groups ==>
              r == Err(HttpError(InternalServerError, "Default user group not found.")))
        && (r.Ok? <==> p.Ok? && UserByEmail(old(users), p.value.email).None? && UserGroup in groups)
      ensures r.Err? ==> unchanged(this)
      ensures r.Ok? ==>
        var id, v, e := old(nextUserId), old(nextToken), Text.Lower(email);
        && r.value == Registered(id, e) && id !in old(users)
        && users == old(users)[id := User(e, Password.Hash(password), false, UserGroup)]
        && activationTokens == old(activationTokens)[v := TokenRow(id, now + activationLifetime)]
        && TokensOf(activationTokens, id) == {v}
        && outbox == old(outbox) + [ActivationEmail(e, v)]
        && nextUserId == id + 1 && nextToken == v + 1
    {
      var p := AccountSchemas.ParseEmailPassword(email, password);
      if p.Err? {
        return Err(AccountSchemas.ValidationFailure(p.error));
      }
      var e := p.value.email;
      if UserByEmail(users, e).Some? {
        return Err(HttpError(Conflict, "A user with this email " + e + " already exists."));
      }
      if UserGroup !in groups {
        return Err(HttpError(InternalServerError, "Default user group not found."));
      }
      var id := InsertInactiveUser(e, Password.Hash(p.value.password), now);
      r := Ok(Registered(id, e));
    }

    /** The inserts of `register_user`: the user row, its activation token and the activation email. */
    method InsertInactiveUser(email: string, hash: Password.Digest, now: int) returns (id: UserId)
      requires Valid()
      requires forall x :: x in users ==> users[x].email != email
      modifies this`users, this`activationTokens, this`outbox, this`nextUserId, this`nextToken
      ensures Valid()
      ensures id == old(nextUserId) && id !in old(users)
      ensures users == old(users)[id := User(email, hash, false, UserGroup)]
      ensures activationTokens == old(activationTokens)[old(nextToken) := TokenRow(id, now + activationLifetime)]
      ensures TokensOf(activationTokens, id) == {old(nextToken)}
      ensures outbox == old(outbox) + [ActivationEmail(email, old(nextToken))]
      ensures nextUserId == id + 1 && nextToken == old(nextToken) + 1
    {
      var v := nextToken;
      id := nextUserId;
      var u := User(email, hash, false, UserGroup);
      AddUserKeepsValid(users, activationTokens, resetTokens, refreshTokens, id, v, u, now + activationLifetime);
      users := users[id := u];
      activationTokens := activationTokens[v := TokenRow(id, now + activationLifetime)];
      outbox := outbox + [ActivationEmail(email, v)];
      nextUserId, nextToken := id + 1, v + 1;
    }

    /** Updates one user row, keeping its email and not deactivating it. */
    method PutUser(id: UserId, u: User)
      requires Valid() && id in users && u.email == users[id].email && (users[id].isActive ==> u.isActive)
      modifies this`users
      ensures Valid() && users == old(users)[id := u]
    {
      EditUserKeepsValid(users, activationTokens, resetTokens, refreshTokens, nextUserId, nextToken, id, u);
      users := users[id := u];
    }

    /** Updates one user row, keeping its email, and deletes all of the user's refresh tokens. */
    method PutUserRevokingTokens(id: UserId, u: User)
      requires Valid() && id in users && u.email == users[id].email
      modifies this`users, this`refreshTokens
      ensures Valid() && users == old(users)[id := u] && refreshTokens == RowsWithout(old(refreshTokens), id)
    {
      RevokeUserKeepsValid(users, activationTokens, resetTokens, refreshTokens, nextUserId, nextToken, id, u);
      users := users[id := u];
      refreshTokens := RowsWithout(refreshTokens, id);
    }

    method DeleteActivationToken(v: TokenValue)
      requires Valid()
      modifies this`activationTokens
      ensures Valid() && activationTokens == old(activationTokens) - {v}
    {
      DropTokenKeepsValid(users, activationTokens, resetTokens, refreshTokens, nextUserId, nextToken, v);
      activationTokens := activationTokens - {v};
    }

    method DeleteResetToken(v: TokenValue)
      requires Valid()
      modifies this`resetTokens
      ensures Valid() && resetTokens == old(resetTokens) - {v}
    {
      DropTokenKeepsValid(users, activationTokens, resetTokens, refreshTokens, nextUserId, nextToken, v);
      resetTokens := resetTokens - {v};
    }

    /** Replaces the user's activation token by a fresh one. */
    method IssueActivationToken(id: UserId, expiresAt: int) returns (v: TokenValue)
      requires Valid() && id in users
      modifies this`activationTokens, this`nextToken
      ensures v == old(nextToken) && v !in old(activationTokens) && nextToken == v + 1
      ensures Valid() && activationTokens == Reissue(old(activationTokens), id, v, expiresAt)
    {
      v := nextToken;
      ReissueKeepsValid(users, activationTokens, resetTokens, refreshTokens, nextUserId, v, id, expiresAt);
      activationTokens := Reissue(activationTokens, id, v, expiresAt);
      nextToken := v + 1;
    }

    /** Replaces the user's reset token by a fresh one. */
    method IssueResetToken(id: UserId, expiresAt: int) returns (v: TokenValue)
      requires Valid() && id in users
      modifies this`resetTokens, this`nextToken
      ensures v == old(nextToken) && v !in old(resetTokens) && nextToken == v + 1
      ensures Valid() && resetTokens == Reissue(old(resetTokens), id, v, expiresAt)
    {
      v := nextToken;
      ReissueKeepsValid(users, activationTokens, resetTokens, refreshTokens, nextUserId, v, id, expiresAt);
      resetTokens := Reissue(resetTokens, id, v, expiresAt);
      nextToken := v + 1;
    }

    /** The activation query: the token exists and its user has the given email. */
    ghost predicate ActivationMatches(email: string, token: TokenValue)
      reads this
    {
      token in activationTokens && activationTokens[token].userId in users
      && users[activationTokens[token].userId].email == email
    }

    /** `activate_account`. */
    method Activate(email: string, token: TokenValue, now: int) returns (r: Result<string, HttpError>)
      requires Valid()
      modifies this`users, this`activationTokens, this`outbox
      ensures Valid()
      ensures !old(ActivationMatches(email, token)) ==> r == Err(InvalidActivation) && unchanged(this)
      ensures old(ActivationMatches(email, token)) ==>
        var id := old(activationTokens)[token].userId;
        && (Expired(old(activationTokens)[token], now) ==>
              r == Err(InvalidActivation) && activationTokens == old(activationTokens) - {token}
              && unchanged(this`users, this`outbox))
        && (!Expired(old(activationTokens)[token], now) && old(users)[id].isActive ==>
              r == Err(HttpError(BadRequest, "User account is already active.")) && unchanged(this))
        && (!Expired(old(activationTokens)[token], now) && !old(users)[id].isActive ==>
              r == Ok("User account activated successfully.")
              && users == old(users)[id := old(users)[id].(isActive := true)]
              && activationTokens == old(activationTokens) - {token}
              && outbox == old(outbox) + [ActivationCompleteEmail(email)])
    {
      if !(token in activationTokens && activationTokens[token].userId in users
           && users[activationTokens[token].userId].email == email) {
        return Err(InvalidActivation);
      }
      var row := activationTokens[token];
      if Expired(row, now) {
        DeleteActivationToken(token);
        return Err(InvalidActivation);
      }
      if users[row.userId].isActive {
        return Err(HttpError(BadRequest, "User account is already active."));
      }
      PutUser(row.userId, users[row.userId].(isActive := true));
      DeleteActivationToken(token);
      outbox := outbox + [ActivationCompleteEmail(email)];
      r := Ok("User account activated successfully.");
    }

    /** `resend_activation_token`: the email is taken as given. */
    method ResendActivation(email: string, now: int) returns (r: Result<string, HttpError>)
      requires Valid()
      modifies this`activationTokens, this`outbox, this`nextToken
      ensures Valid()
      ensures var u := UserByEmail(old(users), email);
        && (u.None? || old(users)[u.value].isActive ==>
              r == Ok("The account has been activate or doesn't exist.") && unchanged(this))
        && (u.Some? && !old(users)[u.value].isActive ==>
              r == Ok("Resend message is successful.")
              && activationTokens == Reissue(old(activationTokens), u.value, old(nextToken), now + activationLifetime)
              && outbox == old(outbox) + [ActivationEmail(email, old(nextToken))]
              && nextToken == old(nextToken) + 1)
    {
      var u := UserByEmail(users, email);
      if u.None? || users[u.value].isActive {
        return Ok("The account has been activate or doesn't exist.");
      }
      var v := IssueActivationToken(u.value, now + activationLifetime);
      outbox := outbox + [ActivationEmail(users[u.value].email, v)];
      r := Ok("Resend message is successful.");
    }

    /** `request_password_reset_token`: the same answer whether or not a token is issued. */
    method RequestPasswordReset(email: string, now: int) returns (r: Result<string, HttpError>)
      requires Valid()
      modifies this`resetTokens, this`outbox, this`nextToken
      ensures Valid()
      ensures r == Ok(ResetRequestMessage)
      ensures var u := UserByEmail(old(users), email);
        && (u.None? || !old(users)[u.value].isActive ==> unchanged(this))
        && (u.Some? && old(users)[u.value].isActive ==>
              resetTokens == Reissue(old(resetTokens), u.value, old(nextToken), now + resetLifetime)
              && outbox == old(outbox) + [PasswordResetEmail(email, old(nextToken))]
              && nextToken == old(nextToken) + 1)
    {
      var u := UserByEmail(users, email);
      r := Ok(ResetRequestMessage);
      if u.None? || !users[u.value].isActive {
        return;
      }
      var v := IssueResetToken(u.value, now + resetLifetime);
      outbox := outbox + [PasswordResetEmail(email, v)];
    }

    /** The active user a reset-complete request names, once the schema accepts it. */
    function ResetTarget(email: string, password: string): (r: Option<UserId>)
      reads this
      requires Valid()
      ensures r.Some? ==> (r.value in users && users[r.value].isActive && Password.IsStrong(password)
        && users[r.value].email == Text.Lower(email))
      ensures r.None? && Password.IsStrong(password) ==>
        forall id :: id in users && users[id].email == Text.Lower(email) ==> !users[id].isActive
    {
      match AccountSchemas.ParseEmailPassword(email, password)
      case Err(_) => None
      case Ok(req) =>
        match UserByEmail(users, req.email)
        case None => None
        case Some(id) => if users[id].isActive then Some(id) else None
    }

    /** `reset_password`. */
    method ResetPassword(email: string, password: string, token: TokenValue, now: int) returns (r: Result<string, HttpError>)
      requires Valid()
      modifies this`users, this`resetTokens, this`outbox
      ensures Valid()
      ensures var p := AccountSchemas.ParseResetComplete(email, password, token);
        p.Err? ==> r == Err(AccountSchemas.ValidationFailure(p.error))
      ensures Password.IsStrong(password) && r.Err? ==> r == Err(InvalidEmailOrToken)
      ensures old(ResetTarget(email, password)).None? ==> r.Err? && unchanged(this)
      ensures old(ResetTarget(email, password)).Some? ==>
        var id := old(ResetTarget(email, password)).value;
        && resetTokens == old(resetTokens) - TokensOf(old(resetTokens), id)
        && (r.Ok? <==> TokensOf(old(resetTokens), id) == {token} && !Expired(old(resetTokens)[token], now))
        && (r.Ok? ==> (r.value == "Password reset successfully."
              && users == old(users)[id := old(users)[id].(password := Password.Hash(password))]
              && outbox == old(outbox) + [PasswordResetCompleteEmail(Text.Lower(email))]))
        && (r.Err? ==> users == old(users) && outbox == old(outbox))
    {
      var p := AccountSchemas.ParseResetComplete(email, password, token);
      if p.Err? {
        return Err(AccountSchemas.ValidationFailure(p.error));
      }
      var u := UserByEmail(users, p.value.email);
      if u.None? || !users[u.value].isActive {
        return Err(InvalidEmailOrToken);
      }
      r := ResetWithToken(u.value, token, Password.Hash(p.value.password), p.value.email, now);
    }

    /** The token step of `reset_password` for an active user: the user's token is deleted, matching or not. */
    method ResetWithToken(id: UserId, token: TokenValue, hash: Password.Digest, email: string, now: int) returns (r: Result<string, HttpError>)
      requires Valid() && id in users && users[id].isActive
      modifies this`users, this`resetTokens, this`outbox
      ensures Valid()
      ensures resetTokens == old(resetTokens) - TokensOf(old(resetTokens), id)
      ensures r.Ok? <==> TokensOf(old(resetTokens), id) == {token} && !Expired(old(resetTokens)[token], now)
      ensures r.Ok? ==> (r.value == "Password reset successfully."
        && users == old(users)[id := old(users)[id].(password := hash)]
        && outbox == old(outbox) + [PasswordResetCompleteEmail(email)])
      ensures r.Err? ==> r == Err(InvalidEmailOrToken) && users == old(users) && outbox == old(outbox)
    {
      var rec := TokenOfUser(resetTokens, id);
      if rec.None? {
        return Err(InvalidEmailOrToken);
      }
      var v := rec.value;
      if v != token || Expired(resetTokens[v], now) {
        DeleteResetToken(v);
        return Err(InvalidEmailOrToken);
      }
      PutUser(id, users[id].(password := hash));
      DeleteResetToken(v);
      outbox := outbox + [PasswordResetCompleteEmail(email)];
      r := Ok("Password reset successfully.");
    }

    /** `login_user`. */
    method Login(email: string, password: string, now: int) returns (r: Result<AccountSchemas.LoginResponse, HttpError>)
      requires Valid()
      modifies this`refreshTokens
      ensures Valid()
      ensures var o := LoginOutcome(old(users), email, password);
        && (o.Err? ==> r == Err(o.error) && unchanged(this))
        && (o.Ok? ==>
              var row := LoginRow(o.value, now);
              && r == Ok(AccountSchemas.LoginResponse(Jwt.CreateAccessToken(Some(o.value), now), row.token,
                                                      AccountSchemas.BearerTokenType))
              && refreshTokens == old(refreshTokens) + [row])
    {
      var o := LoginOutcome(users, email, password);
      if o.Err? {
        return Err(o.error);
      }
      var row := LoginRow(o.value, now);
      AddRowKeepsValid(users, activationTokens, resetTokens, refreshTokens, nextUserId, nextToken, row);
      refreshTokens := refreshTokens + [row];
      r := Ok(AccountSchemas.LoginResponse(Jwt.CreateAccessToken(Some(o.value), now), row.token,
                                           AccountSchemas.BearerTokenType));
    }

    /** `logout`: deletes the caller's row holding the given refresh token. */
    method Logout(accessToken: Jwt.Jwt, refreshToken: Jwt.Jwt) returns (r: Result<(), HttpError>)
      requires Valid()
      modifies this`refreshTokens
      ensures Valid()
      ensures var g := AuthGate.CurrentUser(old(users), accessToken);
        && (g.Err? ==> r == Err(g.error) && unchanged(this))
        && (g.Ok? ==>
              var k := FindRow(old(refreshTokens), refreshToken, g.value.id);
              && (k.None? ==> r == Err(HttpError(NotFound, "Token not found.")) && unchanged(this))
              && (k.Some? ==> r == Ok(()) && refreshTokens == old(refreshTokens)[..k.value] + old(refreshTokens)[k.value + 1..]))
      ensures forall x :: x in old(refreshTokens) && x !in refreshTokens ==>
        x.token == refreshToken && AuthGate.CurrentUser(old(users), accessToken).Ok?
        && x.userId == AuthGate.CurrentUser(old(users), accessToken).value.id
    {
      var g := AuthGate.CurrentUser(users, accessToken);
      if g.Err? {
        return Err(g.error);
      }
      var k := FindRow(refreshTokens, refreshToken, g.value.id);
      if k.None? {
        return Err(HttpError(NotFound, "Token not found."));
      }
      DropRowKeepsValid(users, activationTokens, resetTokens, refreshTokens, nextUserId, nextToken, k.value);
      refreshTokens := refreshTokens[..k.value] + refreshTokens[k.value + 1..];
      r := Ok(());
    }

    /** `change_password`: the old password must verify; all the caller's refresh tokens are revoked. */
    method ChangePassword(accessToken: Jwt.Jwt, oldPassword: string, newPassword: string) returns (r: Result<string, HttpError>)
      requires Valid()
      modifies this`users, this`refreshTokens
      ensures Valid()
      ensures var g := AuthGate.CurrentUser(old(users), accessToken);
        && (g.Err? ==> r == Err(g.error) && unchanged(this))
        && (g.Ok? && !Password.IsStrong(newPassword) ==> r.Err? && r.error.status == UnprocessableEntity && unchanged(this))
        && (g.Ok? && Password.IsStrong(newPassword) && !Password.Verify(oldPassword, g.value.user.password) ==>
              r == Err(HttpError(BadRequest, "Current password is incorrect.")) && unchanged(this))
        && (g.Ok? && Password.IsStrong(newPassword) && Password.Verify(oldPassword, g.value.user.password) ==>
              r == Ok("Password change is successful.")
              && users == old(users)[g.value.id := g.value.user.(password := Password.Hash(newPassword))]
              && refreshTokens == RowsWithout(old(refreshTokens), g.value.id))
    {
      var g := AuthGate.CurrentUser(users, accessToken);
      if g.Err? {
        return Err(g.error);
      }
      var p := AccountSchemas.ParsePasswordChange(oldPassword, newPassword);
      if p.Err? {
        return Err(AccountSchemas.ValidationFailure(p.error));
      }
      if !Password.Verify(p.value.oldPassword, g.value.user.password) {
        return Err(HttpError(BadRequest, "Current password is incorrect."));
      }
      PutUserRevokingTokens(g.value.id, g.value.user.(password := Password.Hash(p.value.newPassword)));
      r := Ok("Password change is successful.");
    }

    /** `change_user_group`: admin only; the group must exist, then the user. */
    method ChangeUserGroup(accessToken: Jwt.Jwt, target: UserId, newGroup: Group) returns (r: Result<string, HttpError>)
      requires Valid()
      modifies this`users
      ensures Valid()
      ensures var g := AuthGate.CurrentUser(old(users), accessToken);
        && (g.Err? ==> r == Err(g.error))
        && (g.Ok? && g.value.user.group != AdminGroup ==> r == Err(OnlyForAdmin))
        && (g.Ok? && g.value.user.group == AdminGroup && newGroup !in groups ==>
              r == Err(HttpError(NotFound, "Group not found.")))
        && (g.Ok? && g.value.user.group == AdminGroup && newGroup in groups && target !in old(users) ==>
              r == Err(HttpError(NotFound, "User not found.")))
        && (r.Ok? <==> g.Ok? && g.value.user.group == AdminGroup && newGroup in groups && target in old(users))
      ensures r.Err? ==> unchanged(this)
      ensures r.Ok? ==> (r.value == "Group update is successful."
        && users == old(users)[target := old(users)[target].(group := newGroup)])
    {
      var g := AuthGate.CurrentUser(users, accessToken);
      if g.Err? {
        return Err(g.error);
      }
      if g.value.user.group != AdminGroup {
        return Err(OnlyForAdmin);
      }
      if newGroup !in groups {
        return Err(HttpError(NotFound, "Group not found."));
      }
      if target !in users {
        return Err(HttpError(NotFound, "User not found."));
      }
      PutUser(target, users[target].(group := newGroup));
      r := Ok("Group update is successful.");
    }

    /** `change_user_active_status`: admin only, never on oneself; deactivation revokes every refresh token. */
    method ChangeUserActiveStatus(accessToken: Jwt.Jwt, target: UserId, isActive: bool) returns (r: Result<string, HttpError>)
      requires Valid()
      modifies this`users, this`refreshTokens
      ensures Valid()
      ensures var g := AuthGate.CurrentUser(old(users), accessToken);
        && (g.Err? ==> r == Err(g.error))
        && (g.Ok? && g.value.user.group != AdminGroup ==> r == Err(OnlyForAdmin))
        && (g.Ok? && g.value.user.group == AdminGroup && target !in old(users) ==>
              r == Err(HttpError(NotFound, "User not found.")))
        && (g.Ok? && g.value.user.group == AdminGroup && target in old(users) && target == g.value.id ==>
              r == Err(HttpError(BadRequest, "You cannot ban yourself, bro.")))
        && (r.Ok? <==> g.Ok? && g.value.user.group == AdminGroup && target in old(users) && target != g.value.id)
      ensures r.Err? ==> unchanged(this)
      ensures r.Ok? ==> (r.value == "User status update is successful."
        && users == old(users)[target := old(users)[target].(isActive := isActive)]
        && refreshTokens == if isActive then old(refreshTokens) else RowsWithout(old(refreshTokens), target))
    {
      var g := AuthGate.CurrentUser(users, accessToken);
      if g.Err? {
        return Err(g.error);
      }
      if g.value.user.group != AdminGroup {
        return Err(OnlyForAdmin);
      }
      if target !in users {
        return Err(HttpError(NotFound, "User not found."));
      }
      if target == g.value.id {
        return Err(HttpError(BadRequest, "You cannot ban yourself, bro."));
      }
      if isActive {
        PutUser(target, users[target].(isActive := isActive));
      } else {
        PutUserRevokingTokens(target, users[target].(isActive := isActive));
      }
      r := Ok("User status update is successful.");
    }
  }

  /** A token table: one token per user, each below the token counter and naming an existing user. */
  ghost predicate TokensValid(t: map<TokenValue, TokenRow>, next: nat, users: map<UserId, User>)
  {
    AtMostOnePerUser(t) && forall v :: v in t ==> v < next && t[v].userId in users
  }

  lemma TokensValidWiden(t: map<TokenValue, TokenRow>, next: nat, users: map<UserId, User>, next': nat, users': map<UserId, User>)
    requires TokensValid(t, next, users) && next <= next'
    requires forall id :: id in users ==> id in users'
    ensures TokensValid(t, next', users')
  {
  }

  lemma TokensValidRemove(t: map<TokenValue, TokenRow>, next: nat, users: map<UserId, User>, gone: set<TokenValue>)
    requires TokensValid(t, next, users)
    ensures TokensValid(t - gone, next, users)
  {
    var r := t - gone;
    assert forall v :: v in r ==> r[v] == t[v];
  }

  lemma TokensValidReissue(t: map<TokenValue, TokenRow>, next: nat, users: map<UserId, User>, id: UserId, expiresAt: int)
    requires TokensValid(t, next, users) && id in users
    ensures TokensValid(Reissue(t, id, next, expiresAt), next + 1, users)
  {
    ReissueKeepsOnePerUser(t, id, next, expiresAt);
  }

  /** The ledger stays valid when every user active before is still there and active. */
  lemma LedgerWiden(rows: seq<RefreshRow>, users: map<UserId, User>, users': map<UserId, User>)
    requires LedgerValid(rows, users)
    requires forall id :: id in users && users[id].isActive ==> id in users' && users'[id].isActive
    ensures LedgerValid(rows, users')
  {
  }

  /** Changing fields other than the email keeps emails unique. */
  lemma UniqueEmailsKept(users: map<UserId, User>, id: UserId, u: User)
    requires UniqueEmails(users) && id in users && u.email == users[id].email
    ensures UniqueEmails(users[id := u])
  {
  }

  lemma UniqueEmailsAdd(users: map<UserId, User>, id: UserId, u: User)
    requires UniqueEmails(users) && id !in users
    requires forall x :: x in users ==> users[x].email != u.email
    ensures UniqueEmails(users[id := u])
  {
  }

  /** The invariant of the account tables, on their values. */
  ghost predicate StoreValid(users: map<UserId, User>, activation: map<TokenValue, TokenRow>, reset: map<TokenValue, TokenRow>,
                             refresh: seq<RefreshRow>, nextUserId: UserId, nextToken: TokenValue)
  {
    && UniqueEmails(users)
    && (forall id :: id in users ==> id < nextUserId)
    && TokensValid(activation, nextToken, users)
    && TokensValid(reset, nextToken, users)
    && LedgerValid(refresh, users)
  }

  /** Registration: a fresh user with a fresh email, and one activation token for it. */
  lemma AddUserKeepsValid(users: map<UserId, User>, activation: map<TokenValue, TokenRow>, reset: map<TokenValue, TokenRow>,
                          refresh: seq<RefreshRow>, id: UserId, v: TokenValue, u: User, expiresAt: int)
    requires StoreValid(users, activation, reset, refresh, id, v)
    requires forall x :: x in users ==> users[x].email != u.email
    ensures id !in users
    ensures StoreValid(users[id := u], activation[v := TokenRow(id, expiresAt)], reset, refresh, id + 1, v + 1)
    ensures TokensOf(activation[v := TokenRow(id, expiresAt)], id) == {v}
  {
    assert TokensOf(activation, id) == {};
    UniqueEmailsAdd(users, id, u);
    TokensValidWiden(activation, v, users, v, users[id := u]);
    TokensValidReissue(activation, v, users[id := u], id, expiresAt);
    TokensValidWiden(reset, v, users, v + 1, users[id := u]);
    LedgerWiden(refresh, users, users[id := u]);
    assert Reissue(activation, id, v, expiresAt) == activation[v := TokenRow(id, expiresAt)];
  }

  /** Deleting one token, from either table. */
  lemma DropTokenKeepsValid(users: map<UserId, User>, activation: map<TokenValue, TokenRow>, reset: map<TokenValue, TokenRow>,
                            refresh: seq<RefreshRow>, nextUserId: UserId, nextToken: TokenValue, v: TokenValue)
    requires StoreValid(users, activation, reset, refresh, nextUserId, nextToken)
    ensures StoreValid(users, activation - {v}, reset, refresh, nextUserId, nextToken)
    ensures StoreValid(users, activation, reset - {v}, refresh, nextUserId, nextToken)
  {
    TokensValidRemove(activation, nextToken, users, {v});
    TokensValidRemove(reset, nextToken, users, {v});
  }

  /** Issuing a token to an existing user, in either table. */
  lemma ReissueKeepsValid(users: map<UserId, User>, activation: map<TokenValue, TokenRow>, reset: map<TokenValue, TokenRow>,
                          refresh: seq<RefreshRow>, nextUserId: UserId, nextToken: TokenValue, id: UserId, expiresAt: int)
    requires StoreValid(users, activation, reset, refresh, nextUserId, nextToken) && id in users
    ensures nextToken !in activation && nextToken !in reset
    ensures StoreValid(users, Reissue(activation, id, nextToken, expiresAt), reset, refresh, nextUserId, nextToken + 1)
    ensures StoreValid(users, activation, Reissue(reset, id, nextToken, expiresAt), refresh, nextUserId, nextToken + 1)
  {
    TokensValidReissue(activation, nextToken, users, id, expiresAt);
    TokensValidReissue(reset, nextToken, users, id, expiresAt);
    TokensValidWiden(activation, nextToken, users, nextToken + 1, users);
    TokensValidWiden(reset, nextToken, users, nextToken + 1, users);
  }

  /** Changing a user's record without changing the email or deactivating the user. */
  lemma EditUserKeepsValid(users: map<UserId, User>, activation: map<TokenValue, TokenRow>, reset: map<TokenValue, TokenRow>,
                           refresh: seq<RefreshRow>, nextUserId: UserId, nextToken: TokenValue, id: UserId, u: User)
    requires StoreValid(users, activation, reset, refresh, nextUserId, nextToken)
    requires id in users && u.email == users[id].email && (users[id].isActive ==> u.isActive)
    ensures StoreValid(users[id := u], activation, reset, refresh, nextUserId, nextToken)
  {
    UniqueEmailsKept(users, id, u);
    TokensValidWiden(activation, nextToken, users, nextToken, users[id := u]);
    TokensValidWiden(reset, nextToken, users, nextToken, users[id := u]);
    LedgerWiden(refresh, users, users[id := u]);
  }

  /** Changing a user's record, email aside, while revoking all of the user's refresh tokens. */
  lemma RevokeUserKeepsValid(users: map<UserId, User>, activation: map<TokenValue, TokenRow>, reset: map<TokenValue, TokenRow>,
                             refresh: seq<RefreshRow>, nextUserId: UserId, nextToken: TokenValue, id: UserId, u: User)
    requires StoreValid(users, activation, reset, refresh, nextUserId, nextToken)
    requires id in users && u.email == users[id].email
    ensures StoreValid(users[id := u], activation, reset, RowsWithout(refresh, id), nextUserId, nextToken)
  {
    UniqueEmailsKept(users, id, u);
    TokensValidWiden(activation, nextToken, users, nextToken, users[id := u]);
    TokensValidWiden(reset, nextToken, users, nextToken, users[id := u]);
    LedgerAfterRevoke(refresh, users, users[id := u], id);
  }

  /** Persisting the refresh token of a login by an active user. */
  lemma AddRowKeepsValid(users: map<UserId, User>, activation: map<TokenValue, TokenRow>, reset: map<TokenValue, TokenRow>,
                         refresh: seq<RefreshRow>, nextUserId: UserId, nextToken: TokenValue, row: RefreshRow)
    requires StoreValid(users, activation, reset, refresh, nextUserId, nextToken)
    requires row.userId in users && users[row.userId].isActive && ClaimsRefresh(row.token, row.userId)
    ensures StoreValid(users, activation, reset, refresh + [row], nextUserId, nextToken)
  {
    assert forall i :: 0 <= i < |refresh| ==> (refresh + [row])[i] == refresh[i];
  }

  /** Logout: one row goes, and it is the only one that goes. */
  lemma DropRowKeepsValid(users: map<UserId, User>, activation: map<TokenValue, TokenRow>, reset: map<TokenValue, TokenRow>,
                          refresh: seq<RefreshRow>, nextUserId: UserId, nextToken: TokenValue, k: nat)
    requires StoreValid(users, activation, reset, refresh, nextUserId, nextToken) && k < |refresh|
    ensures StoreValid(users, activation, reset, refresh[..k] + refresh[k + 1..], nextUserId, nextToken)
    ensures forall x :: x in refresh && x !in refresh[..k] + refresh[k + 1..] ==> x == refresh[k]
  {
    DropRowKeepsLedger(refresh, users, k);
  }

  /** Revoking a user's rows keeps the ledger valid even when that user's record changes. */
  lemma LedgerAfterRevoke(rows: seq<RefreshRow>, before: map<UserId, User>, after: map<UserId, User>, id: UserId)
    requires LedgerValid(rows, before)
    requires forall u :: u in before && u != id ==> u in after && after[u] == before[u]
    ensures LedgerValid(RowsWithout(rows, id), after)
  {
    var r := RowsWithout(rows, id);
    forall i | 0 <= i < |r|
      ensures r[i].userId in after && after[r[i].userId].isActive
      ensures Jwt.DecodeRefresh(r[i].token).Some? && Jwt.DecodeRefresh(r[i].token).value.userId == Some(r[i].userId)
    {
      assert r[i] in r;
      var j :| 0 <= j < |rows| && rows[j] == r[i];
    }
  }
}
