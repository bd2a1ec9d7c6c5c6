/**
 * The request and response schemas of the account endpoints and their field
 * validators: emails of the email/password schemas are lower-cased and their
 * passwords must pass the strength check; the password-change schema checks
 * only the new password.
 */
module AccountSchemas {
  import opened Results
  import opened Http
  import Password
  import Text
  import Jwt

  /** A validated `UserRegistrationRequestSchema` or `UserLoginRequestSchema`. */
  datatype EmailPassword = EmailPassword(email: string, password: string)

  /** A validated `PasswordResetCompleteRequestSchema`. */
  datatype ResetComplete = ResetComplete(email: string, password: string, token: nat)

  /** A validated `PasswordChangeRequestSchema`. */
  datatype PasswordChange = PasswordChange(oldPassword: string, newPassword: string)

  const BearerTokenType := "bearer"

  datatype LoginResponse = LoginResponse(accessToken: Jwt.Jwt, refreshToken: Jwt.Jwt, tokenType: string)

  datatype RefreshResponse = RefreshResponse(accessToken: Jwt.Jwt, tokenType: string)

  /** A failed field validation is answered with 422 and the validator's message. */
  function ValidationFailure(w: Password.Weakness): (e: HttpError)
    ensures e.status == UnprocessableEntity
  {
    HttpError(UnprocessableEntity, Password.Message(w))
  }

  /** `BaseEmailPasswordSchema`: `validate_email` lower-cases, `validate_password` checks strength. */
  function ParseEmailPassword(email: string, password: string): (r: Result<EmailPassword, Password.Weakness>)
    ensures r.Ok? <==> Password.IsStrong(password)
    ensures r.Ok? ==> r.value.email == Text.Lower(email) && r.value.password == password
    ensures r.Err? ==> Password.ValidateStrength(password) == Err(r.error)
  {
    match Password.ValidateStrength(password)
    case Ok(p) => Ok(EmailPassword(Text.Lower(email), p))
    case Err(w) => Err(w)
  }

  /** `PasswordResetCompleteRequestSchema`: the base schema plus the token, which is not checked. */
  function ParseResetComplete(email: string, password: string, token: nat): (r: Result<ResetComplete, Password.Weakness>)
    ensures r.Ok? <==> Password.IsStrong(password)
    ensures r.Ok? ==> r.value == ResetComplete(Text.Lower(email), password, token)
  {
    match ParseEmailPassword(email, password)
    case Ok(ep) => Ok(ResetComplete(ep.email, ep.password, token))
    case Err(w) => Err(w)
  }

  /** `PasswordChangeRequestSchema`: only `new_password` goes through the strength check. */
  function ParsePasswordChange(oldPassword: string, newPassword: string): (r: Result<PasswordChange, Password.Weakness>)
    ensures r.Ok? <==> Password.IsStrong(newPassword)
    ensures r.Ok? ==> r.value == PasswordChange(oldPassword, newPassword)
  {
    match Password.ValidateStrength(newPassword)
    case Ok(p) => Ok(PasswordChange(oldPassword, p))
    case Err(w) => Err(w)
  }

  /** A weak old password never makes a password change request invalid. */
  lemma OldPasswordNotChecked(oldPassword: string, newPassword: string)
    requires !Password.IsStrong(oldPassword) && Password.IsStrong(newPassword)
    ensures ParsePasswordChange(oldPassword, newPassword).Ok?
  {
  }

  /** Validated emails hold no capital letter, and validation does not change them again. */
  lemma ValidatedEmailIsLowerCase(email: string, password: string)
    requires ParseEmailPassword(email, password).Ok?
    ensures var e := ParseEmailPassword(email, password).value.email;
      (forall i :: 0 <= i < |e| ==> !('A' <= e[i] <= 'Z')) && ParseEmailPassword(e, password).value.email == e
  {
    Text.LowerIdempotent(email);
  }
}
