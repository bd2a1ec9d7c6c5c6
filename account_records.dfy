/**
 * The persisted account records: users with their group, the activation and
 * password-reset token rows, the refresh-token rows, and the notifications the
 * email sender is asked to deliver.
 */
module AccountRecords {
  import Password
  import Jwt

  type UserId = nat

  /** The opaque value of an activation or password-reset token. */
  type TokenValue = nat

  /** `UserGroupEnum`. */
  datatype Group = UserGroup | ModeratorGroup | AdminGroup

  datatype User = User(email: string, password: Password.Digest, isActive: bool, group: Group)

  /** A row of the activation-token or the password-reset-token table. */
  datatype TokenRow = TokenRow(userId: UserId, expiresAt: int)

  /** A row of the refresh-token table. */
  datatype RefreshRow = RefreshRow(token: Jwt.Jwt, userId: UserId, expiresAt: int)

  /** A notification handed to the email sender; links are reduced to the token they carry. */
  datatype Email =
    | ActivationEmail(to: string, token: TokenValue)
    | ActivationCompleteEmail(to: string)
    | PasswordResetEmail(to: string, token: TokenValue)
    | PasswordResetCompleteEmail(to: string)

  /** `LOGIN_TIME_DAYS`, and the length of a day on the integer clock (seconds). */
  const LoginTimeDays := 7
  const SecondsPerDay := 86400
}
