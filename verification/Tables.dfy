/** The rows of the service's tables (app/models) and the store that holds them, as values.
    Row ids are positions: a row keeps for ever the position at which it was inserted. */
module Tables {
  import opened Basics
  import opened Claims

  datatype TokenRow = TokenRow(
    userId: Uuid,
    context: Context,
    tokenHash: Digest<Jwt>,
    expiresAt: Time,
    isRevoked: bool,
    revokedAt: Option<Time>,
    lastUsedAt: Option<Time>,
    replacedBy: Option<nat>)

  /** Keyed by user: auth_credentials.user_id is UNIQUE. */
  datatype Credential = Credential(
    passwordHash: PasswordHash,
    isActive: bool,
    isLocked: bool,
    failedLoginCount: int,
    lockedUntil: Option<Time>,
    passwordChangedAt: Time,
    lastLoginAt: Option<Time>)

  /** The raw reset secret handed to the user. */
  type Secret = nat

  datatype ResetRow = ResetRow(
    userId: Uuid,
    tokenHash: Digest<Secret>,
    expiresAt: Time,
    isUsed: bool,
    usedAt: Option<Time>)

  datatype FailureReason = INVALID_CREDENTIALS | CREDENTIAL_INACTIVE | ACCOUNT_LOCKED

  datatype LoginAttempt = LoginAttempt(
    userId: Option<Uuid>,
    identifier: string,
    context: Context,
    successful: bool,
    failureReason: Option<FailureReason>,
    attemptedAt: Time)

  datatype AuthEventType = LOGIN_SUCCESS | LOGIN_FAILURE | TOKEN_REFRESH | TOKEN_REVOKED | REGISTRATION_COMPLETED

  datatype AuthEvent = AuthEvent(
    userId: Option<Uuid>,
    context: Context,
    eventType: AuthEventType,
    reason: Option<FailureReason>)

  datatype SecurityEventType =
    | ACCOUNT_LOCKED_EVENT
    | PASSWORD_CHANGED
    | PASSWORD_RESET_REQUESTED
    | PASSWORD_RESET_COMPLETED

  datatype SecurityEvent = SecurityEvent(userId: Option<Uuid>, context: Context, eventType: SecurityEventType)

  /** Every table, and how many random identifiers have been drawn so far. The draws are not a table:
      rolling a transaction back does not give them back. */
  datatype Store = Store(
    tokens: seq<TokenRow>,
    credentials: map<Uuid, Credential>,
    resets: seq<ResetRow>,
    attempts: seq<LoginAttempt>,
    authEvents: seq<AuthEvent>,
    securityEvents: seq<SecurityEvent>,
    drawn: nat)

  const EMPTY_STORE := Store([], map[], [], [], [], [], 0)

  const PERSONAL_CONTEXT := Context(PERSONAL, None, None)

  /** Append an authentication event. */
  function WithAuthEvent(s: Store, event: AuthEvent): Store {
    s.(authEvents := s.authEvents + [event])
  }

  /** Append a security event. */
  function WithSecurityEvent(s: Store, event: SecurityEvent): Store {
    s.(securityEvents := s.securityEvents + [event])
  }
}
