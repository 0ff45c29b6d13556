/** What each call does and answers, on columns and literal values: the statements against which the definitions of the
    calls can be read. */
module Outcomes {
  import opened Basics
  import opened Claims
  import opened Tables
  import opened TokenTable
  import opened TokenProtocol
  import opened Lockout
  import opened Accounts

  // ---------------------------------------------------------------------------------------------
  // Token pairs
  // ---------------------------------------------------------------------------------------------

  /** A checker of this kind accepts the token exactly from the second of `start` up to the second of `end`, and reads
      this user and this context from it. */
  ghost predicate Carries(
    settings: Settings, kind: Kind, token: Jwt, userId: Uuid, context: Context, start: Time, end: Time)
  {
    && token.Signed?
    && token.payload.sub == Str(UuidText(userId))
    && ExtractContext(token.payload) == Ok(context)
    && forall at: Time :: Validate(settings, kind, token, at).Ok? <==> Seconds(start) <= Seconds(at) < Seconds(end)
  }

  /** Both tokens of the pair carry the user and the context for their own lifetimes. */
  ghost predicate IsPairFor(settings: Settings, pair: TokenPair, userId: Uuid, context: Context, now: Time) {
    && Carries(settings, Access, pair.accessToken, userId, context, now, now + settings.accessLifetime)
    && Carries(settings, Refresh, pair.refreshToken, userId, context, now, now + settings.refreshLifetime)
    && pair.accessToken.payload.jti != pair.refreshToken.payload.jti
  }

  /** The row that stores this refresh token: unrevoked, never used, expiring one refresh lifetime after its issue. */
  predicate Stores(settings: Settings, row: TokenRow, token: Jwt, userId: Uuid, context: Context, now: Time) {
    && row.tokenHash == Sha256(token) && row.userId == userId && row.context == context
    && row.expiresAt == now + settings.refreshLifetime
    && !row.isRevoked && row.revokedAt.None? && row.lastUsedAt.None? && row.replacedBy.None?
  }

  lemma MintedTokenCarries(
    settings: Settings, kind: Kind, userId: Uuid, context: Context, now: Time, jti: Uuid, end: Time)
    requires end == now + (if kind.Access? then settings.accessLifetime else settings.refreshLifetime)
    ensures Carries(settings, kind, Mint(settings, kind, userId, context, now, jti), userId, context, now, end)
    ensures Mint(settings, kind, userId, context, now, jti).payload.jti == Str(UuidText(jti))
  {
    var token := Mint(settings, kind, userId, context, now, jti);
    ClaimsRoundTrip(settings, kind, userId, context, now, jti, now);
    forall at: Time
      ensures Validate(settings, kind, token, at).Ok? <==> Seconds(now) <= Seconds(at) < Seconds(end)
    {
      ClaimsRoundTrip(settings, kind, userId, context, now, jti, at);
    }
  }

  /** Issuing tokens returns a pair for the user and the context, and appends the row that stores its refresh token. */
  lemma IssueOutcome(settings: Settings, s: Store, userId: Uuid, context: Context, now: Time)
    ensures
      var (s', pair) := IssueTokens(settings, s, userId, context, now);
      && IsPairFor(settings, pair, userId, context, now)
      && |s'.tokens| == |s.tokens| + 1 && s'.tokens[..|s.tokens|] == s.tokens
      && Stores(settings, s'.tokens[|s.tokens|], pair.refreshToken, userId, context, now)
      && s' == s.(tokens := s'.tokens, drawn := s'.drawn)
  {
    hide Carries, Mint;
    MintedTokenCarries(settings, Access, userId, context, now, s.drawn, now + settings.accessLifetime);
    MintedTokenCarries(settings, Refresh, userId, context, now, s.drawn + 1, now + settings.refreshLifetime);
  }

  /** Row i may be refreshed with the token: it is the token's row, unrevoked and unexpired, and the JWT is within its
      interval. */
  predicate Refreshes(settings: Settings, rows: seq<TokenRow>, i: nat, token: Jwt, now: Time, jwtClock: Time)
    requires i < |rows|
  {
    && rows[i].tokenHash == Sha256(token) && !rows[i].isRevoked && now < rows[i].expiresAt
    && Seconds(rows[i].expiresAt - settings.refreshLifetime) <= Seconds(jwtClock) < Seconds(rows[i].expiresAt)
  }

  /** A refresh succeeds exactly on the token of such a row. It then rewrites that row as revoked, used and replaced,
      and appends the row that stores the new refresh token; the pair is for the row's user and context. */
  lemma RefreshOutcome(settings: Settings, s: Store, token: Jwt, now: Time, jwtClock: Time)
    requires TokenLineage(settings, s.tokens, s.drawn)
    ensures
      var (s', r) := RefreshTokens(settings, s, token, now, jwtClock);
      && (r.Ok? <==> exists i | 0 <= i < |s.tokens| :: Refreshes(settings, s.tokens, i, token, now, jwtClock))
      && (r.Err? ==> s' == s)
      && (forall i | 0 <= i < |s.tokens| && Refreshes(settings, s.tokens, i, token, now, jwtClock) ::
            var row := s.tokens[i];
            && IsPairFor(settings, r.value, row.userId, row.context, now)
            && |s'.tokens| == |s.tokens| + 1
            && (forall j | 0 <= j < |s.tokens| && j != i :: s'.tokens[j] == s.tokens[j])
            && s'.tokens[i] == row.(
                 isRevoked := true, revokedAt := Some(now), lastUsedAt := Some(now), replacedBy := Some(|s.tokens|))
            && Stores(settings, s'.tokens[|s.tokens|], r.value.refreshToken, row.userId, row.context, now)
            && s'.authEvents == s.authEvents + [AuthEvent(Some(row.userId), row.context, TOKEN_REFRESH, None)]
            && s' == s.(tokens := s'.tokens, drawn := s'.drawn, authEvents := s'.authEvents))
  {
    hide TokenLineage, RefreshTokens, IsPairFor, Validate;
    match FindToken(s.tokens, Sha256(token))
    case None =>
      UnknownTokenIsRefused(settings, s, token, now, jwtClock);
    case Some(k) =>
      RefreshOfStoredToken(settings, s, k, now, jwtClock);
      forall i | 0 <= i < |s.tokens| && s.tokens[i].tokenHash == Sha256(token)
        ensures i == k
      {
        FindStoredToken(settings, s.tokens, s.drawn, i);
      }
      if Refreshes(settings, s.tokens, k, token, now, jwtClock) {
        RotationOutcome(settings, s, k, now);
      }
  }

  lemma RotationOutcome(settings: Settings, s: Store, i: nat, now: Time)
    requires TokenLineage(settings, s.tokens, s.drawn) && Enabled(s.tokens, Rotate(i, now))
    ensures
      var row := s.tokens[i];
      var (s', r) := RotateToken(settings, s, i, row.userId, row.context, now);
      && r.Ok? && IsPairFor(settings, r.value, row.userId, row.context, now)
      && |s'.tokens| == |s.tokens| + 1
      && (forall j | 0 <= j < |s.tokens| && j != i :: s'.tokens[j] == s.tokens[j])
      && s'.tokens[i] == row.(
           isRevoked := true, revokedAt := Some(now), lastUsedAt := Some(now), replacedBy := Some(|s.tokens|))
      && Stores(settings, s'.tokens[|s.tokens|], r.value.refreshToken, row.userId, row.context, now)
      && s'.authEvents == s.authEvents + [AuthEvent(Some(row.userId), row.context, TOKEN_REFRESH, None)]
      && s' == s.(tokens := s'.tokens, drawn := s'.drawn, authEvents := s'.authEvents)
  {
    hide TokenLineage, RotateToken, Carries, Mint;
    var row := s.tokens[i];
    IssueOutcome(settings, s, row.userId, row.context, now);
    RotateTokenIsRotation(settings, s, i, now);
  }

  /** A revocation succeeds exactly on the token of an unrevoked row whose JWT is within its interval; it rewrites that
      row in its two revocation columns, logs one event, and refuses a revoked row as such. */
  lemma RevokeOutcome(settings: Settings, s: Store, i: nat, now: Time, jwtClock: Time)
    requires TokenLineage(settings, s.tokens, s.drawn) && i < |s.tokens|
    ensures
      var row := s.tokens[i];
      var (s', r) := RevokeToken(settings, s, row.tokenHash.preimage, now, jwtClock);
      var start := Seconds(row.expiresAt - settings.refreshLifetime);
      && (r.Ok? <==> !row.isRevoked && start <= Seconds(jwtClock) < Seconds(row.expiresAt))
      && (r.Err? ==> s' == s)
      && (row.isRevoked && start <= Seconds(jwtClock) < Seconds(row.expiresAt) ==> r == Err(RevokedTokenError))
      && (start <= Seconds(jwtClock) && Seconds(row.expiresAt) <= Seconds(jwtClock) ==> r == Err(ExpiredTokenError))
      && (r.Ok? ==>
            && s'.tokens == s.tokens[i := row.(isRevoked := true, revokedAt := Some(now))]
            && s'.authEvents == s.authEvents + [AuthEvent(Some(row.userId), row.context, TOKEN_REVOKED, None)]
            && s' == s.(tokens := s'.tokens, authEvents := s'.authEvents))
  {
    RevokeOfStoredToken(settings, s, i, now, jwtClock);
    FindStoredToken(settings, s.tokens, s.drawn, i);
    StoredClaimsAgree(settings, s.tokens, s.drawn, i, jwtClock);
    assert MintedRow(settings, s.tokens[i]);
    var row := s.tokens[i];
    ClaimsRoundTrip(settings, Refresh, row.userId, row.context, row.expiresAt - settings.refreshLifetime, JtiOf(row),
      jwtClock);
  }

  // ---------------------------------------------------------------------------------------------
  // Authentication and login
  // ---------------------------------------------------------------------------------------------

  /** No lock holds at this instant: the flag is clear, or the lock has an end that has come. */
  predicate Unlocked(credential: Credential, now: Time) {
    !credential.isLocked || (credential.lockedUntil.Some? && credential.lockedUntil.value <= now)
  }

  /** The user has a credential that is active and unlocked, and the password is its own. */
  predicate Admits(s: Store, userId: Uuid, password: string, now: Time) {
    && userId in s.credentials
    && s.credentials[userId].isActive && Unlocked(s.credentials[userId], now)
    && s.credentials[userId].passwordHash == Argon2(password)
  }

  /** The reason that the log gives for an attempt. */
  function LoggedReason(s: Store, userId: Uuid, password: string, now: Time): Option<FailureReason> {
    if Admits(s, userId, password, now) then None
    else if userId !in s.credentials then Some(INVALID_CREDENTIALS)
    else if !s.credentials[userId].isActive then Some(CREDENTIAL_INACTIVE)
    else if !Unlocked(s.credentials[userId], now) then Some(ACCOUNT_LOCKED)
    else Some(INVALID_CREDENTIALS)
  }

  /** authenticate admits exactly those passwords. The one logged attempt names a known user only and says why; a known
      user's credential loses its failures on success, counts a wrong password and locks for one lockout at the
      threshold, and is left alone otherwise; one event goes with it. */
  lemma AuthenticateOutcome(
    settings: Settings, s: Store, userId: Uuid, password: string, identifier: string, context: Context, now: Time)
    ensures
      var (s', r) := Authenticate(settings, s, userId, password, identifier, context, now);
      var known := if userId in s.credentials then Some(userId) else None;
      var reason := LoggedReason(s, userId, password, now);
      && (r.authenticated <==> Admits(s, userId, password, now))
      && r.userId == known
      && s'.attempts == s.attempts + [LoginAttempt(known, identifier, context, r.authenticated, reason, now)]
      && s' == s.(credentials := s'.credentials, attempts := s'.attempts,
                  authEvents := s'.authEvents, securityEvents := s'.securityEvents)
      && s'.credentials.Keys == s.credentials.Keys
      && (forall u | u in s.credentials && u != userId :: s'.credentials[u] == s.credentials[u])
      && (userId in s.credentials ==>
            var before, after := s.credentials[userId], s'.credentials[userId];
            var counted := before.failedLoginCount + 1;
            if r.authenticated then
              && after == before.(failedLoginCount := 0, isLocked := false, lockedUntil := None, lastLoginAt :=
                   Some(now))
              && r.failureReason.None?
              && s'.authEvents == s.authEvents + [AuthEvent(Some(userId), context, LOGIN_SUCCESS, None)]
              && s'.securityEvents == s.securityEvents
            else if reason == Some(INVALID_CREDENTIALS) && counted >= settings.maxFailedLogins then
              && after == before.(
                   failedLoginCount := counted, isLocked := true, lockedUntil := Some(now + settings.lockout))
              && r.failureReason == Some(ACCOUNT_LOCKED)
              && s'.securityEvents == s.securityEvents + [SecurityEvent(Some(userId), context, ACCOUNT_LOCKED_EVENT)]
              && s'.authEvents == s.authEvents
            else
              && after == (if reason == Some(INVALID_CREDENTIALS) then before.(failedLoginCount := counted) else before)
              && s'.authEvents == s.authEvents + [AuthEvent(Some(userId), context, LOGIN_FAILURE, reason)]
              && s'.securityEvents == s.securityEvents)
      && (userId !in s.credentials ==>
            && r.failureReason == Some(INVALID_CREDENTIALS)
            && s'.authEvents == s.authEvents + [AuthEvent(None, context, LOGIN_FAILURE, Some(INVALID_CREDENTIALS))]
            && s'.securityEvents == s.securityEvents)
  {
  }

  /** LoginService.login returns exactly when the status lets the user log in and the credential admits the password. */
  lemma LoginUserOutcome(
    settings: Settings, s: Store, resolved: Result<Option<Uuid>>, status: Result<string>,
    password: string, identifier: string, context: Context, now: Time)
    ensures
      var r := LoginUser(settings, s, resolved, status, password, identifier, context, now).1;
      && (r.Ok? <==>
            && resolved.Ok? && resolved.value.Some? && status.Ok? && MayLogIn(status.value)
            && Admits(s, resolved.value.value, password, now))
      && (r.Ok? ==> r.value == AuthenticationResult(true, resolved.value, None))
  {
    hide Authenticate, LoginGate, MayLogIn, Unlocked;
    if resolved.Ok? && resolved.value.Some? && status.Ok? {
      GateAgreesWithSync(status.value);
      AuthenticateOutcome(settings, s, resolved.value.value, password, identifier, context, now);
    }
  }

  /** The error of a login that gets no tokens, first cause first. */
  function LoginError(
    s: Store, resolved: Result<Option<Uuid>>, status: Result<string>, password: string, session: Result<()>, now: Time)
    : Option<Error>
  {
    if resolved.Err? then Some(resolved.error)
    else if resolved.value.None? then Some(InvalidCredentialsError)
    else if status.Err? then Some(status.error)
    else if status.value == "deleted" then Some(UserDeletedError)
    else if status.value == "suspended" || status.value == "restricted" || status.value == "deactivated"
      then Some(AccountLockedError)
    else if !MayLogIn(status.value) then Some(InvalidCredentialsError)
    else if !Admits(s, resolved.value.value, password, now) then Some(InvalidCredentialsError)
    else if session.Err? then Some(session.error)
    else None
  }

  /** A login gets tokens exactly when the identifier resolves to a user whose status is one of the three that may log
      in, whose credential is active and unlocked and has this password, and whose session is created; otherwise it
      raises the error of the first of these that fails. The tokens are the user's PERSONAL pair, and their row is
      stored. */
  lemma LoginOutcome(
    settings: Settings, s: Store, resolved: Result<Option<Uuid>>, status: Result<string>,
    password: string, identifier: string, session: Result<()>, now: Time)
    ensures
      var (s', r) := LoginRequest(settings, s, resolved, status, password, identifier, session, now);
      && (r.Ok? <==>
            && resolved.Ok? && resolved.value.Some? && status.Ok? && MayLogIn(status.value)
            && Admits(s, resolved.value.value, password, now) && session.Ok?)
      && LoginError(s, resolved, status, password, session, now) == (if r.Ok? then None else Some(r.error))
      && (r.Ok? ==>
            var userId := resolved.value.value;
            var personal := Context(Plain("PERSONAL"), None, None);
            && IsPairFor(settings, r.value, userId, personal, now)
            && |s'.tokens| == |s.tokens| + 1 && s'.tokens[..|s.tokens|] == s.tokens
            && Stores(settings, s'.tokens[|s.tokens|], r.value.refreshToken, userId, personal, now)
            && s'.attempts == s.attempts + [LoginAttempt(Some(userId), identifier, personal, true, None, now)]
            && s'.authEvents == s.authEvents + [AuthEvent(Some(userId), personal, LOGIN_SUCCESS, None)])
  {
    hide Authenticate, IssueTokens, Unlocked, IsPairFor, LoginGate, MayLogIn;
    if resolved.Ok? && resolved.value.Some? && status.Ok? {
      var userId := resolved.value.value;
      GateAgreesWithSync(status.value);
      BlockedMayNotLogIn(status.value);
      AuthenticateOutcome(settings, s, userId, password, identifier, PERSONAL_CONTEXT, now);
      var authenticated := Authenticate(settings, s, userId, password, identifier, PERSONAL_CONTEXT, now).0;
      IssueOutcome(settings, authenticated, userId, PERSONAL_CONTEXT, now);
    }
  }

  lemma BlockedMayNotLogIn(status: string)
    ensures status == "deleted" || status == "suspended" || status == "restricted" || status == "deactivated" ==>
      !MayLogIn(status)
  {
    GateAgreesWithSync(status);
  }

  // ---------------------------------------------------------------------------------------------
  // Registration
  // ---------------------------------------------------------------------------------------------

  /** A registration raises the User Service's error, and otherwise returns the user's PERSONAL pair, whose row it
      stores. A user without a credential gets an active, unlocked one with this password; one that is there stays. */
  lemma RegisterOutcome(settings: Settings, s: Store, created: Result<Uuid>, password: string, now: Time)
    ensures
      var (s', r) := Register(settings, s, created, password, now);
      && (created.Err? ==> r == Err(created.error) && s' == s)
      && (created.Ok? ==>
            var userId := created.value;
            var personal := Context(Plain("PERSONAL"), None, None);
            && r.Ok? && r.value.userId == userId && IsPairFor(settings, r.value.tokens, userId, personal, now)
            && |s'.tokens| == |s.tokens| + 1 && s'.tokens[..|s.tokens|] == s.tokens
            && Stores(settings, s'.tokens[|s.tokens|], r.value.tokens.refreshToken, userId, personal, now)
            && (userId in s.credentials ==> s'.credentials == s.credentials)
            && (userId !in s.credentials ==>
                  s'.credentials == s.credentials[
                    userId := Credential(Argon2(password), true, false, 0, None, now, None)])
            && s'.authEvents == s.authEvents + [AuthEvent(Some(userId), personal, REGISTRATION_COMPLETED, None)]
            && s'.resets == s.resets && s'.attempts == s.attempts && s'.securityEvents == s.securityEvents)
  {
    hide Carries, Mint, IsPairFor;
    if created.Ok? {
      var userId := created.value;
      var ensured := if userId in s.credentials then s
        else s.(credentials := s.credentials[userId := NewCredential(password, now)]);
      var event := AuthEvent(Some(userId), PERSONAL_CONTEXT, REGISTRATION_COMPLETED, None);
      IssueOutcome(settings, WithAuthEvent(ensured, event), userId, PERSONAL_CONTEXT, now);
    }
  }
}
