/** app/services/authentication_service.py with its lock predicates (app/security/authentication.py,
    app/security/rate_limiting.py): what authenticate does to the store, and why the credential's counter
    and lock are a cache of the attempt log. */
module Lockout {
  import opened Basics
  import opened Claims
  import opened Tables

  // ---------------------------------------------------------------------------------------------
  // Lock predicates
  // ---------------------------------------------------------------------------------------------

  /** A lock without an expiry is permanent; one with an expiry holds strictly before it. */
  predicate IsCredentialLocked(credential: Credential, now: Time) {
    credential.isLocked && (credential.lockedUntil.None? || credential.lockedUntil.value > now)
  }

  predicate CanAuthenticate(credential: Credential, now: Time) {
    credential.isActive && !IsCredentialLocked(credential, now)
  }

  predicate ShouldLockAccount(settings: Settings, failedAttempts: int) {
    failedAttempts >= settings.maxFailedLogins
  }

  function LockExpiration(settings: Settings, now: Time): Time {
    now + settings.lockout
  }

  // ---------------------------------------------------------------------------------------------
  // authenticate
  // ---------------------------------------------------------------------------------------------

  datatype AuthenticationResult = AuthenticationResult(
    authenticated: bool,
    userId: Option<Uuid>,
    failureReason: Option<FailureReason>)

  function Failure(userId: Option<Uuid>, reason: FailureReason): AuthenticationResult {
    AuthenticationResult(false, userId, Some(reason))
  }

  function FailedAttempt(
    userId: Option<Uuid>, identifier: string, context: Context, reason: FailureReason, now: Time): LoginAttempt
  {
    LoginAttempt(userId, identifier, context, false, Some(reason), now)
  }

  /** A refusal: one attempt and one LOGIN_FAILURE event. */
  function RecordFailedAttempt(
    s: Store, userId: Option<Uuid>, identifier: string, context: Context, reason: FailureReason, now: Time): Store
  {
    WithAuthEvent(
      s.(attempts := s.attempts + [FailedAttempt(userId, identifier, context, reason, now)]),
      AuthEvent(userId, context, LOGIN_FAILURE, Some(reason)))
  }

  /** The credential after one more wrong password: counted, and locked once the threshold is reached. */
  function AfterWrongPassword(settings: Settings, credential: Credential, now: Time): Credential {
    var counted := credential.(failedLoginCount := credential.failedLoginCount + 1);
    if ShouldLockAccount(settings, counted.failedLoginCount)
    then counted.(isLocked := true, lockedUntil := Some(LockExpiration(settings, now)))
    else counted
  }

  function HandleFailedPassword(
    settings: Settings, s: Store, userId: Uuid, identifier: string, context: Context, now: Time): Store
    requires userId in s.credentials
  {
    var credential := AfterWrongPassword(settings, s.credentials[userId], now);
    var recorded := s.(
      credentials := s.credentials[userId := credential],
      attempts := s.attempts + [FailedAttempt(Some(userId), identifier, context, INVALID_CREDENTIALS, now)]);
    if ShouldLockAccount(settings, credential.failedLoginCount)
    then WithSecurityEvent(recorded, SecurityEvent(Some(userId), context, ACCOUNT_LOCKED_EVENT))
    else WithAuthEvent(recorded, AuthEvent(Some(userId), context, LOGIN_FAILURE, Some(INVALID_CREDENTIALS)))
  }

  function AfterSuccessfulLogin(credential: Credential, now: Time): Credential {
    credential.(failedLoginCount := 0, isLocked := false, lockedUntil := None, lastLoginAt := Some(now))
  }

  function HandleCorrectPassword(s: Store, userId: Uuid, identifier: string, context: Context, now: Time): Store
    requires userId in s.credentials
  {
    WithAuthEvent(
      s.(credentials := s.credentials[userId := AfterSuccessfulLogin(s.credentials[userId], now)],
         attempts := s.attempts + [LoginAttempt(Some(userId), identifier, context, true, None, now)]),
      AuthEvent(Some(userId), context, LOGIN_SUCCESS, None))
  }

  function Authenticate(
    settings: Settings, s: Store, userId: Uuid, password: string, identifier: string, context: Context, now: Time)
    : (Store, AuthenticationResult)
  {
    if userId !in s.credentials then
      (RecordFailedAttempt(s, None, identifier, context, INVALID_CREDENTIALS, now), Failure(None, INVALID_CREDENTIALS))
    else
      var credential := s.credentials[userId];
      if !credential.isActive then
        (RecordFailedAttempt(s, Some(userId), identifier, context, CREDENTIAL_INACTIVE, now),
          Failure(Some(userId), CREDENTIAL_INACTIVE))
      else if IsCredentialLocked(credential, now) then
        (RecordFailedAttempt(s, Some(userId), identifier, context, ACCOUNT_LOCKED, now),
          Failure(Some(userId), ACCOUNT_LOCKED))
      else if !VerifyPassword(password, credential.passwordHash) then
        (HandleFailedPassword(settings, s, userId, identifier, context, now),
         Failure(Some(userId), if AfterWrongPassword(settings, credential, now).isLocked then ACCOUNT_LOCKED
           else INVALID_CREDENTIALS))
      else
        (HandleCorrectPassword(s, userId, identifier, context, now), AuthenticationResult(true, Some(userId), None))
  }

  // ---------------------------------------------------------------------------------------------
  // What the log says
  // ---------------------------------------------------------------------------------------------

  /** An attempt at which a password of user u was evaluated and found wrong. */
  predicate IsEvaluatedFailure(attempt: LoginAttempt, userId: Uuid) {
    attempt.userId == Some(userId) && !attempt.successful && attempt.failureReason == Some(INVALID_CREDENTIALS)
  }

  /** The instants of the user's evaluated failures since the user's last success, oldest first. */
  function FailureTimes(attempts: seq<LoginAttempt>, userId: Uuid): seq<Time> {
    if attempts == [] then []
    else
      var earlier, last := attempts[..|attempts| - 1], attempts[|attempts| - 1];
      if last.userId == Some(userId) && last.successful then []
      else if IsEvaluatedFailure(last, userId) then FailureTimes(earlier, userId) + [last.attemptedAt]
      else FailureTimes(earlier, userId)
  }

  lemma FailureTimesAppend(attempts: seq<LoginAttempt>, attempt: LoginAttempt, userId: Uuid)
    ensures FailureTimes(attempts + [attempt], userId) ==
      if attempt.userId == Some(userId) && attempt.successful then []
      else if IsEvaluatedFailure(attempt, userId) then FailureTimes(attempts, userId) + [attempt.attemptedAt]
      else FailureTimes(attempts, userId)
  {
    assert (attempts + [attempt])[..|attempts|] == attempts;
  }

  /** The number of evaluated failures at which the user's count had reached the threshold. */
  function LockingFailures(settings: Settings, attempts: seq<LoginAttempt>): nat {
    if attempts == [] then 0
    else
      var last := attempts[|attempts| - 1];
      LockingFailures(settings, attempts[..|attempts| - 1])
      + (if last.userId.Some? && IsEvaluatedFailure(last, last.userId.value)
            && ShouldLockAccount(settings, |FailureTimes(attempts, last.userId.value)|)
         then 1 else 0)
  }

  // ---------------------------------------------------------------------------------------------
  // The cache invariant
  // ---------------------------------------------------------------------------------------------

  /** The lock columns recomputed from the failures since the last success. */
  predicate LockAgrees(settings: Settings, credential: Credential, failures: seq<Time>) {
    && credential.failedLoginCount == |failures|
    && (credential.isLocked <==> |failures| >= settings.maxFailedLogins)
    && credential.lockedUntil ==
         (if |failures| >= settings.maxFailedLogins && |failures| > 0
          then Some(failures[|failures| - 1] + settings.lockout) else None)
  }

  /** Past the threshold, consecutive evaluated failures are at least one lockout apart. */
  predicate Throttled(settings: Settings, failures: seq<Time>) {
    forall n | 1 <= n < |failures| && n >= settings.maxFailedLogins :: failures[n] >= failures[n - 1] + settings.lockout
  }

  ghost predicate LockoutInvariant(settings: Settings, s: Store) {
    && (forall u | u in s.credentials :: LockAgrees(settings, s.credentials[u], FailureTimes(s.attempts, u)))
    && (forall u: Uuid {:trigger FailureTimes(s.attempts, u)} :: u !in s.credentials ==>
         FailureTimes(s.attempts, u) == [])
    && (forall u: Uuid {:trigger FailureTimes(s.attempts, u)} :: Throttled(settings, FailureTimes(s.attempts, u)))
  }

  /** What one attempt means for one user: a success clears the lock columns; an evaluated failure, made while no lock
      held, counts and locks from the threshold on; anything else leaves the lock columns alone. */
  ghost predicate AttemptExplains(settings: Settings, s: Store, s': Store, attempt: LoginAttempt, u: Uuid) {
    && s'.attempts == s.attempts + [attempt] && (u in s'.credentials <==> u in s.credentials)
    && (attempt.userId == Some(u) && (attempt.successful || IsEvaluatedFailure(attempt, u)) ==> u in s.credentials)
    && (u in s.credentials ==>
          var before, after := s.credentials[u], s'.credentials[u];
          if attempt.userId == Some(u) && attempt.successful then
            after.failedLoginCount == 0 && !after.isLocked && after.lockedUntil.None?
          else if IsEvaluatedFailure(attempt, u) then
            !IsCredentialLocked(before, attempt.attemptedAt)
            && after == AfterWrongPassword(settings, before, attempt.attemptedAt)
          else after == before)
  }

  lemma AttemptIsExplained(
    settings: Settings, s: Store, userId: Uuid, password: string, identifier: string, context: Context, now: Time,
    u: Uuid)
    ensures
      var s' := Authenticate(settings, s, userId, password, identifier, context, now).0;
      |s'.attempts| == |s.attempts| + 1 && AttemptExplains(settings, s, s', s'.attempts[|s.attempts|], u)
  {
  }

  /** One attempt keeps the user's lock columns an exact cache of the user's log. */
  lemma AttemptKeepsUser(settings: Settings, s: Store, s': Store, attempt: LoginAttempt, u: Uuid)
    requires AttemptExplains(settings, s, s', attempt, u) && settings.maxFailedLogins >= 1
    requires u in s.credentials ==> LockAgrees(settings, s.credentials[u], FailureTimes(s.attempts, u))
    requires u !in s.credentials ==> FailureTimes(s.attempts, u) == []
    requires Throttled(settings, FailureTimes(s.attempts, u))
    ensures u in s'.credentials ==> LockAgrees(settings, s'.credentials[u], FailureTimes(s'.attempts, u))
    ensures u !in s'.credentials ==> FailureTimes(s'.attempts, u) == []
    ensures Throttled(settings, FailureTimes(s'.attempts, u))
  {
    hide FailureTimes;
    FailureTimesAppend(s.attempts, attempt, u);
  }

  /** authenticate keeps the credential an exact cache of the log, for any clock reading. */
  lemma AuthenticateKeepsLockout(
    settings: Settings, s: Store, userId: Uuid, password: string, identifier: string, context: Context, now: Time)
    requires LockoutInvariant(settings, s) && settings.maxFailedLogins >= 1
    ensures LockoutInvariant(settings, Authenticate(settings, s, userId, password, identifier, context, now).0)
  {
    hide Authenticate, AttemptExplains, FailureTimes, LockAgrees, Throttled;
    var s' := Authenticate(settings, s, userId, password, identifier, context, now).0;
    forall u: Uuid
      ensures u in s'.credentials ==> LockAgrees(settings, s'.credentials[u], FailureTimes(s'.attempts, u))
      ensures u !in s'.credentials ==> FailureTimes(s'.attempts, u) == []
      ensures Throttled(settings, FailureTimes(s'.attempts, u))
    {
      assert Throttled(settings, FailureTimes(s.attempts, u));
      AttemptIsExplained(settings, s, userId, password, identifier, context, now, u);
      AttemptKeepsUser(settings, s, s', s'.attempts[|s.attempts|], u);
    }
  }

  /** Throttling bound, on any log that satisfies the invariant: the n-th evaluated failure since the last
      success comes no earlier than n - max lockouts after the one that reached the threshold. */
  lemma {:induction false} ThrottlingBound(settings: Settings, failures: seq<Time>, n: int)
    requires Throttled(settings, failures) && 1 <= settings.maxFailedLogins <= n <= |failures|
    ensures failures[n - 1] >= failures[settings.maxFailedLogins - 1]
      + (n - settings.maxFailedLogins) * settings.lockout
    decreases n
  {
    var max := settings.maxFailedLogins;
    if n > max {
      ThrottlingBound(settings, failures, n - 1);
      assert failures[n - 1] >= failures[n - 2] + settings.lockout;
      assert (n - max) * settings.lockout == (n - 1 - max) * settings.lockout + settings.lockout;
    }
  }

  lemma QuotientBound(k: int, step: int, span: int)
    requires step > 0 && k * step <= span
    ensures k <= span / step
  {
    var quotient := span / step;
    assert span < quotient * step + step == (quotient + 1) * step;
  }

  // ---------------------------------------------------------------------------------------------
  // Audit trail
  // ---------------------------------------------------------------------------------------------

  function IsLoginSuccess(event: AuthEvent): nat { if event.eventType.LOGIN_SUCCESS? then 1 else 0 }

  function IsLoginFailure(event: AuthEvent): nat { if event.eventType.LOGIN_FAILURE? then 1 else 0 }

  function IsAccountLocked(event: SecurityEvent): nat { if event.eventType.ACCOUNT_LOCKED_EVENT? then 1 else 0 }

  function IsSuccessfulAttempt(attempt: LoginAttempt): nat { if attempt.successful then 1 else 0 }

  /** Attempts and login events match one for one; successes match LOGIN_SUCCESS events; ACCOUNT_LOCKED events
      match the evaluated failures at or past the threshold. */
  ghost predicate AuditInvariant(settings: Settings, s: Store) {
    && |s.attempts| == Total(s.authEvents, IsLoginSuccess) + Total(s.authEvents, IsLoginFailure)
         + Total(s.securityEvents, IsAccountLocked)
    && Total(s.attempts, IsSuccessfulAttempt) == Total(s.authEvents, IsLoginSuccess)
    && LockingFailures(settings, s.attempts) == Total(s.securityEvents, IsAccountLocked)
  }

  lemma AuthEventCounts(events: seq<AuthEvent>, event: AuthEvent)
    ensures Total(events + [event], IsLoginSuccess) == Total(events, IsLoginSuccess) + IsLoginSuccess(event)
    ensures Total(events + [event], IsLoginFailure) == Total(events, IsLoginFailure) + IsLoginFailure(event)
  {
    TotalAppend(events, event, IsLoginSuccess);
    TotalAppend(events, event, IsLoginFailure);
  }

  /** The attempt about to be appended brings its user to the threshold, or finds the user there. */
  predicate IsLockingFailure(settings: Settings, attempts: seq<LoginAttempt>, attempt: LoginAttempt) {
    && attempt.userId.Some?
    && IsEvaluatedFailure(attempt, attempt.userId.value)
    && ShouldLockAccount(settings, |FailureTimes(attempts, attempt.userId.value)| + 1)
  }

  lemma AttemptCounts(settings: Settings, attempts: seq<LoginAttempt>, attempt: LoginAttempt)
    ensures Total(attempts + [attempt], IsSuccessfulAttempt) ==
      Total(attempts, IsSuccessfulAttempt) + IsSuccessfulAttempt(attempt)
    ensures LockingFailures(settings, attempts + [attempt]) ==
      LockingFailures(settings, attempts) + (if IsLockingFailure(settings, attempts, attempt) then 1 else 0)
  {
    TotalAppend(attempts, attempt, IsSuccessfulAttempt);
    assert (attempts + [attempt])[..|attempts|] == attempts;
    if attempt.userId.Some? {
      FailureTimesAppend(attempts, attempt, attempt.userId.value);
    }
  }

  lemma AuditWithAuthEvent(settings: Settings, s: Store, s': Store, attempt: LoginAttempt, event: AuthEvent)
    requires AuditInvariant(settings, s)
    requires s'.attempts == s.attempts + [attempt] && s'.authEvents == s.authEvents + [event]
    requires s'.securityEvents == s.securityEvents
    requires event.eventType == (if attempt.successful then LOGIN_SUCCESS else LOGIN_FAILURE)
    requires !IsLockingFailure(settings, s.attempts, attempt)
    ensures AuditInvariant(settings, s')
  {
    AttemptCounts(settings, s.attempts, attempt);
    AuthEventCounts(s.authEvents, event);
  }

  lemma AuditWithSecurityEvent(settings: Settings, s: Store, s': Store, attempt: LoginAttempt, event: SecurityEvent)
    requires AuditInvariant(settings, s)
    requires s'.attempts == s.attempts + [attempt] && s'.securityEvents == s.securityEvents + [event]
    requires s'.authEvents == s.authEvents
    requires event.eventType == ACCOUNT_LOCKED_EVENT && !attempt.successful
    requires IsLockingFailure(settings, s.attempts, attempt)
    ensures AuditInvariant(settings, s')
  {
    AttemptCounts(settings, s.attempts, attempt);
    TotalAppend(s.securityEvents, event, IsAccountLocked);
  }

  lemma WrongPasswordKeepsAudit(
    settings: Settings, s: Store, userId: Uuid, identifier: string, context: Context, now: Time)
    requires LockoutInvariant(settings, s) && AuditInvariant(settings, s) && userId in s.credentials
    ensures AuditInvariant(settings, HandleFailedPassword(settings, s, userId, identifier, context, now))
  {
    var s' := HandleFailedPassword(settings, s, userId, identifier, context, now);
    var attempt := FailedAttempt(Some(userId), identifier, context, INVALID_CREDENTIALS, now);
    assert LockAgrees(settings, s.credentials[userId], FailureTimes(s.attempts, userId));
    if ShouldLockAccount(settings, s.credentials[userId].failedLoginCount + 1) {
      AuditWithSecurityEvent(settings, s, s', attempt, SecurityEvent(Some(userId), context, ACCOUNT_LOCKED_EVENT));
    } else {
      AuditWithAuthEvent(settings, s, s', attempt,
        AuthEvent(Some(userId), context, LOGIN_FAILURE, Some(INVALID_CREDENTIALS)));
    }
  }

  /** authenticate appends exactly one attempt and exactly one event, and keeps the ledger balanced. */
  lemma AuthenticateKeepsAudit(
    settings: Settings, s: Store, userId: Uuid, password: string, identifier: string, context: Context, now: Time)
    requires LockoutInvariant(settings, s) && AuditInvariant(settings, s)
    ensures var s' := Authenticate(settings, s, userId, password, identifier, context, now).0;
      && AuditInvariant(settings, s')
      && |s'.attempts| == |s.attempts| + 1
      && |s'.authEvents| + |s'.securityEvents| == |s.authEvents| + |s.securityEvents| + 1
  {
    var s' := Authenticate(settings, s, userId, password, identifier, context, now).0;
    if userId in s.credentials && CanAuthenticate(s.credentials[userId], now)
       && !VerifyPassword(password, s.credentials[userId].passwordHash) {
      WrongPasswordKeepsAudit(settings, s, userId, identifier, context, now);
    } else {
      AuditWithAuthEvent(settings, s, s', s'.attempts[|s.attempts|], s'.authEvents[|s.authEvents|]);
    }
  }

  // ---------------------------------------------------------------------------------------------
  // The result
  // ---------------------------------------------------------------------------------------------

  /** authenticate succeeds exactly when the credential exists, may authenticate and the password is its own,
      and a refusal never reveals or changes the password. */
  lemma AuthenticationOutcome(
    settings: Settings, s: Store, userId: Uuid, password: string, identifier: string, context: Context, now: Time)
    ensures var (s', r) := Authenticate(settings, s, userId, password, identifier, context, now);
      && (r.authenticated <==>
            && userId in s.credentials
            && CanAuthenticate(s.credentials[userId], now)
            && VerifyPassword(password, s.credentials[userId].passwordHash))
      && s'.credentials.Keys == s.credentials.Keys
      && (forall u | u in s.credentials ::
            && s'.credentials[u].passwordHash == s.credentials[u].passwordHash
            && s'.credentials[u].isActive == s.credentials[u].isActive
            && (u != userId ==> s'.credentials[u] == s.credentials[u]))
      && s'.tokens == s.tokens && s'.resets == s.resets && s'.drawn == s.drawn
  {
  }

  /** Why authenticate refuses: an unknown user is not named and gets the reason of a wrong password; an inactive
      credential says so whatever its lock; ACCOUNT_LOCKED is the answer while the lock holds and to the very failure
      that sets it. */
  lemma RefusalReasons(
    settings: Settings, s: Store, userId: Uuid, password: string, identifier: string, context: Context, now: Time)
    requires LockoutInvariant(settings, s)
    ensures
      var r := Authenticate(settings, s, userId, password, identifier, context, now).1;
      && (r.authenticated <==> r.failureReason.None?)
      && (r.userId == if userId in s.credentials then Some(userId) else None)
      && (userId !in s.credentials ==> r.failureReason == Some(INVALID_CREDENTIALS))
      && (userId in s.credentials ==>
            var credential, failures := s.credentials[userId], |FailureTimes(s.attempts, userId)|;
            && (r.failureReason == Some(CREDENTIAL_INACTIVE) <==> !credential.isActive)
            && (r.failureReason == Some(ACCOUNT_LOCKED) <==>
                  credential.isActive &&
                  (IsCredentialLocked(credential, now)
                   || (!VerifyPassword(password, credential.passwordHash)
                     && failures + 1 >= settings.maxFailedLogins))))
  {
    if userId in s.credentials {
      assert LockAgrees(settings, s.credentials[userId], FailureTimes(s.attempts, userId));
    }
  }
}
