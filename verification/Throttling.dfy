/** The lockout over whole runs: how fast the logged evaluations of a user's password can come, and which evaluations
    are logged at all. An evaluation is a check of a presented password by authenticate, directly or through a login;
    the check of the current password in a password change is not counted by the service and not counted here. */
module Throttling {
  import opened Basics
  import opened Claims
  import opened Tables
  import opened Lockout
  import opened Accounts
  import opened Runs
  import opened AccountRuns

  // ---------------------------------------------------------------------------------------------
  // Logged evaluations
  // ---------------------------------------------------------------------------------------------

  ghost predicate AttemptsDated(attempts: seq<LoginAttempt>, clock: Time) {
    forall i | 0 <= i < |attempts| :: attempts[i].attemptedAt <= clock
  }

  /** No request comes after this instant. */
  predicate NoneAfter(requests: seq<Request>, clock: Time) {
    forall i | 0 <= i < |requests| :: requests[i].now <= clock
  }

  /** A request appends at most one attempt, dated at the request. */
  lemma ServeDatesAttempts(settings: Settings, s: Store, request: Request, clock: Time)
    requires AttemptsDated(s.attempts, clock) && request.now <= clock
    ensures AttemptsDated(Serve(settings, s, request).store.attempts, clock)
  {
    hide LoginRequest;
    match request.call
    case AuthenticateCall(_, _, _, _) =>
    case LoginCall(resolved, status, password, identifier, session) =>
      LoginAuthenticates(settings, s, resolved, status, password, identifier, session, request.now);
    case _ =>
      OtherCallsKeepLockState(settings, s, request.call, request.now, request.jwtClock);
  }

  lemma {:induction false} RunDatesAttempts(settings: Settings, requests: seq<Request>, clock: Time)
    requires NoneAfter(requests, clock)
    ensures AttemptsDated(Run(settings, requests).store.attempts, clock)
    decreases |requests|
  {
    if requests != [] {
      var earlier, last := requests[..|requests| - 1], requests[|requests| - 1];
      RunDatesAttempts(settings, earlier, clock);
      ServeDatesAttempts(settings, Run(settings, earlier).store, last, clock);
    }
  }

  lemma {:induction false} FailuresAreDated(attempts: seq<LoginAttempt>, userId: Uuid, clock: Time)
    requires AttemptsDated(attempts, clock)
    ensures forall n | 0 <= n < |FailureTimes(attempts, userId)| :: FailureTimes(attempts, userId)[n] <= clock
  {
    if attempts != [] {
      FailuresAreDated(attempts[..|attempts| - 1], userId, clock);
    }
  }

  /** How many evaluations of the user's password the whole log says were wrong. */
  function EvaluatedFailures(attempts: seq<LoginAttempt>, userId: Uuid): nat {
    if attempts == [] then 0
    else
      EvaluatedFailures(attempts[..|attempts| - 1], userId)
      + (if IsEvaluatedFailure(attempts[|attempts| - 1], userId) then 1 else 0)
  }

  lemma EvaluatedFailuresAppend(attempts: seq<LoginAttempt>, attempt: LoginAttempt, userId: Uuid)
    ensures EvaluatedFailures(attempts + [attempt], userId) ==
      EvaluatedFailures(attempts, userId) + (if IsEvaluatedFailure(attempt, userId) then 1 else 0)
  {
    assert (attempts + [attempt])[..|attempts|] == attempts;
  }

  /** The log holds no success of the user. */
  predicate NeverLoggedIn(attempts: seq<LoginAttempt>, userId: Uuid) {
    forall i | 0 <= i < |attempts| && attempts[i].userId == Some(userId) :: !attempts[i].successful
  }

  lemma {:induction false} WithoutSuccessAllFailuresCount(attempts: seq<LoginAttempt>, userId: Uuid)
    requires NeverLoggedIn(attempts, userId)
    ensures |FailureTimes(attempts, userId)| == EvaluatedFailures(attempts, userId)
  {
    if attempts != [] {
      WithoutSuccessAllFailuresCount(attempts[..|attempts| - 1], userId);
    }
  }

  /** Throttling over runs: since the user's last success the n-th logged evaluation that failed comes at least n - max
      lockouts after the one that reached the threshold, even if the clock goes back in between. */
  lemma {:induction false} FailureSpacingOfRun(
    settings: Settings, requests: seq<Request>, userId: Uuid, failures: seq<Time>, n: int)
    requires 1 <= settings.maxFailedLogins <= n <= |failures|
    requires failures == FailureTimes(Run(settings, requests).store.attempts, userId)
    ensures failures[n - 1] >= failures[settings.maxFailedLogins - 1]
      + (n - settings.maxFailedLogins) * settings.lockout
  {
    hide Run;
    CredentialCachesLog(settings, requests);
    ThrottlingBound(settings, failures, n);
  }

  /** Hence, however many calls were made by the end of the run, at most max + floor((clock - first lock) / lockout)
      wrong passwords have been evaluated and logged since the user's last success. */
  lemma {:induction false} ThrottlingOfRun(
    settings: Settings, requests: seq<Request>, clock: Time, userId: Uuid, failures: seq<Time>)
    requires NoneAfter(requests, clock) && 1 <= settings.maxFailedLogins <= |failures| && settings.lockout > 0
    requires failures == FailureTimes(Run(settings, requests).store.attempts, userId)
    ensures |failures| <= settings.maxFailedLogins + (clock - failures[settings.maxFailedLogins - 1]) / settings.lockout
  {
    hide Run;
    FailureSpacingOfRun(settings, requests, userId, failures, |failures|);
    RunDatesAttempts(settings, requests, clock);
    FailuresAreDated(Run(settings, requests).store.attempts, userId, clock);
    QuotientBound(|failures| - settings.maxFailedLogins, settings.lockout,
      clock - failures[settings.maxFailedLogins - 1]);
  }

  // ---------------------------------------------------------------------------------------------
  // All evaluations, logged or rolled back
  // ---------------------------------------------------------------------------------------------

  /** Serving the request evaluates a password of the user and finds it wrong. */
  predicate EvaluatesWrong(s: Store, request: Request, userId: Uuid) {
    && TriesPassword(request.call, userId)
    && userId in s.credentials
    && CanAuthenticate(s.credentials[userId], request.now)
    && !VerifyPassword(request.call.password, s.credentials[userId].passwordHash)
  }

  /** What a caller knows before the call: the writes of a refusal will be kept. A refused login raises, so its
      transaction rolls back; authenticate returns its refusal. */
  predicate KeepsRefusals(request: Request) {
    request.ending.Keep? || (request.call.AuthenticateCall? && !request.ending.laterFailure)
  }

  /** How many requests evaluated a wrong password of the user, whatever became of their writes. */
  function Evaluations(settings: Settings, requests: seq<Request>, userId: Uuid): nat {
    if requests == [] then 0
    else
      var earlier, last := requests[..|requests| - 1], requests[|requests| - 1];
      Evaluations(settings, earlier, userId)
        + (if EvaluatesWrong(Run(settings, earlier).store, last, userId) then 1 else 0)
  }

  /** Those of them whose request was rolled back. */
  function RolledBackEvaluations(settings: Settings, requests: seq<Request>, userId: Uuid): nat {
    if requests == [] then 0
    else
      var earlier, last := requests[..|requests| - 1], requests[|requests| - 1];
      var before := Run(settings, earlier).store;
      RolledBackEvaluations(settings, earlier, userId)
      + (if EvaluatesWrong(before, last, userId) && !Serve(settings, before, last).kept then 1 else 0)
  }

  lemma AuthenticateLogsEvaluation(
    settings: Settings, s: Store, user: Uuid, password: string, identifier: string, context: Context, now: Time,
    userId: Uuid)
    ensures
      var (s', r) := Authenticate(settings, s, user, password, identifier, context, now);
      var evaluated := user == userId && user in s.credentials && CanAuthenticate(s.credentials[user], now)
                       && !VerifyPassword(password, s.credentials[user].passwordHash);
      && EvaluatedFailures(s'.attempts, userId) == EvaluatedFailures(s.attempts, userId) + (if evaluated then 1 else 0)
      && (evaluated ==> !r.authenticated)
  {
    hide EvaluatedFailures;
    var s' := Authenticate(settings, s, user, password, identifier, context, now).0;
    EvaluatedFailuresAppend(s.attempts, s'.attempts[|s.attempts|], userId);
  }

  lemma HandleLogsEvaluation(settings: Settings, s: Store, request: Request, userId: Uuid)
    ensures
      var (s', reply) := Handle(settings, s, request.call, request.now, request.jwtClock);
      && EvaluatedFailures(s'.attempts, userId) ==
           EvaluatedFailures(s.attempts, userId) + (if EvaluatesWrong(s, request, userId) then 1 else 0)
      && (EvaluatesWrong(s, request, userId) ==> s'.drawn == s.drawn && (reply.Raised? <==> request.call.LoginCall?))
  {
    hide Authenticate, EvaluatedFailures, LoginGate;
    match request.call
    case AuthenticateCall(user, password, identifier, context) =>
      AuthenticateLogsEvaluation(settings, s, user, password, identifier, context, request.now, userId);
      AuthenticationOutcome(settings, s, user, password, identifier, context, request.now);
    case LoginCall(resolved, status, password, identifier, session) =>
      if resolved.Ok? && resolved.value.Some? {
        AuthenticateLogsEvaluation(settings, s, resolved.value.value, password, identifier, PERSONAL_CONTEXT,
          request.now, userId);
        AuthenticationOutcome(settings, s, resolved.value.value, password, identifier, PERSONAL_CONTEXT, request.now);
      }
    case _ =>
      OtherCallsKeepLockState(settings, s, request.call, request.now, request.jwtClock);
  }

  /** One request, in any store: the log gains an evaluated failure of the user if and only if the request evaluates a
      wrong password and keeps its refusals; an evaluation that is not logged leaves no trace at all. */
  lemma EvaluationIsLogged(settings: Settings, s: Store, request: Request, userId: Uuid)
    ensures
      var outcome := Serve(settings, s, request);
      var evaluated := EvaluatesWrong(s, request, userId);
      && EvaluatedFailures(outcome.store.attempts, userId) ==
           EvaluatedFailures(s.attempts, userId) + (if evaluated && KeepsRefusals(request) then 1 else 0)
      && (evaluated ==> (outcome.kept <==> KeepsRefusals(request)))
      && (evaluated && !KeepsRefusals(request) ==> outcome.store == s)
  {
    hide Handle, EvaluatedFailures;
    HandleLogsEvaluation(settings, s, request, userId);
  }

  /** Conservation: every evaluation is either in the log or was rolled back. */
  lemma {:induction false} EvaluationsOfRun(settings: Settings, requests: seq<Request>, userId: Uuid)
    ensures Evaluations(settings, requests, userId) ==
      EvaluatedFailures(Run(settings, requests).store.attempts, userId)
        + RolledBackEvaluations(settings, requests, userId)
    decreases |requests|
  {
    if requests != [] {
      var earlier, last := requests[..|requests| - 1], requests[|requests| - 1];
      EvaluationsOfRun(settings, earlier, userId);
      EvaluationIsLogged(settings, Run(settings, earlier).store, last, userId);
    }
  }

  /** The log holds every evaluation of a run if and only if each request that evaluated keeps its refusals. */
  lemma {:induction false} AllEvaluationsLogged(settings: Settings, requests: seq<Request>, userId: Uuid)
    ensures RolledBackEvaluations(settings, requests, userId) == 0 <==>
      forall i | 0 <= i < |requests| ::
        EvaluatesWrong(Run(settings, requests[..i]).store, requests[i], userId) ==> KeepsRefusals(requests[i])
    decreases |requests|
  {
    hide Run, Serve, EvaluatesWrong, KeepsRefusals, EvaluatedFailures;
    if requests != [] {
      var earlier, last := requests[..|requests| - 1], requests[|requests| - 1];
      AllEvaluationsLogged(settings, earlier, userId);
      EvaluationIsLogged(settings, Run(settings, earlier).store, last, userId);
      assert forall i | 0 <= i < |earlier| :: earlier[..i] == requests[..i] && earlier[i] == requests[i];
    }
  }

  /** The bound that the log sets: below the threshold, fewer than max; from it on, one more for each lockout since the
      failure that reached it. */
  function EvaluationBound(settings: Settings, failures: seq<Time>, clock: Time): int
    requires settings.maxFailedLogins >= 1 && settings.lockout > 0
  {
    var max := settings.maxFailedLogins;
    if |failures| < max then max - 1 else max + (clock - failures[max - 1]) / settings.lockout
  }

  /** The bound on evaluations, for a credential that never logged in: once the threshold is reached, the wrong
      passwords evaluated by the end of the run exceed max + floor((clock - first lock) / lockout) by no more than the
      rolled-back ones. */
  lemma {:induction false} ThrottlingOfFreshCredential(
    settings: Settings, requests: seq<Request>, clock: Time, userId: Uuid, attempts: seq<LoginAttempt>)
    requires NoneAfter(requests, clock) && settings.maxFailedLogins >= 1 && settings.lockout > 0
    requires attempts == Run(settings, requests).store.attempts && NeverLoggedIn(attempts, userId)
    ensures
      Evaluations(settings, requests, userId) - RolledBackEvaluations(settings, requests, userId) <=
        EvaluationBound(settings, FailureTimes(attempts, userId), clock)
  {
    hide Run;
    EvaluationsOfRun(settings, requests, userId);
    WithoutSuccessAllFailuresCount(attempts, userId);
    var failures := FailureTimes(attempts, userId);
    if |failures| >= settings.maxFailedLogins {
      ThrottlingOfRun(settings, requests, clock, userId, failures);
    }
  }

  /** Hence, when every request that tries the user's password keeps its refusals, no evaluation escapes the bound. */
  lemma {:induction false} ThrottlingOfKeptRefusals(
    settings: Settings, requests: seq<Request>, clock: Time, userId: Uuid, attempts: seq<LoginAttempt>)
    requires NoneAfter(requests, clock) && settings.maxFailedLogins >= 1 && settings.lockout > 0
    requires attempts == Run(settings, requests).store.attempts && NeverLoggedIn(attempts, userId)
    requires forall i | 0 <= i < |requests| :: TriesPassword(requests[i].call, userId) ==> KeepsRefusals(requests[i])
    ensures
      Evaluations(settings, requests, userId) <= EvaluationBound(settings, FailureTimes(attempts, userId), clock)
  {
    hide Run;
    AllEvaluationsLogged(settings, requests, userId);
    ThrottlingOfFreshCredential(settings, requests, clock, userId, attempts);
  }

  // ---------------------------------------------------------------------------------------------
  // Refused logins are not throttled
  // ---------------------------------------------------------------------------------------------

  /** After any run, any number of wrong passwords presented to the login request are all evaluated and leave every
      table as it was: nothing counts them, so the credential never locks. */
  lemma {:induction false} RefusedLoginsLeaveNoTrace(
    settings: Settings, requests: seq<Request>, logins: seq<Request>, userId: Uuid)
    requires forall i | 0 <= i < |logins| ::
      && logins[i].call.LoginCall? && logins[i].ending.Transaction?
      && EvaluatesWrong(Run(settings, requests).store, logins[i], userId)
    ensures Run(settings, requests + logins).store == Run(settings, requests).store
    ensures Evaluations(settings, requests + logins, userId) == Evaluations(settings, requests, userId) + |logins|
    decreases |logins|
  {
    if logins == [] {
      assert requests + logins == requests;
    } else {
      var earlier, last := logins[..|logins| - 1], logins[|logins| - 1];
      RefusedLoginsLeaveNoTrace(settings, requests, earlier, userId);
      assert (requests + logins)[..|requests + logins| - 1] == requests + earlier;
      EvaluationIsLogged(settings, Run(settings, requests).store, last, userId);
    }
  }

  lemma FirstRequest(settings: Settings, request: Request, userId: Uuid)
    ensures Run(settings, [request]).store == Serve(settings, EMPTY_STORE, request).store
    ensures Evaluations(settings, [request], userId) == 0
  {
    hide Serve, Record;
    assert [request][..0] == [];
  }

  /** So the bound on all evaluations is false of the login request: for every n, at one instant, n wrong passwords of a
      registered user are evaluated, and the log stays empty and the credential unlocked; from n = max on, that is more
      than the bound allows. */
  lemma {:induction false} LoginsAreNotThrottled(settings: Settings, n: nat) returns (requests: seq<Request>)
    ensures |requests| == n + 1 && NoneAfter(requests, 0) && forall i | 0 <= i <= n :: requests[i].now == 0
    ensures Evaluations(settings, requests, 0) == n
    ensures
      var s := Run(settings, requests).store;
      s.attempts == [] && 0 in s.credentials && !s.credentials[0].isLocked && s.credentials[0].failedLoginCount == 0
    ensures settings.lockout > 0 && 1 <= settings.maxFailedLogins <= n ==>
      var attempts := Run(settings, requests).store.attempts;
      && NeverLoggedIn(attempts, 0)
      && Evaluations(settings, requests, 0) > EvaluationBound(settings, FailureTimes(attempts, 0), 0)
  {
    hide Run, Evaluations, EvaluatedFailures;
    var registration := Request(RegisterCall(Ok(0), "correct horse"), 0, 0, Transaction(false));
    var attempt := LoginCall(Ok(Some(0)), Ok("active"), "wrong guess", "ada@example.com", Ok(()));
    var login := Request(attempt, 0, 0, Transaction(false));
    FirstRequest(settings, registration, 0);
    var logins := seq(n, i => login);
    requests := [registration] + logins;
    RefusedLoginsLeaveNoTrace(settings, [registration], logins, 0);
  }
}
