/** Registration (app/services/registration_service.py), the login gate (app/services/login_service.py), the login
    endpoint (app/api/v1/auth.py) and status synchronisation (app/services/credential_sync_service.py). */
module Accounts {
  import opened Basics
  import opened Claims
  import opened Tables
  import opened TokenProtocol
  import opened Lockout

  // ---------------------------------------------------------------------------------------------
  // Registration
  // ---------------------------------------------------------------------------------------------

  function NewCredential(password: string, now: Time): Credential {
    Credential(HashPassword(password), true, false, 0, None, now, None)
  }

  datatype Registration = Registration(userId: Uuid, tokens: TokenPair)

  /** `created` is the User Service's answer: a new user, a replayed one, or a failure. */
  function Register(
    settings: Settings, s: Store, created: Result<Uuid>, password: string, now: Time): (Store, Result<Registration>)
  {
    match created
    case Err(e) => (s, Err(e))
    case Ok(userId) =>
      var ensured := if userId in s.credentials then s
        else s.(credentials := s.credentials[userId := NewCredential(password, now)]);
      var logged := WithAuthEvent(ensured, AuthEvent(Some(userId), PERSONAL_CONTEXT, REGISTRATION_COMPLETED, None));
      var (s', pair) := IssueTokens(settings, logged, userId, PERSONAL_CONTEXT, now);
      (s', Ok(Registration(userId, pair)))
  }

  // ---------------------------------------------------------------------------------------------
  // Status
  // ---------------------------------------------------------------------------------------------

  const ALLOWED_LOGIN_STATUSES: set<string> := {"active", "verification_pending", "pending"}

  const STATUS_TO_ACTIVE: map<string, bool> := map[
    "pending" := true,
    "verification_pending" := true,
    "active" := true,
    "suspended" := false,
    "restricted" := false,
    "deactivated" := false,
    "deleted" := false]

  /** The error that the login gate raises for a status, if any. */
  function LoginGate(status: string): Option<Error> {
    if status in ALLOWED_LOGIN_STATUSES then None
    else if status == "deleted" then Some(UserDeletedError)
    else if status in {"suspended", "restricted", "deactivated"} then Some(AccountLockedError)
    else Some(InvalidCredentialsError)
  }

  function DesiredActive(status: string): bool {
    if status in STATUS_TO_ACTIVE then STATUS_TO_ACTIVE[status] else false
  }

  function SyncStatus(s: Store, userId: Uuid, status: string): Store {
    if userId !in s.credentials then s
    else
      var credential := s.credentials[userId];
      var desired := DesiredActive(status);
      if credential.isActive == desired then s
      else s.(credentials := s.credentials[userId := credential.(isActive := desired)])
  }

  /** The statuses under which a user may log in. */
  predicate MayLogIn(status: string) {
    status == "active" || status == "verification_pending" || status == "pending"
  }

  /** For every status string: the synchronised flag and the login gate agree, both with those three spellings, and the
      gate's refusal says whether the user is deleted, blocked or of no known status. */
  lemma GateAgreesWithSync(status: string)
    ensures DesiredActive(status) <==> MayLogIn(status)
    ensures LoginGate(status).None? <==> MayLogIn(status)
    ensures LoginGate(status) == Some(UserDeletedError) <==> status == "deleted"
    ensures LoginGate(status) == Some(AccountLockedError) <==>
      status == "suspended" || status == "restricted" || status == "deactivated"
    ensures LoginGate(status).Some? ==>
      LoginGate(status).value in {UserDeletedError, AccountLockedError, InvalidCredentialsError}
  {
    StatusSpellings();
  }

  lemma StatusSpellings()
    ensures |"pending"| == |"deleted"| && "pending"[0] != "deleted"[0]
    ensures |"suspended"| == 9 && |"restricted"| == 10 && |"deactivated"| == 11
    ensures |"active"| == 6 && |"verification_pending"| == 20 && |"pending"| == 7
  {
  }

  /** Synchronising is last-writer-wins on the flag of one credential, and touches no other column. */
  lemma SyncWritesOnlyTheFlag(s: Store, userId: Uuid, status: string)
    ensures var s' := SyncStatus(s, userId, status);
      && s' == s.(credentials := s'.credentials)
      && s'.credentials.Keys == s.credentials.Keys
      && (forall u | u in s.credentials && u != userId :: s'.credentials[u] == s.credentials[u])
      && (userId in s.credentials ==>
            s'.credentials[userId] == s.credentials[userId].(isActive := MayLogIn(status)))
  {
    GateAgreesWithSync(status);
  }

  // ---------------------------------------------------------------------------------------------
  // Login
  // ---------------------------------------------------------------------------------------------

  /** LoginService.login: resolve, gate on the status, authenticate, raise on a refusal. `resolved` and `status` are
      the User Service's answers. */
  function LoginUser(
    settings: Settings, s: Store, resolved: Result<Option<Uuid>>, status: Result<string>,
    password: string, identifier: string, context: Context, now: Time)
    : (Store, Result<AuthenticationResult>)
  {
    match resolved
    case Err(e) => (s, Err(e))
    case Ok(None) => (s, Err(InvalidCredentialsError))
    case Ok(Some(userId)) =>
      match status
      case Err(e) => (s, Err(e))
      case Ok(text) =>
        var refusal := LoginGate(text);
        if refusal.Some? then (s, Err(refusal.value))
        else
          var (s', r) := Authenticate(settings, s, userId, password, identifier, context, now);
          if r.authenticated then (s', Ok(r)) else (s', Err(InvalidCredentialsError))
  }

  /** The login endpoint: tokens are issued before the Session Service is asked for a session. */
  function LoginRequest(
    settings: Settings, s: Store, resolved: Result<Option<Uuid>>, status: Result<string>,
    password: string, identifier: string, session: Result<()>, now: Time)
    : (Store, Result<TokenPair>)
  {
    var (s', r) := LoginUser(settings, s, resolved, status, password, identifier, PERSONAL_CONTEXT, now);
    if r.Err? then (s', Err(r.error))
    else
      var (s'', pair) := IssueTokens(settings, s', resolved.value.value, PERSONAL_CONTEXT, now);
      if session.Err? then (s'', Err(session.error)) else (s'', Ok(pair))
  }
}
