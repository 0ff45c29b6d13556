/** Credentials, the attempt log and reset rows over whole runs: the lockout cache, audit, single-use resets, password
    history and status synchronisation. */
module AccountRuns {
  import opened Basics
  import opened Claims
  import opened Tables
  import opened TokenTable
  import opened TokenProtocol
  import opened Lockout
  import opened Passwords
  import opened Accounts
  import opened Runs

  // ---------------------------------------------------------------------------------------------
  // Lockout over runs
  // ---------------------------------------------------------------------------------------------

  predicate LockColumnsEqual(a: Credential, b: Credential) {
    a.failedLoginCount == b.failedLoginCount && a.isLocked == b.isLocked && a.lockedUntil == b.lockedUntil
  }

  /** The attempt log and every lock column stay as they are; a new credential starts unlocked with no failures. */
  ghost predicate SameLockState(s: Store, s': Store) {
    && s'.attempts == s.attempts
    && (forall u | u in s.credentials :: u in s'.credentials && LockColumnsEqual(s'.credentials[u], s.credentials[u]))
    && (forall u | u in s'.credentials && u !in s.credentials ::
          s'.credentials[u].failedLoginCount == 0 && !s'.credentials[u].isLocked && s'.credentials[u].lockedUntil.None?)
  }

  lemma SameLockStateKeepsLockout(settings: Settings, s: Store, s': Store)
    requires LockoutInvariant(settings, s) && SameLockState(s, s') && settings.maxFailedLogins >= 1
    ensures LockoutInvariant(settings, s')
  {
    forall u | u in s'.credentials
      ensures LockAgrees(settings, s'.credentials[u], FailureTimes(s'.attempts, u))
    {
      if u in s.credentials {
        assert LockAgrees(settings, s.credentials[u], FailureTimes(s.attempts, u));
      }
    }
  }

  /** No call but authenticate and login touches the attempt log or a lock column. */
  lemma OtherCallsKeepLockState(settings: Settings, s: Store, call: Call, now: Time, jwtClock: Time)
    requires !call.AuthenticateCall? && !call.LoginCall?
    ensures SameLockState(s, Handle(settings, s, call, now, jwtClock).0)
  {
    hide RefreshTokens, RevokeToken;
    match call
    case RefreshCall(token) => RefreshWrites(settings, s, token, now, jwtClock);
    case RevokeCall(token) => RevokeWrites(settings, s, token, now, jwtClock);
    case _ =>
  }

  /** A login changes credentials and the attempt log as authenticate does, or not at all. */
  lemma LoginAuthenticates(
    settings: Settings, s: Store, resolved: Result<Option<Uuid>>, status: Result<string>,
    password: string, identifier: string, session: Result<()>, now: Time)
    ensures
      var s' := LoginRequest(settings, s, resolved, status, password, identifier, session, now).0;
      || s' == s
      || (resolved.Ok? && resolved.value.Some?
          && s' == Authenticate(settings, s, resolved.value.value, password, identifier, PERSONAL_CONTEXT, now).0
                     .(tokens := s'.tokens, drawn := s'.drawn))
  {
    if resolved.Ok? && resolved.value.Some? {
      AuthenticationOutcome(settings, s, resolved.value.value, password, identifier, PERSONAL_CONTEXT, now);
    }
  }

  lemma HandleKeepsLockout(settings: Settings, s: Store, call: Call, now: Time, jwtClock: Time)
    requires LockoutInvariant(settings, s) && settings.maxFailedLogins >= 1
    ensures LockoutInvariant(settings, Handle(settings, s, call, now, jwtClock).0)
  {
    hide LoginRequest, Authenticate, FailureTimes, Throttled, LockAgrees;
    match call
    case AuthenticateCall(userId, password, identifier, context) =>
      AuthenticateKeepsLockout(settings, s, userId, password, identifier, context, now);
    case LoginCall(resolved, status, password, identifier, session) =>
      LoginAuthenticates(settings, s, resolved, status, password, identifier, session, now);
      if resolved.Ok? && resolved.value.Some? {
        AuthenticateKeepsLockout(settings, s, resolved.value.value, password, identifier, PERSONAL_CONTEXT, now);
      }
    case _ =>
      OtherCallsKeepLockState(settings, s, call, now, jwtClock);
      SameLockStateKeepsLockout(settings, s, Handle(settings, s, call, now, jwtClock).0);
  }

  lemma ServeKeepsLockout(settings: Settings, s: Store, request: Request)
    requires LockoutInvariant(settings, s) && settings.maxFailedLogins >= 1
    ensures LockoutInvariant(settings, Serve(settings, s, request).store)
  {
    hide Handle;
    HandleKeepsLockout(settings, s, request.call, request.now, request.jwtClock);
  }

  /** The credential is a cache of history: in every reachable store its counter is the number of evaluated failures
      since the user's last success, it is locked exactly from the threshold on, and its lock runs one lockout past the
      last evaluated failure. */
  lemma {:induction false} CredentialCachesLog(settings: Settings, requests: seq<Request>)
    requires settings.maxFailedLogins >= 1
    ensures LockoutInvariant(settings, Run(settings, requests).store)
    decreases |requests|
  {
    if requests != [] {
      var earlier, last := requests[..|requests| - 1], requests[|requests| - 1];
      CredentialCachesLog(settings, earlier);
      ServeKeepsLockout(settings, Run(settings, earlier).store, last);
    }
  }

  // ---------------------------------------------------------------------------------------------
  // Audit and reset ledgers over runs
  // ---------------------------------------------------------------------------------------------

  /** At most one security event per call, of the kind that goes with what the call did. */
  ghost predicate SecurityMatchesCall(s: Store, s': Store, call: Call) {
    if |s'.securityEvents| == |s.securityEvents| then s'.securityEvents == s.securityEvents
    else
      && |s'.securityEvents| == |s.securityEvents| + 1
      && s'.securityEvents == s.securityEvents + [s'.securityEvents[|s.securityEvents|]]
      && var event := s'.securityEvents[|s.securityEvents|];
        && (event.eventType.ACCOUNT_LOCKED_EVENT? ==> call.AuthenticateCall? || call.LoginCall?)
        && (event.eventType.PASSWORD_RESET_REQUESTED? ==> call.RequestResetCall?)
        && (event.eventType.PASSWORD_RESET_COMPLETED? ==> call.ConfirmResetCall?)
  }

  lemma AuthenticateMatchesSecurity(
    settings: Settings, s: Store, call: Call, userId: Uuid, password: string, identifier: string, context: Context,
    now: Time)
    requires call.AuthenticateCall? || call.LoginCall?
    ensures SecurityMatchesCall(s, Authenticate(settings, s, userId, password, identifier, context, now).0, call)
  {
  }

  lemma HandleMatchesSecurity(settings: Settings, s: Store, call: Call, now: Time, jwtClock: Time)
    ensures SecurityMatchesCall(s, Handle(settings, s, call, now, jwtClock).0, call)
  {
    hide RefreshTokens, RevokeToken, LoginRequest, Authenticate;
    match call
    case RefreshCall(token) => RefreshWrites(settings, s, token, now, jwtClock);
    case RevokeCall(token) => RevokeWrites(settings, s, token, now, jwtClock);
    case AuthenticateCall(userId, password, identifier, context) =>
      AuthenticateMatchesSecurity(settings, s, call, userId, password, identifier, context, now);
    case LoginCall(resolved, status, password, identifier, session) =>
      LoginAuthenticates(settings, s, resolved, status, password, identifier, session, now);
      if resolved.Ok? && resolved.value.Some? {
        AuthenticateMatchesSecurity(settings, s, call, resolved.value.value, password, identifier, PERSONAL_CONTEXT,
          now);
      }
    case _ =>
  }

  lemma OtherCallsLogNoLogin(settings: Settings, s: Store, call: Call, now: Time, jwtClock: Time)
    requires !call.AuthenticateCall? && !call.LoginCall?
    ensures var events := Handle(settings, s, call, now, jwtClock).0.authEvents;
      || AtMostOneMore(s.authEvents, events, TOKEN_REFRESH)
      || AtMostOneMore(s.authEvents, events, TOKEN_REVOKED)
      || AtMostOneMore(s.authEvents, events, REGISTRATION_COMPLETED)
  {
    hide RefreshTokens, RevokeToken;
    match call
    case RefreshCall(token) => RefreshWrites(settings, s, token, now, jwtClock);
    case RevokeCall(token) => RevokeWrites(settings, s, token, now, jwtClock);
    case _ =>
  }

  /** A call other than authenticate and login leaves the login ledger alone. */
  lemma OtherCallsKeepAudit(settings: Settings, s: Store, call: Call, now: Time, jwtClock: Time)
    requires AuditInvariant(settings, s)
    requires !call.AuthenticateCall? && !call.LoginCall?
    ensures AuditInvariant(settings, Handle(settings, s, call, now, jwtClock).0)
  {
    hide Handle, Total;
    OtherCallsKeepLockState(settings, s, call, now, jwtClock);
    OtherCallsLogNoLogin(settings, s, call, now, jwtClock);
    HandleMatchesSecurity(settings, s, call, now, jwtClock);
    var s' := Handle(settings, s, call, now, jwtClock).0;
    if |s'.authEvents| != |s.authEvents| {
      AuthEventCounts(s.authEvents, s'.authEvents[|s.authEvents|]);
    }
    if |s'.securityEvents| != |s.securityEvents| {
      TotalAppend(s.securityEvents, s'.securityEvents[|s.securityEvents|], IsAccountLocked);
    }
  }

  lemma HandleKeepsAudit(settings: Settings, s: Store, call: Call, now: Time, jwtClock: Time)
    requires LockoutInvariant(settings, s) && AuditInvariant(settings, s)
    ensures AuditInvariant(settings, Handle(settings, s, call, now, jwtClock).0)
  {
    hide LoginRequest, Authenticate, LockoutInvariant, Total;
    match call
    case AuthenticateCall(userId, password, identifier, context) =>
      AuthenticateKeepsAudit(settings, s, userId, password, identifier, context, now);
    case LoginCall(resolved, status, password, identifier, session) =>
      LoginAuthenticates(settings, s, resolved, status, password, identifier, session, now);
      if resolved.Ok? && resolved.value.Some? {
        AuthenticateKeepsAudit(settings, s, resolved.value.value, password, identifier, PERSONAL_CONTEXT, now);
      }
    case _ =>
      OtherCallsKeepAudit(settings, s, call, now, jwtClock);
  }

  lemma ServeKeepsAudit(settings: Settings, s: Store, request: Request)
    requires LockoutInvariant(settings, s) && AuditInvariant(settings, s)
    ensures AuditInvariant(settings, Serve(settings, s, request).store)
  {
    hide Handle, LockoutInvariant;
    HandleKeepsAudit(settings, s, request.call, request.now, request.jwtClock);
  }

  /** Audit completeness: after every run, attempts are LOGIN_SUCCESS plus LOGIN_FAILURE plus ACCOUNT_LOCKED events,
      successes are LOGIN_SUCCESS events, and ACCOUNT_LOCKED events are the failures at or past the threshold. */
  lemma {:induction false} AuditOfRun(settings: Settings, requests: seq<Request>)
    requires settings.maxFailedLogins >= 1
    ensures AuditInvariant(settings, Run(settings, requests).store)
    decreases |requests|
  {
    if requests != [] {
      var earlier, last := requests[..|requests| - 1], requests[|requests| - 1];
      AuditOfRun(settings, earlier);
      CredentialCachesLog(settings, earlier);
      ServeKeepsAudit(settings, Run(settings, earlier).store, last);
    }
  }

  /** Only a reset request and a confirmation write reset rows. */
  lemma OtherCallsKeepResets(settings: Settings, s: Store, call: Call, now: Time, jwtClock: Time)
    requires ResetInvariant(s)
    requires !call.RequestResetCall? && !call.ConfirmResetCall?
    ensures var s' := Handle(settings, s, call, now, jwtClock).0;
      ResetInvariant(s') && s'.resets == s.resets
  {
    hide Total, UsedResets;
    var s' := Handle(settings, s, call, now, jwtClock).0;
    HandleMatchesSecurity(settings, s, call, now, jwtClock);
    SameResets(settings, s, call, now, jwtClock);
    if |s'.securityEvents| != |s.securityEvents| {
      SecurityEventCounts(s.securityEvents, s'.securityEvents[|s.securityEvents|]);
    }
  }

  lemma SameResets(settings: Settings, s: Store, call: Call, now: Time, jwtClock: Time)
    requires !call.RequestResetCall? && !call.ConfirmResetCall?
    ensures var s' := Handle(settings, s, call, now, jwtClock).0; s'.resets == s.resets && s'.drawn >= s.drawn
  {
    hide RefreshTokens, RevokeToken;
    match call
    case RefreshCall(token) => RefreshWrites(settings, s, token, now, jwtClock);
    case RevokeCall(token) => RevokeWrites(settings, s, token, now, jwtClock);
    case _ =>
  }

  lemma HandleKeepsResets(settings: Settings, s: Store, call: Call, now: Time, jwtClock: Time)
    requires ResetInvariant(s)
    ensures var s' := Handle(settings, s, call, now, jwtClock).0;
      ResetInvariant(s') && ResetsEvolve(s.resets, s'.resets)
  {
    hide RequestReset, ConfirmReset, ResetInvariant;
    match call
    case RequestResetCall(resolved) => RequestKeepsResets(settings, s, resolved, now);
    case ConfirmResetCall(secret, newPassword) => ConfirmKeepsResets(s, secret, newPassword, now);
    case _ => OtherCallsKeepResets(settings, s, call, now, jwtClock);
  }

  lemma ServeKeepsResets(settings: Settings, s: Store, request: Request)
    requires ResetInvariant(s)
    ensures var s' := Serve(settings, s, request).store;
      ResetInvariant(s') && ResetsEvolve(s.resets, s'.resets)
  {
    hide Handle, Total, UsedResets;
    HandleKeepsResets(settings, s, request.call, request.now, request.jwtClock);
    DrawsOnlyGrow(settings, s, request.call, request.now, request.jwtClock);
  }

  /** Reset rows over runs: the usage instant is set exactly on used rows and precedes the expiry; requested-reset
      events are all rows, completed-reset events the used ones. */
  lemma {:induction false} ResetsOfRun(settings: Settings, requests: seq<Request>)
    ensures ResetInvariant(Run(settings, requests).store)
    decreases |requests|
  {
    if requests == [] {
      assert UsedResets([]) == {};
    } else {
      var earlier, last := requests[..|requests| - 1], requests[|requests| - 1];
      ResetsOfRun(settings, earlier);
      ServeKeepsResets(settings, Run(settings, earlier).store, last);
    }
  }

  lemma {:induction false} RunEvolvesResets(settings: Settings, requests: seq<Request>, k: nat)
    requires k <= |requests|
    ensures ResetsEvolve(Run(settings, requests[..k]).store.resets, Run(settings, requests).store.resets)
    decreases |requests|
  {
    if k == |requests| {
      assert requests[..k] == requests;
    } else {
      var shorter, last := requests[..|requests| - 1], requests[|requests| - 1];
      assert shorter[..k] == requests[..k];
      RunEvolvesResets(settings, shorter, k);
      ResetsOfRun(settings, shorter);
      ServeKeepsResets(settings, Run(settings, shorter).store, last);
    }
  }

  lemma SpendSecret(settings: Settings, s: Store, request: Request) returns (spent: nat)
    requires ResetInvariant(s) && request.call.ConfirmResetCall?
    requires Serve(settings, s, request).kept && Serve(settings, s, request).reply.PasswordSet?
    ensures var resets := Serve(settings, s, request).store.resets;
      spent < |resets| && resets[spent].isUsed && resets[spent].tokenHash == Sha256(request.call.secret)
  {
    spent := FindActiveReset(s.resets, Sha256(request.call.secret), request.now).value;
  }

  /** A reset secret is single-use: after a kept confirmation, every later confirmation with the same secret, whatever
      the new password, raises. */
  lemma {:induction false} SecretConfirmedAtMostOnce(
    settings: Settings, requests: seq<Request>, history: seq<Entry>, a: nat, b: nat)
    requires history == Run(settings, requests).history
    requires a < b < |history| && history[a].kept && history[a].reply.PasswordSet?
    requires history[a].request.call.ConfirmResetCall? && history[b].request.call.ConfirmResetCall?
    requires history[a].request.call.secret == history[b].request.call.secret
    ensures history[b].reply == Raised(PasswordResetError)
  {
    hide Run, ConfirmReset, UsedResets, Total;
    EntryOfRun(settings, requests, a);
    EntryOfRun(settings, requests, b);
    ResetsOfRun(settings, requests[..a]);
    var spent := SpendSecret(settings, Run(settings, requests[..a]).store, requests[a]);
    assert requests[..b][..a + 1] == requests[..a + 1];
    RunEvolvesResets(settings, requests[..b], a + 1);
    ResetsOfRun(settings, requests[..b]);
    UsedSecretIsDead(Run(settings, requests[..b]).store, requests[b].call.secret, requests[b].call.newPassword,
      requests[b].now, spent);
  }

  // ---------------------------------------------------------------------------------------------
  // Password and status history
  // ---------------------------------------------------------------------------------------------

  /** The user's password after one more request, given the one before. */
  function NextPassword(earlier: Option<string>, last: Entry, userId: Uuid): Option<string> {
    if !last.kept then earlier
    else match last.request.call
      case RegisterCall(_, password) =>
        if last.reply.Registered? && last.reply.registration.userId == userId && earlier.None?
        then Some(password)
        else earlier
      case ChangeCall(_, _, newPassword, _) =>
        if last.reply.PasswordSet? && last.reply.update.userId == userId then Some(newPassword) else earlier
      case ConfirmResetCall(_, newPassword) =>
        if last.reply.PasswordSet? && last.reply.update.userId == userId then Some(newPassword) else earlier
      case _ => earlier
  }

  /** The password set by the user's most recent kept credential creation, change or reset. */
  function LastPassword(history: seq<Entry>, userId: Uuid): Option<string> {
    if history == [] then None
    else NextPassword(LastPassword(history[..|history| - 1], userId), history[|history| - 1], userId)
  }

  /** A kept synchronisation of this user. */
  predicate Syncs(entry: Entry, userId: Uuid) {
    entry.kept && entry.request.call.SyncCall? && entry.request.call.userId == userId
  }

  /** Whether the user's most recent kept synchronisation since the credential was created admits logins;
      true when there was none. */
  function LastStatusAdmits(history: seq<Entry>, userId: Uuid): bool {
    if history == [] then true
    else
      var earlier, last := history[..|history| - 1], history[|history| - 1];
      if Syncs(last, userId) && LastPassword(earlier, userId).Some?
      then MayLogIn(last.request.call.newStatus)
      else LastStatusAdmits(earlier, userId)
  }

  lemma HistoryAppend(history: seq<Entry>, entry: Entry, userId: Uuid)
    ensures LastPassword(history + [entry], userId) == NextPassword(LastPassword(history, userId), entry, userId)
    ensures LastStatusAdmits(history + [entry], userId) ==
      if Syncs(entry, userId) && LastPassword(history, userId).Some?
      then MayLogIn(entry.request.call.newStatus)
      else LastStatusAdmits(history, userId)
  {
    assert (history + [entry])[..|history|] == history;
  }

  /** What a history says of one user, and what the credential table holds. */
  ghost predicate HistoryAgreesOn(w: World, u: Uuid) {
    && (u in w.store.credentials <==> LastPassword(w.history, u).Some?)
    && (u in w.store.credentials ==>
          && w.store.credentials[u].passwordHash == HashPassword(LastPassword(w.history, u).value)
          && w.store.credentials[u].isActive == LastStatusAdmits(w.history, u))
    && (u !in w.store.credentials ==> LastStatusAdmits(w.history, u))
  }

  /** The credential table recomputed from the history. */
  ghost predicate HistoryAgrees(w: World) {
    forall u: Uuid :: HistoryAgreesOn(w, u)
  }

  /** The password hash and the active flag of every credential, before and after. */
  ghost predicate SamePasswords(s: Store, s': Store) {
    && s'.credentials.Keys == s.credentials.Keys
    && forall u | u in s.credentials ::
         s'.credentials[u].passwordHash == s.credentials[u].passwordHash
           && s'.credentials[u].isActive == s.credentials[u].isActive
  }

  predicate WritesCredentials(call: Call) {
    call.RegisterCall? || call.ChangeCall? || call.ConfirmResetCall? || call.SyncCall?
  }

  lemma OtherCallsKeepPasswords(settings: Settings, s: Store, call: Call, now: Time, jwtClock: Time)
    requires !WritesCredentials(call)
    ensures SamePasswords(s, Handle(settings, s, call, now, jwtClock).0)
  {
    hide RefreshTokens, RevokeToken, LoginRequest, Authenticate;
    match call
    case RefreshCall(token) => RefreshWrites(settings, s, token, now, jwtClock);
    case RevokeCall(token) => RevokeWrites(settings, s, token, now, jwtClock);
    case AuthenticateCall(userId, password, identifier, context) =>
      AuthenticationOutcome(settings, s, userId, password, identifier, context, now);
    case LoginCall(resolved, status, password, identifier, session) =>
      LoginAuthenticates(settings, s, resolved, status, password, identifier, session, now);
      if resolved.Ok? && resolved.value.Some? {
        AuthenticationOutcome(settings, s, resolved.value.value, password, identifier, PERSONAL_CONTEXT, now);
      }
    case _ =>
  }

  lemma ServeKeepsHistory(settings: Settings, w: World, request: Request)
    requires HistoryAgrees(w)
    ensures HistoryAgrees(World(Serve(settings, w.store, request).store,
      w.history + [Record(settings, w.store, request)]))
  {
    var entry := Record(settings, w.store, request);
    var w' := World(Serve(settings, w.store, request).store, w.history + [entry]);
    assert w'.history[..|w.history|] == w.history;
    if entry.kept && WritesCredentials(request.call) {
      WritingCallKeepsHistory(settings, w, request);
    } else {
      QuietCallKeepsHistory(settings, w, request);
    }
  }

  lemma QuietCallKeepsHistory(settings: Settings, w: World, request: Request)
    requires HistoryAgrees(w)
    requires !Serve(settings, w.store, request).kept || !WritesCredentials(request.call)
    ensures HistoryAgrees(World(Serve(settings, w.store, request).store,
      w.history + [Record(settings, w.store, request)]))
  {
    hide Handle, TokenChange;
    var entry := Record(settings, w.store, request);
    var s' := Serve(settings, w.store, request).store;
    assert (w.history + [entry])[..|w.history|] == w.history;
    if entry.kept {
      OtherCallsKeepPasswords(settings, w.store, request.call, request.now, request.jwtClock);
    }
    assert SamePasswords(w.store, s');
    forall u: Uuid
      ensures HistoryAgreesOn(World(s', w.history + [entry]), u)
    {
      assert HistoryAgreesOn(w, u);
    }
  }

  lemma WritingCallKeepsUser(settings: Settings, w: World, request: Request, u: Uuid)
    requires HistoryAgreesOn(w, u) && Serve(settings, w.store, request).kept && WritesCredentials(request.call)
    ensures
      var w' := World(Serve(settings, w.store, request).store, w.history + [Record(settings, w.store, request)]);
      HistoryAgreesOn(w', u)
  {
    hide TokenChange, RevokeScope, ActiveInScope, SyncStatus, MayLogIn, LastPassword, LastStatusAdmits;
    HistoryAppend(w.history, Record(settings, w.store, request), u);
    if request.call.SyncCall? {
      SyncWritesOnlyTheFlag(w.store, request.call.userId, request.call.newStatus);
    }
  }

  lemma WritingCallKeepsHistory(settings: Settings, w: World, request: Request)
    requires HistoryAgrees(w) && Serve(settings, w.store, request).kept && WritesCredentials(request.call)
    ensures HistoryAgrees(World(Serve(settings, w.store, request).store,
      w.history + [Record(settings, w.store, request)]))
  {
    hide Serve, Record, LastPassword, LastStatusAdmits;
    forall u: Uuid
      ensures
        var w' := World(Serve(settings, w.store, request).store, w.history + [Record(settings, w.store, request)]);
        HistoryAgreesOn(w', u)
    {
      assert HistoryAgreesOn(w, u);
      WritingCallKeepsUser(settings, w, request, u);
    }
  }

  lemma {:induction false} HistoryOfRun(settings: Settings, requests: seq<Request>)
    ensures HistoryAgrees(Run(settings, requests))
    decreases |requests|
  {
    if requests != [] {
      var earlier, last := requests[..|requests| - 1], requests[|requests| - 1];
      HistoryOfRun(settings, earlier);
      ServeKeepsHistory(settings, Run(settings, earlier), last);
    }
  }

  /** Password history refinement: after any run a password verifies against a user's credential exactly when it is the
      one set by the user's last kept creation, change or reset; the credential exists exactly when there was one, and
      it is active exactly when the last status synchronised since its creation, if any, is one the gate admits. */
  lemma {:induction false} PasswordOfRun(
    settings: Settings, requests: seq<Request>, w: World, userId: Uuid, password: string)
    requires w == Run(settings, requests)
    ensures userId in w.store.credentials <==> LastPassword(w.history, userId).Some?
    ensures userId in w.store.credentials ==>
      var credential := w.store.credentials[userId];
      && (VerifyPassword(password, credential.passwordHash) <==> LastPassword(w.history, userId) == Some(password))
      && (credential.isActive <==> LastStatusAdmits(w.history, userId))
  {
    hide Run;
    HistoryOfRun(settings, requests);
    assert HistoryAgreesOn(w, userId);
  }
}
