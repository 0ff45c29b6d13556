/** What a caller can rely on over whole runs: replies and what they leave behind. */
module Observations {
  import opened Basics
  import opened Claims
  import opened Tables
  import opened TokenTable
  import opened TokenProtocol
  import opened Lockout
  import opened Passwords
  import opened Accounts
  import opened Outcomes
  import opened Runs
  import opened TokenRuns
  import opened AccountRuns

  // ---------------------------------------------------------------------------------------------
  // Durability
  // ---------------------------------------------------------------------------------------------

  /** The request's writes outlive it: it is not in a transaction, or it returns and nothing raises after it. */
  predicate IsDurable(request: Request, reply: Reply) {
    request.ending == Keep || (!reply.Raised? && request.ending == Transaction(false))
  }

  /** A request keeps its writes if and only if it is durable; of any other, nothing is left but its draws. */
  lemma DurableOutcome(settings: Settings, s: Store, request: Request)
    ensures
      var (written, reply) := Handle(settings, s, request.call, request.now, request.jwtClock);
      var outcome := Serve(settings, s, request);
      && outcome.reply == reply
      && (outcome.kept <==> IsDurable(request, reply))
      && outcome.store == (if IsDurable(request, reply) then written else s.(drawn := written.drawn))
  {
    hide Handle;
  }

  /** Over any run: each entry holds its request and the reply that the call gave in the store of the requests before
      it, and its writes were kept exactly when the request is durable. */
  lemma {:induction false} EntriesOfRun(settings: Settings, requests: seq<Request>, k: nat, entry: Entry)
    requires k < |requests| && entry == Run(settings, requests).history[k]
    ensures
      var before, after := Run(settings, requests[..k]).store, Run(settings, requests[..k + 1]).store;
      var (written, reply) := Handle(settings, before, requests[k].call, requests[k].now, requests[k].jwtClock);
      && entry.request == requests[k] && entry.reply == reply
      && (entry.kept <==> IsDurable(requests[k], reply))
      && after == (if IsDurable(requests[k], reply) then written else before.(drawn := written.drawn))
  {
    hide Run, Handle, Serve;
    EntryOfRun(settings, requests, k);
    DurableOutcome(settings, Run(settings, requests[..k]).store, requests[k]);
  }

  // ---------------------------------------------------------------------------------------------
  // Answered tokens
  // ---------------------------------------------------------------------------------------------

  function PairOf(reply: Reply): Option<TokenPair> {
    match reply
    case Tokens(pair) => Some(pair)
    case Registered(registration) => Some(registration.tokens)
    case _ => None
  }

  /** Whom a pair that answers the call is for. */
  ghost predicate IsFor(before: Store, call: Call, userId: Uuid, context: Context) {
    match call
    case IssueCall(user, requested) => user == userId && requested == context
    case LoginCall(resolved, _, _, _, _) => resolved == Ok(Some(userId))
      && context == Context(Plain("PERSONAL"), None, None)
    case RegisterCall(created, _) => created == Ok(userId) && context == Context(Plain("PERSONAL"), None, None)
    case RefreshCall(token) =>
      exists i | 0 <= i < |before.tokens| ::
        before.tokens[i].tokenHash == Sha256(token) && before.tokens[i].userId == userId
          && before.tokens[i].context == context
    case _ => false
  }

  /** The pair carries this user and context, and the newest row stores its refresh token. */
  ghost predicate IsAnswer(
    settings: Settings, after: Store, pair: TokenPair, userId: Uuid, context: Context, now: Time)
  {
    && IsPairFor(settings, pair, userId, context, now)
    && |after.tokens| > 0
    && Stores(settings, after.tokens[|after.tokens| - 1], pair.refreshToken, userId, context, now)
  }

  lemma HandleAnswers(settings: Settings, s: Store, call: Call, now: Time, jwtClock: Time)
    requires TokenLineage(settings, s.tokens, s.drawn)
    requires PairOf(Handle(settings, s, call, now, jwtClock).1).Some?
    ensures
      var (s', reply) := Handle(settings, s, call, now, jwtClock);
      && (exists userId, context :: IsFor(s, call, userId, context))
      && (forall userId, context | IsFor(s, call, userId, context) ::
            IsAnswer(settings, s', PairOf(reply).value, userId, context, now))
      && (call.RefreshCall? ==>
            && (exists i | 0 <= i < |s'.tokens| :: s'.tokens[i].tokenHash == Sha256(call.token))
            && forall i | 0 <= i < |s'.tokens| && s'.tokens[i].tokenHash == Sha256(call.token) ::
                 s'.tokens[i].isRevoked)
  {
    hide TokenLineage, IssueTokens, RefreshTokens, LoginRequest, Register, IsPairFor;
    var personal := Context(Plain("PERSONAL"), None, None);
    match call
    case IssueCall(userId, context) =>
      IssueOutcome(settings, s, userId, context, now);
      assert IsFor(s, call, userId, context);
    case LoginCall(resolved, status, password, identifier, session) =>
      LoginOutcome(settings, s, resolved, status, password, identifier, session, now);
      assert IsFor(s, call, resolved.value.value, personal);
    case RegisterCall(created, password) =>
      RegisterOutcome(settings, s, created, password, now);
      assert IsFor(s, call, created.value, personal);
    case RefreshCall(token) =>
      RefreshAnswers(settings, s, token, now, jwtClock);
    case _ =>
  }

  lemma RefreshAnswers(settings: Settings, s: Store, token: Jwt, now: Time, jwtClock: Time)
    requires TokenLineage(settings, s.tokens, s.drawn) && RefreshTokens(settings, s, token, now, jwtClock).1.Ok?
    ensures
      var (s', r) := RefreshTokens(settings, s, token, now, jwtClock);
      && (exists userId, context :: IsFor(s, RefreshCall(token), userId, context))
      && (forall userId, context | IsFor(s, RefreshCall(token), userId, context) ::
            IsAnswer(settings, s', r.value, userId, context, now))
      && (exists i | 0 <= i < |s'.tokens| :: s'.tokens[i].tokenHash == Sha256(token))
      && forall i | 0 <= i < |s'.tokens| && s'.tokens[i].tokenHash == Sha256(token) :: s'.tokens[i].isRevoked
  {
    hide RefreshTokens, TokenLineage, IsPairFor, Stores, FindToken;
    RefreshOutcome(settings, s, token, now, jwtClock);
    var s' := RefreshTokens(settings, s, token, now, jwtClock).0;
    var k :| 0 <= k < |s.tokens| && Refreshes(settings, s.tokens, k, token, now, jwtClock);
    assert IsFor(s, RefreshCall(token), s.tokens[k].userId, s.tokens[k].context);
    forall i | 0 <= i < |s.tokens| && s.tokens[i].tokenHash == Sha256(token)
      ensures i == k
    {
      FindStoredToken(settings, s.tokens, s.drawn, i);
      FindStoredToken(settings, s.tokens, s.drawn, k);
    }
    assert |s'.tokens| == |s.tokens| + 1;
    NewRowIsOther(settings, s, token, k, now, jwtClock);
    assert s'.tokens[k].tokenHash == Sha256(token);
  }

  /** The row that a refresh appends is not the row of the presented token. */
  lemma NewRowIsOther(settings: Settings, s: Store, token: Jwt, k: nat, now: Time, jwtClock: Time)
    requires TokenLineage(settings, s.tokens, s.drawn) && k < |s.tokens|
    requires Refreshes(settings, s.tokens, k, token, now, jwtClock)
    ensures var s' := RefreshTokens(settings, s, token, now, jwtClock).0;
      |s'.tokens| == |s.tokens| + 1 && s'.tokens[|s.tokens|].tokenHash != Sha256(token)
  {
    hide RefreshTokens, RotateToken, Mint;
    RefreshOfStoredToken(settings, s, k, now, jwtClock);
    StoredClaimsAgree(settings, s.tokens, s.drawn, k, jwtClock);
    RotateTokenIsRotation(settings, s, k, now);
    IssuedRowIsNew(settings, s.tokens, s.drawn, s.tokens[k].userId, s.tokens[k].context, now);
  }

  /** Every answered pair is good: over any run, when a request with no later failure answers with tokens, there is
      someone they are for, both tokens carry that user and context for their lifetimes, and the store afterwards holds
      the unrevoked row of the refresh token; after a refresh, the presented token's row is revoked. */
  lemma {:induction false} AnsweredPairIsStored(
    settings: Settings, requests: seq<Request>, k: nat, reply: Reply, before: Store, after: Store)
    requires k < |requests| && reply == Run(settings, requests).history[k].reply && PairOf(reply).Some?
    requires requests[k].ending != Transaction(true)
    requires before == Run(settings, requests[..k]).store && after == Run(settings, requests[..k + 1]).store
    ensures exists userId, context :: IsFor(before, requests[k].call, userId, context)
    ensures forall userId, context | IsFor(before, requests[k].call, userId, context) ::
      IsAnswer(settings, after, PairOf(reply).value, userId, context, requests[k].now)
    ensures requests[k].call.RefreshCall? ==>
      && (exists i | 0 <= i < |after.tokens| :: after.tokens[i].tokenHash == Sha256(requests[k].call.token))
      && forall i | 0 <= i < |after.tokens| && after.tokens[i].tokenHash == Sha256(requests[k].call.token) ::
           after.tokens[i].isRevoked
  {
    hide Run, Handle, IsFor, IsAnswer, TokenLineage, RotationForest;
    EntriesOfRun(settings, requests, k, Run(settings, requests).history[k]);
    RunKeepsTokens(settings, requests[..k]);
    HandleAnswers(settings, before, requests[k].call, requests[k].now, requests[k].jwtClock);
  }

  /** And it can be used: presented next, at instants within its lifetime, the answered refresh token is exchanged. */
  lemma {:induction false} AnsweredPairRefreshes(
    settings: Settings, requests: seq<Request>, k: nat, reply: Reply, now: Time, jwtClock: Time)
    requires k < |requests| && reply == Run(settings, requests).history[k].reply && PairOf(reply).Some?
    requires requests[k].ending != Transaction(true)
    requires now < requests[k].now + settings.refreshLifetime
    requires Seconds(requests[k].now) <= Seconds(jwtClock) < Seconds(requests[k].now + settings.refreshLifetime)
    ensures
      var after := Run(settings, requests[..k + 1]).store;
      Handle(settings, after, RefreshCall(PairOf(reply).value.refreshToken), now, jwtClock).1.Tokens?
  {
    hide Run, IsFor, TokenLineage, RotationForest, RefreshTokens, IsPairFor;
    var before, after := Run(settings, requests[..k]).store, Run(settings, requests[..k + 1]).store;
    AnsweredPairIsStored(settings, requests, k, reply, before, after);
    RunKeepsTokens(settings, requests[..k + 1]);
    var userId, context :| IsFor(before, requests[k].call, userId, context);
    assert IsAnswer(settings, after, PairOf(reply).value, userId, context, requests[k].now);
    var token := PairOf(reply).value.refreshToken;
    assert Refreshes(settings, after.tokens, |after.tokens| - 1, token, now, jwtClock);
    RefreshOutcome(settings, after, token, now, jwtClock);
  }

  // ---------------------------------------------------------------------------------------------
  // Bulk revocation
  // ---------------------------------------------------------------------------------------------

  /** A durable bulk revocation revokes exactly the unrevoked rows that pass the filters of its call, and the number
      that it replies is the one in the ledger, the number of rows it rewrote and the drop in unrevoked rows. */
  lemma {:induction false} CountsOfRun(settings: Settings, requests: seq<Request>, k: nat, entry: Entry)
    requires k < |requests| && entry == Run(settings, requests).history[k]
    requires requests[k].call.RevokeAllCall? && requests[k].ending != Transaction(true)
    ensures
      var before, after := Run(settings, requests[..k]).store.tokens, Run(settings, requests[..k + 1]).store.tokens;
      && entry.reply == Count(entry.bulkCount)
      && entry.bulkCount == |LiveTokens(before)| - |LiveTokens(after)|
      && |after| == |before|
      && entry.bulkCount == |set i | 0 <= i < |before| && after[i] != before[i]|
      && (var call, scope := requests[k].call, requests[k].call.scope;
          forall i | 0 <= i < |before| ::
            after[i] ==
              if !before[i].isRevoked
                && PassesFilters(
                     before[i], call.userId, scope.contextType, scope.organizationId, scope.membershipId)
              then before[i].(isRevoked := true, revokedAt := Some(requests[k].now))
              else before[i])
  {
    hide Run, ActiveInScope, LiveTokens, RevokeScope, PassesFilters;
    EntryOfRun(settings, requests, k);
    var before, after := Run(settings, requests[..k]).store.tokens, Run(settings, requests[..k + 1]).store.tokens;
    var call := requests[k].call;
    RevokeScopeMeaning(before, call.userId, call.scope, requests[k].now);
    var scope := call.scope;
    RevocationByColumns(
      before, call.userId, scope.contextType, scope.organizationId, scope.membershipId, requests[k].now);
  }

  // ---------------------------------------------------------------------------------------------
  // Refreshing, on two clocks
  // ---------------------------------------------------------------------------------------------

  /** In every reachable store, whatever the service's clock and the JWT library's say, a refresh answers with tokens
      exactly when the string is the token of an unrevoked row that has not expired on the first and whose interval
      holds the second. */
  lemma {:induction false} RefreshOfRun(
    settings: Settings, requests: seq<Request>, s: Store, token: Jwt, now: Time, jwtClock: Time)
    requires s == Run(settings, requests).store
    ensures Handle(settings, s, RefreshCall(token), now, jwtClock).1.Tokens? <==>
      exists i | 0 <= i < |s.tokens| :: Refreshes(settings, s.tokens, i, token, now, jwtClock)
  {
    hide Run, RefreshTokens, TokenLineage, RotationForest, Refreshes, IsPairFor;
    RunKeepsTokens(settings, requests);
    RefreshOutcome(settings, s, token, now, jwtClock);
  }

  // ---------------------------------------------------------------------------------------------
  // Who gets in
  // ---------------------------------------------------------------------------------------------

  /** In any store, every call that gets as far as a password logs one attempt, with the call's identifier and context,
      at the instant of the call, and with the reason for which the columns refuse it. */
  lemma AttemptsOfCalls(settings: Settings, s: Store, call: Call, userId: Uuid, now: Time, jwtClock: Time)
    requires TriesPassword(call, userId)
    ensures
      var s' := Handle(settings, s, call, now, jwtClock).0;
      var known := if userId in s.credentials then Some(userId) else None;
      var context := if call.AuthenticateCall? then call.context else Context(Plain("PERSONAL"), None, None);
      var admitted := Admits(s, userId, call.password, now);
      var reason := LoggedReason(s, userId, call.password, now);
      s'.attempts == s.attempts + [LoginAttempt(known, call.identifier, context, admitted, reason, now)]
  {
    hide Authenticate, Admits, LoggedReason, LoginGate;
    var context := if call.AuthenticateCall? then call.context else PERSONAL_CONTEXT;
    AuthenticateOutcome(settings, s, userId, call.password, call.identifier, context, now);
  }

  /** What the history and the log of a run say of one user's password at an instant: it is the one last set, the status
      last synchronised admits logins, and the failures logged since the last success are below the threshold or one
      lockout has passed since the last of them. */
  predicate HistoryAdmits(settings: Settings, w: World, userId: Uuid, password: string, now: Time) {
    && LastPassword(w.history, userId) == Some(password)
    && LastStatusAdmits(w.history, userId)
    && var failures := FailureTimes(w.store.attempts, userId);
       || |failures| < settings.maxFailedLogins
       || |failures| == 0
       || now >= failures[|failures| - 1] + settings.lockout
  }

  lemma {:induction false} AdmissionOfRun(
    settings: Settings, requests: seq<Request>, w: World, userId: Uuid, password: string, now: Time)
    requires settings.maxFailedLogins >= 1 && w == Run(settings, requests)
    ensures Admits(w.store, userId, password, now) <==> HistoryAdmits(settings, w, userId, password, now)
  {
    hide Run, FailureTimes, LastPassword, LastStatusAdmits;
    CredentialCachesLog(settings, requests);
    HistoryOfRun(settings, requests);
    assert HistoryAgreesOn(w, userId);
  }

  /** In every reachable store authenticate answers that a password is let in exactly when the history says so: the lock
      ends one lockout after the last failure, and nothing but the history decides. */
  lemma {:induction false} AuthenticationOfRun(
    settings: Settings, requests: seq<Request>, w: World, call: Call, now: Time, jwtClock: Time)
    requires settings.maxFailedLogins >= 1 && w == Run(settings, requests) && call.AuthenticateCall?
    ensures
      var reply := Handle(settings, w.store, call, now, jwtClock).1;
      && reply.Authentication?
      && (reply.result.authenticated <==> HistoryAdmits(settings, w, call.userId, call.password, now))
  {
    hide Run, Authenticate, HistoryAdmits;
    AdmissionOfRun(settings, requests, w, call.userId, call.password, now);
    AuthenticateOutcome(settings, w.store, call.userId, call.password, call.identifier, call.context, now);
  }

  /** And so does the login request: in every reachable store it answers with tokens exactly when the identifier
      resolves to a user whose status may log in, the history admits the password, and the session is created; otherwise
      it raises the error of the first of these that fails. */
  lemma {:induction false} LoginOfRun(
    settings: Settings, requests: seq<Request>, w: World, call: Call, now: Time, jwtClock: Time)
    requires settings.maxFailedLogins >= 1 && w == Run(settings, requests) && call.LoginCall?
    ensures
      var reply := Handle(settings, w.store, call, now, jwtClock).1;
      var error := LoginError(w.store, call.resolved, call.status, call.password, call.session, now);
      && (reply.Tokens? <==>
            && call.resolved.Ok? && call.resolved.value.Some? && call.status.Ok? && MayLogIn(call.status.value)
            && HistoryAdmits(settings, w, call.resolved.value.value, call.password, now)
            && call.session.Ok?)
      && (!reply.Tokens? ==> error.Some? && reply == Raised(error.value))
  {
    hide Run, LoginRequest, HistoryAdmits, Admits, IsPairFor, MayLogIn, LoginError;
    LoginOutcome(settings, w.store, call.resolved, call.status, call.password, call.identifier, call.session, now);
    if call.resolved.Ok? && call.resolved.value.Some? {
      AdmissionOfRun(settings, requests, w, call.resolved.value.value, call.password, now);
    }
  }

  // ---------------------------------------------------------------------------------------------
  // Passwords and resets
  // ---------------------------------------------------------------------------------------------

  /** In every reachable store a change succeeds exactly when the current password is the one last set, the status last
      synchronised admits logins and the new password differs: a lock does not matter. It then cuts the context of the
      call. Otherwise it raises and writes nothing. */
  lemma {:induction false} ChangeOfRun(
    settings: Settings, requests: seq<Request>, w: World, call: Call, now: Time, jwtClock: Time)
    requires w == Run(settings, requests) && call.ChangeCall?
    ensures
      var (s', reply) := Handle(settings, w.store, call, now, jwtClock);
      if LastPassword(w.history, call.userId) == Some(call.currentPassword)
        && LastStatusAdmits(w.history, call.userId) && call.currentPassword != call.newPassword
      then
        && reply == PasswordSet(PasswordUpdate(true, call.userId))
        && CutsContext(w.store, s', call.userId, call.context, now)
      else reply == Raised(InvalidCredentialsError) && s' == w.store
  {
    hide Run, ChangePassword, CutsContext, LastPassword, LastStatusAdmits;
    HistoryOfRun(settings, requests);
    assert HistoryAgreesOn(w, call.userId);
    ChangeOutcome(w.store, call.userId, call.currentPassword, call.newPassword, call.context, now);
    var (s', r) := ChangePassword(w.store, call.userId, call.currentPassword, call.newPassword, call.context, now);
    assert r.Ok? || (r == Err(InvalidCredentialsError) && s' == w.store);
  }

  /** A reset request answers a failure with its error and an unknown identifier with no secret. A known one gets a
      secret that works: after any run, presented next, it sets a password exactly until the reset lifetime is over and
      for a user with a credential. */
  lemma {:induction false} AnsweredSecretConfirms(
    settings: Settings, requests: seq<Request>, k: nat, reply: Reply, newPassword: string, now: Time, jwtClock: Time)
    requires k < |requests| && requests[k].call.RequestResetCall? && requests[k].ending != Transaction(true)
    requires reply == Run(settings, requests).history[k].reply
    ensures
      var resolved, after := requests[k].call.resolved, Run(settings, requests[..k + 1]).store;
      && (resolved.Err? ==> reply == Raised(resolved.error))
      && (resolved == Ok(None) ==> reply == ResetIssued(None))
      && (resolved.Ok? && resolved.value.Some? ==>
            && reply.ResetIssued? && reply.secret.Some?
            && Handle(settings, after, ConfirmResetCall(reply.secret.value, newPassword), now, jwtClock).1 ==
                 if now < requests[k].now + settings.resetLifetime && resolved.value.value in after.credentials
                 then PasswordSet(PasswordUpdate(true, resolved.value.value))
                 else Raised(PasswordResetError))
  {
    hide Run, ResetInvariant, RequestReset, ConfirmReset;
    var before, resolved := Run(settings, requests[..k]).store, requests[k].call.resolved;
    EntriesOfRun(settings, requests, k, Run(settings, requests).history[k]);
    ResetsOfRun(settings, requests[..k]);
    RequestKeepsResets(settings, before, resolved, requests[k].now);
    if resolved.Ok? && resolved.value.Some? {
      var secret := RequestReset(settings, before, resolved, requests[k].now).1.value.value;
      RequestThenConfirm(settings, before, resolved.value.value, requests[k].now, newPassword, now);
      var after := Run(settings, requests[..k + 1]).store;
      ConfirmReplies(settings, requests[..k + 1], after, secret, newPassword, now, jwtClock);
    }
  }

  lemma {:induction false} ConfirmReplies(
    settings: Settings, requests: seq<Request>, s: Store, secret: Secret, newPassword: string, now: Time,
    jwtClock: Time)
    requires s == Run(settings, requests).store
    ensures
      var (s', r) := ConfirmReset(s, secret, newPassword, now);
      && Handle(settings, s, ConfirmResetCall(secret, newPassword), now, jwtClock) ==
           (s', if r.Ok? then PasswordSet(PasswordUpdate(true, r.value.userId)) else Raised(PasswordResetError))
  {
    hide Run, ConfirmReset, Confirms, CutsContext, Total, UsedResets;
    ResetsOfRun(settings, requests);
    ConfirmOutcome(s, secret, newPassword, now);
    var r := ConfirmReset(s, secret, newPassword, now).1;
    assert r.Err? || r.value == PasswordUpdate(true, r.value.userId);
  }

  // ---------------------------------------------------------------------------------------------
  // The remaining replies
  // ---------------------------------------------------------------------------------------------

  /** In every reachable store a revocation answers exactly when the string is the token of an unrevoked row whose
      interval holds the library's instant; that row is then revoked at the service's instant. */
  lemma {:induction false} RevocationOfRun(
    settings: Settings, requests: seq<Request>, s: Store, i: nat, now: Time, jwtClock: Time)
    requires s == Run(settings, requests).store && i < |s.tokens|
    ensures
      var row := s.tokens[i];
      var (s', reply) := Handle(settings, s, RevokeCall(row.tokenHash.preimage), now, jwtClock);
      && (reply == Done <==>
            && !row.isRevoked
            && Seconds(row.expiresAt - settings.refreshLifetime) <= Seconds(jwtClock) < Seconds(row.expiresAt))
      && (reply != Done ==> reply.Raised? && s' == s)
      && (reply == Done ==> s'.tokens == s.tokens[i := row.(isRevoked := true, revokedAt := Some(now))])
  {
    hide Run, RevokeToken, TokenLineage, RotationForest;
    RunKeepsTokens(settings, requests);
    RevokeOutcome(settings, s, i, now, jwtClock);
    var (s', r) := RevokeToken(settings, s, s.tokens[i].tokenHash.preimage, now, jwtClock);
    assert r.Ok? || s' == s;
  }

  /** In any store: issuing always answers with tokens, a registration exactly when the User Service does, for its user,
      and a synchronisation always answers and writes the flag of its own user by its own status. */
  lemma RepliesOfCalls(settings: Settings, s: Store, call: Call, now: Time, jwtClock: Time)
    ensures
      var (s', reply) := Handle(settings, s, call, now, jwtClock);
      && (call.IssueCall? ==> reply.Tokens?)
      && (call.RegisterCall? && call.created.Ok? ==>
            reply.Registered? && reply.registration.userId == call.created.value)
      && (call.RegisterCall? && call.created.Err? ==> reply == Raised(call.created.error) && s' == s)
      && (call.SyncCall? ==>
            && reply == Done
            && s' == s.(credentials := s'.credentials) && s'.credentials.Keys == s.credentials.Keys
            && (forall u | u in s.credentials && u != call.userId :: s'.credentials[u] == s.credentials[u])
            && (call.userId in s.credentials ==>
                  s'.credentials[call.userId] ==
                    s.credentials[call.userId].(isActive := MayLogIn(call.newStatus))))
  {
    hide SyncStatus, MayLogIn, Register, IssueTokens, IsPairFor;
    match call
    case SyncCall(userId, newStatus) => SyncWritesOnlyTheFlag(s, userId, newStatus);
    case RegisterCall(created, password) => RegisterOutcome(settings, s, created, password, now);
    case _ =>
  }
}
