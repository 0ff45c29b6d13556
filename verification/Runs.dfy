/** The service as a state machine: every call, the transaction around a request (app/database/dependencies.py),
    and unbounded runs of requests. */
module Runs {
  import opened Basics
  import opened Claims
  import opened Tables
  import opened TokenTable
  import opened TokenProtocol
  import opened Lockout
  import opened Passwords
  import opened Accounts

  /** The service calls with their arguments; the answers of the User and Session Services are arguments too. */
  datatype Call =
    | AuthenticateCall(userId: Uuid, password: string, identifier: string, context: Context)
    | LoginCall(resolved: Result<Option<Uuid>>, status: Result<string>, password: string, identifier: string,
      session: Result<()>)
    | IssueCall(userId: Uuid, context: Context)
    | RefreshCall(token: Jwt)
    | RevokeCall(token: Jwt)
    | RevokeAllCall(userId: Uuid, scope: Scope)
    | ChangeCall(userId: Uuid, currentPassword: string, newPassword: string, context: Context)
    | RequestResetCall(resolved: Result<Option<Uuid>>)
    | ConfirmResetCall(secret: Secret, newPassword: string)
    | RegisterCall(created: Result<Uuid>, password: string)
    | SyncCall(userId: Uuid, newStatus: string)

  datatype Reply =
    | Authentication(result: AuthenticationResult)
    | Tokens(pair: TokenPair)
    | Done
    | Count(revoked: nat)
    | PasswordSet(update: PasswordUpdate)
    | ResetIssued(secret: Option<Secret>)
    | Registered(registration: Registration)
    | Raised(error: Error)

  function Handle(settings: Settings, s: Store, call: Call, now: Time, jwtClock: Time): (Store, Reply) {
    match call
    case AuthenticateCall(userId, password, identifier, context) =>
      var (s', r) := Authenticate(settings, s, userId, password, identifier, context, now);
      (s', Authentication(r))
    case LoginCall(resolved, status, password, identifier, session) =>
      var (s', r) := LoginRequest(settings, s, resolved, status, password, identifier, session, now);
      (s', if r.Ok? then Tokens(r.value) else Raised(r.error))
    case IssueCall(userId, context) =>
      var (s', pair) := IssueTokens(settings, s, userId, context, now);
      (s', Tokens(pair))
    case RefreshCall(token) =>
      var (s', r) := RefreshTokens(settings, s, token, now, jwtClock);
      (s', if r.Ok? then Tokens(r.value) else Raised(r.error))
    case RevokeCall(token) =>
      var (s', r) := RevokeToken(settings, s, token, now, jwtClock);
      (s', if r.Ok? then Done else Raised(r.error))
    case RevokeAllCall(userId, scope) =>
      var (s', count) := RevokeAllTokens(s, userId, scope, now);
      (s', Count(count))
    case ChangeCall(userId, currentPassword, newPassword, context) =>
      var (s', r) := ChangePassword(s, userId, currentPassword, newPassword, context, now);
      (s', if r.Ok? then PasswordSet(r.value) else Raised(r.error))
    case RequestResetCall(resolved) =>
      var (s', r) := RequestReset(settings, s, resolved, now);
      (s', if r.Ok? then ResetIssued(r.value) else Raised(r.error))
    case ConfirmResetCall(secret, newPassword) =>
      var (s', r) := ConfirmReset(s, secret, newPassword, now);
      (s', if r.Ok? then PasswordSet(r.value) else Raised(r.error))
    case RegisterCall(created, password) =>
      var (s', r) := Register(settings, s, created, password, now);
      (s', if r.Ok? then Registered(r.value) else Raised(r.error))
    case SyncCall(userId, status) =>
      (SyncStatus(s, userId, status), Done)
  }

  // ---------------------------------------------------------------------------------------------
  // Requests and runs
  // ---------------------------------------------------------------------------------------------

  /** How a call's writes end: kept whatever the call does, or inside a transaction that commits unless the call
      raises or something after it does. */
  datatype Ending = Keep | Transaction(laterFailure: bool)

  datatype Request = Request(call: Call, now: Time, jwtClock: Time, ending: Ending)

  /** Rolling back restores every table; identifiers drawn meanwhile stay drawn. */
  function Rollback(before: Store, after: Store): Store {
    before.(drawn := after.drawn)
  }

  datatype Outcome = Outcome(store: Store, reply: Reply, kept: bool)

  function Serve(settings: Settings, s: Store, request: Request): Outcome {
    var (s', reply) := Handle(settings, s, request.call, request.now, request.jwtClock);
    if request.ending.Transaction? && (reply.Raised? || request.ending.laterFailure)
    then Outcome(Rollback(s, s'), reply, false)
    else Outcome(s', reply, true)
  }

  /** What a call does to the refresh_tokens table, read off the call and the store it finds. */
  function TokenChange(settings: Settings, s: Store, call: Call, now: Time, jwtClock: Time): Change {
    var reply := Handle(settings, s, call, now, jwtClock).1;
    match call
    case LoginCall(resolved, status, password, identifier, _) =>
      if LoginUser(settings, s, resolved, status, password, identifier, PERSONAL_CONTEXT, now).1.Ok?
      then Issue(resolved.value.value, PERSONAL_CONTEXT, now) else Untouched
    case IssueCall(userId, context) => Issue(userId, context, now)
    case RefreshCall(token) => if reply.Tokens? then Rotate(FindToken(s.tokens, Sha256(token)).value, now)
      else Untouched
    case RevokeCall(token) => if reply.Done? then RevokeOne(FindToken(s.tokens, Sha256(token)).value, now)
      else Untouched
    case RevokeAllCall(userId, scope) => RevokeMany(userId, scope, now)
    case ChangeCall(userId, _, _, context) => if reply.PasswordSet? then RevokeMany(userId, ContextScope(context), now)
      else Untouched
    case ConfirmResetCall(_, _) =>
      if reply.PasswordSet? then RevokeMany(reply.update.userId, ContextScope(PERSONAL_CONTEXT), now) else Untouched
    case RegisterCall(created, _) => if created.Ok? then Issue(created.value, PERSONAL_CONTEXT, now) else Untouched
    case _ => Untouched
  }

  /** One served request: what came in, what went out, whether its writes were kept, what they did to the token table,
      and the value that its bulk revocation returned (0 when it made none). */
  datatype Entry = Entry(request: Request, reply: Reply, kept: bool, change: Change, bulkCount: nat)

  function Record(settings: Settings, s: Store, request: Request): Entry {
    var outcome := Serve(settings, s, request);
    var change := if outcome.kept then TokenChange(settings, s, request.call, request.now, request.jwtClock)
      else Untouched;
    Entry(request, outcome.reply, outcome.kept, change,
          if change.RevokeMany? then |ActiveInScope(s.tokens, change.userId, change.scope)| else 0)
  }

  datatype World = World(store: Store, history: seq<Entry>)

  /** The store and the history after serving the requests in order, from an empty database. */
  function Run(settings: Settings, requests: seq<Request>): (w: World)
    ensures |w.history| == |requests|
  {
    if requests == [] then World(EMPTY_STORE, [])
    else
      var before := Run(settings, requests[..|requests| - 1]);
      var request := requests[|requests| - 1];
      World(Serve(settings, before.store, request).store, before.history + [Record(settings, before.store, request)])
  }

  /** The clock never goes back, and has reached `clock` at the end. */
  predicate Timely(requests: seq<Request>, clock: Time) {
    && (forall i, j | 0 <= i < j < |requests| :: requests[i].now <= requests[j].now)
    && (forall i | 0 <= i < |requests| :: requests[i].now <= clock)
  }

  /** Serving one more request. */
  lemma {:induction false} RunExtends(settings: Settings, requests: seq<Request>, request: Request)
    ensures
      var before, after := Run(settings, requests), Run(settings, requests + [request]);
      && after.store == Serve(settings, before.store, request).store
      && after.history == before.history + [Record(settings, before.store, request)]
  {
    assert (requests + [request])[..|requests|] == requests;
  }

  /** Requests served one after the other extend the history and nothing else. */
  lemma {:induction false} RunPrefix(settings: Settings, requests: seq<Request>, k: nat)
    requires k < |requests|
    ensures
      var before, after := Run(settings, requests[..k]), Run(settings, requests[..k + 1]);
      && after.store == Serve(settings, before.store, requests[k]).store
      && after.history == before.history + [Record(settings, before.store, requests[k])]
      && after.history[k] == Record(settings, before.store, requests[k])
  {
    assert requests[..k + 1][..k] == requests[..k];
  }

  lemma {:induction false} HistoryPrefix(settings: Settings, requests: seq<Request>, k: nat)
    requires k <= |requests|
    ensures Run(settings, requests[..k]).history == Run(settings, requests).history[..k]
    decreases |requests|
  {
    if k == |requests| {
      assert requests[..k] == requests;
    } else {
      var shorter := requests[..|requests| - 1];
      HistoryPrefix(settings, shorter, k);
      assert shorter[..k] == requests[..k];
    }
  }

  /** The k-th entry of a history records the k-th request, served in the store of the requests before it. */
  lemma {:induction false} EntryOfRun(settings: Settings, requests: seq<Request>, k: nat)
    requires k < |requests|
    ensures
      var before := Run(settings, requests[..k]).store;
      && Run(settings, requests).history[k] == Record(settings, before, requests[k])
      && Run(settings, requests[..k + 1]).store == Serve(settings, before, requests[k]).store
  {
    hide Record, Serve;
    RunPrefix(settings, requests, k);
    HistoryPrefix(settings, requests, k + 1);
  }

  // ---------------------------------------------------------------------------------------------
  // Every call changes the token table in one of five ways
  // ---------------------------------------------------------------------------------------------

  /** The stated change is enabled, is made at the instant of the call, and is all that happens to the table. */
  ghost predicate ChangeIsExact(settings: Settings, s: Store, s': Store, change: Change, now: Time) {
    && Enabled(s.tokens, change)
    && (change.Untouched? || change.at == now)
    && s'.tokens == ApplyChange(settings, s.tokens, s.drawn, change)
    && s.drawn + Draws(change) <= s'.drawn
  }

  lemma HandleChangesTokens(settings: Settings, s: Store, call: Call, now: Time, jwtClock: Time)
    requires TokenLineage(settings, s.tokens, s.drawn)
    ensures ChangeIsExact(settings, s, Handle(settings, s, call, now, jwtClock).0,
      TokenChange(settings, s, call, now, jwtClock), now)
  {
    hide RefreshTokens, RevokeToken, LoginRequest, LoginUser, Authenticate, ChangePassword, ConfirmReset, Register,
      RequestReset;
    match call
    case RefreshCall(token) =>
      RefreshIsExact(settings, s, token, now, jwtClock);
      assert RefreshTokens(settings, s, token, now, jwtClock).1.Err? ==>
        TokenChange(settings, s, call, now, jwtClock) == Untouched;
    case RevokeCall(token) =>
      RevokeIsExact(settings, s, token, now, jwtClock);
      assert RevokeToken(settings, s, token, now, jwtClock).1.Err? ==>
        TokenChange(settings, s, call, now, jwtClock) == Untouched;
    case LoginCall(resolved, status, password, identifier, session) =>
      LoginIsExact(settings, s, resolved, status, password, identifier, session, now);
    case AuthenticateCall(userId, password, identifier, context) =>
      AuthenticationOutcome(settings, s, userId, password, identifier, context, now);
    case ChangeCall(userId, currentPassword, newPassword, context) =>
      ChangePasswordIsExact(settings, s, userId, currentPassword, newPassword, context, now);
    case RequestResetCall(resolved) =>
      RequestResetIsExact(settings, s, resolved, now);
    case ConfirmResetCall(secret, newPassword) =>
      ConfirmResetIsExact(settings, s, secret, newPassword, now);
    case RegisterCall(created, password) =>
      RegisterIsExact(settings, s, created, password, now);
    case _ =>
  }

  lemma ChangePasswordIsExact(
    settings: Settings, s: Store, userId: Uuid, currentPassword: string, newPassword: string, context: Context,
    now: Time)
    ensures var (s', r) := ChangePassword(s, userId, currentPassword, newPassword, context, now);
      ChangeIsExact(settings, s, s', if r.Ok? then RevokeMany(userId, ContextScope(context), now) else Untouched, now)
  {
  }

  lemma RequestResetIsExact(settings: Settings, s: Store, resolved: Result<Option<Uuid>>, now: Time)
    ensures ChangeIsExact(settings, s, RequestReset(settings, s, resolved, now).0, Untouched, now)
  {
  }

  lemma ConfirmResetIsExact(settings: Settings, s: Store, secret: Secret, newPassword: string, now: Time)
    ensures var (s', r) := ConfirmReset(s, secret, newPassword, now);
      ChangeIsExact(settings, s, s', if r.Ok? then RevokeMany(r.value.userId, ContextScope(PERSONAL_CONTEXT), now)
        else Untouched, now)
  {
  }

  lemma RegisterIsExact(settings: Settings, s: Store, created: Result<Uuid>, password: string, now: Time)
    ensures ChangeIsExact(settings, s, Register(settings, s, created, password, now).0,
              if created.Ok? then Issue(created.value, PERSONAL_CONTEXT, now) else Untouched, now)
  {
  }

  lemma RefreshIsExact(settings: Settings, s: Store, token: Jwt, now: Time, jwtClock: Time)
    requires TokenLineage(settings, s.tokens, s.drawn)
    ensures var (s', r) := RefreshTokens(settings, s, token, now, jwtClock);
      var i := FindToken(s.tokens, Sha256(token));
      && (r.Ok? ==> i.Some? && ChangeIsExact(settings, s, s', Rotate(i.value, now), now))
      && (r.Err? ==> s' == s)
      && (r.Ok? ==> var row := s.tokens[i.value];
            s'.authEvents == s.authEvents + [AuthEvent(Some(row.userId), row.context, TOKEN_REFRESH, None)])
      && s' == s.(tokens := s'.tokens, drawn := s'.drawn, authEvents := s'.authEvents)
  {
    match FindToken(s.tokens, Sha256(token))
    case None => UnknownTokenIsRefused(settings, s, token, now, jwtClock);
    case Some(i) =>
      RefreshOfStoredToken(settings, s, i, now, jwtClock);
      if RefreshTokens(settings, s, token, now, jwtClock).1.Ok? {
        RotateTokenIsRotation(settings, s, i, now);
      }
  }

  lemma RevokeIsExact(settings: Settings, s: Store, token: Jwt, now: Time, jwtClock: Time)
    requires TokenLineage(settings, s.tokens, s.drawn)
    ensures var (s', r) := RevokeToken(settings, s, token, now, jwtClock);
      var i := FindToken(s.tokens, Sha256(token));
      && (r.Ok? ==> i.Some? && ChangeIsExact(settings, s, s', RevokeOne(i.value, now), now))
      && (r.Err? ==> s' == s)
      && (r.Ok? ==> var row := s.tokens[i.value];
            s'.authEvents == s.authEvents + [AuthEvent(Some(row.userId), row.context, TOKEN_REVOKED, None)])
      && s' == s.(tokens := s'.tokens, authEvents := s'.authEvents)
  {
    match FindToken(s.tokens, Sha256(token))
    case None => UnknownTokenIsRefused(settings, s, token, now, jwtClock);
    case Some(i) => RevokeOfStoredToken(settings, s, i, now, jwtClock);
  }

  lemma LoginIsExact(
    settings: Settings, s: Store, resolved: Result<Option<Uuid>>, status: Result<string>,
    password: string, identifier: string, session: Result<()>, now: Time)
    ensures
      var s' := LoginRequest(settings, s, resolved, status, password, identifier, session, now).0;
      var change :=
        if LoginUser(settings, s, resolved, status, password, identifier, PERSONAL_CONTEXT, now).1.Ok?
        then Issue(resolved.value.value, PERSONAL_CONTEXT, now) else Untouched;
      ChangeIsExact(settings, s, s', change, now)
  {
    if resolved.Ok? && resolved.value.Some? {
      AuthenticationOutcome(settings, s, resolved.value.value, password, identifier, PERSONAL_CONTEXT, now);
    }
  }

  // ---------------------------------------------------------------------------------------------
  // Atomicity
  // ---------------------------------------------------------------------------------------------

  /** Two stores hold the same tables. */
  predicate SameTables(a: Store, b: Store) {
    a == b.(drawn := a.drawn)
  }

  /** The request asks for the user's password: directly, or through a login that the identifier and the status let
      through. */
  predicate TriesPassword(call: Call, userId: Uuid) {
    match call
    case AuthenticateCall(user, _, _, _) => user == userId
    case LoginCall(resolved, status, _, _, _) => resolved == Ok(Some(userId)) && status.Ok?
      && LoginGate(status.value).None?
    case _ => false
  }

  /** A login that gets as far as the password. */
  predicate LoginPastGate(call: Call) {
    call.LoginCall? && call.resolved.Ok? && call.resolved.value.Some? && TriesPassword(call, call.resolved.value.value)
  }

  /** The calls that write before they raise: a login past the gate logs its attempt, and issues tokens before the
      Session Service fails; a revocation marks its row before it parses the optional claims. */
  predicate WritesBeforeRaising(settings: Settings, s: Store, call: Call, jwtClock: Time) {
    || LoginPastGate(call)
    || (call.RevokeCall?
        && var claims := Validate(settings, Refresh, call.token, jwtClock);
           var found := FindToken(s.tokens, Sha256(call.token));
           && claims.Ok? && found.Some? && !s.tokens[found.value].isRevoked
           && RevocationContext(claims.value).Err?)
  }

  /** In any store whatever, a call that raises has changed some table exactly in those cases; inside a transaction
      nothing of it is left. */
  lemma PartialWritesAreUndone(settings: Settings, s: Store, request: Request)
    requires Handle(settings, s, request.call, request.now, request.jwtClock).1.Raised?
    ensures
      var written := Handle(settings, s, request.call, request.now, request.jwtClock).0;
      && (SameTables(written, s) <==> !WritesBeforeRaising(settings, s, request.call, request.jwtClock))
      && (request.ending.Transaction? ==> SameTables(Serve(settings, s, request).store, s))
      && (request.ending.Keep? ==> Serve(settings, s, request).store == written)
  {
    hide LoginRequest, RefreshTokens, RevokeToken, FindToken, Validate;
    match request.call
    case LoginCall(resolved, status, password, identifier, session) =>
      LoginWrites(settings, s, resolved, status, password, identifier, session, request.now);
    case RefreshCall(token) =>
      RefreshWrites(settings, s, token, request.now, request.jwtClock);
      assert RefreshTokens(settings, s, token, request.now, request.jwtClock).1.Err?;
    case RevokeCall(token) =>
      RevokeWrites(settings, s, token, request.now, request.jwtClock);
      assert RevokeToken(settings, s, token, request.now, request.jwtClock).1.Err?;
    case _ =>
  }

  lemma LoginWrites(
    settings: Settings, s: Store, resolved: Result<Option<Uuid>>, status: Result<string>,
    password: string, identifier: string, session: Result<()>, now: Time)
    ensures var (s', r) := LoginRequest(settings, s, resolved, status, password, identifier, session, now);
      if LoginPastGate(LoginCall(resolved, status, password, identifier, session))
        then |s'.attempts| == |s.attempts| + 1
      else r.Err? && s' == s
  {
  }

  /** No new event, or one of this kind. */
  ghost predicate AtMostOneMore(events: seq<AuthEvent>, events': seq<AuthEvent>, kind: AuthEventType) {
    || events' == events
    || (|events'| == |events| + 1 && events' == events + [events'[|events|]] && events'[|events|].eventType == kind)
  }

  /** What refresh and revoke leave alone, in any store whatever. */
  lemma RefreshWrites(settings: Settings, s: Store, token: Jwt, now: Time, jwtClock: Time)
    ensures var (s', r) := RefreshTokens(settings, s, token, now, jwtClock);
      && (r.Err? ==> s' == s)
      && s' == s.(tokens := s'.tokens, drawn := s'.drawn, authEvents := s'.authEvents) && s.drawn <= s'.drawn
      && AtMostOneMore(s.authEvents, s'.authEvents, TOKEN_REFRESH)
  {
    hide Mint, Validate;
  }

  lemma RevokeWrites(settings: Settings, s: Store, token: Jwt, now: Time, jwtClock: Time)
    ensures var (s', r) := RevokeToken(settings, s, token, now, jwtClock);
      && (r.Err? ==> (SameTables(s', s) <==> !WritesBeforeRaising(settings, s, RevokeCall(token), jwtClock)))
      && s' == s.(tokens := s'.tokens, authEvents := s'.authEvents)
      && AtMostOneMore(s.authEvents, s'.authEvents, TOKEN_REVOKED)
  {
  }

  /** No call gives a drawn identifier back. */
  lemma DrawsOnlyGrow(settings: Settings, s: Store, call: Call, now: Time, jwtClock: Time)
    ensures s.drawn <= Handle(settings, s, call, now, jwtClock).0.drawn
  {
    hide RefreshTokens, RevokeToken, Authenticate;
    match call
    case RefreshCall(token) => RefreshWrites(settings, s, token, now, jwtClock);
    case RevokeCall(token) => RevokeWrites(settings, s, token, now, jwtClock);
    case AuthenticateCall(userId, password, identifier, context) =>
      AuthenticationOutcome(settings, s, userId, password, identifier, context, now);
    case LoginCall(resolved, status, password, identifier, session) =>
      if resolved.Ok? && resolved.value.Some? {
        AuthenticationOutcome(settings, s, resolved.value.value, password, identifier, PERSONAL_CONTEXT, now);
      }
    case _ =>
  }
}
