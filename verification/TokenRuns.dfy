/** Refresh tokens over whole runs: the rotation forest, permanence of revocation, single exchange, the ledger,
    chain lifetimes and the password epoch. */
module TokenRuns {
  import opened Basics
  import opened Claims
  import opened Tables
  import opened TokenTable
  import opened TokenProtocol
  import opened Lockout
  import opened Passwords
  import opened Accounts
  import opened Outcomes
  import opened Runs

  // ---------------------------------------------------------------------------------------------
  // The invariant over runs
  // ---------------------------------------------------------------------------------------------

  /** Serving a request, kept or rolled back, makes exactly the recorded table change and keeps the invariant. */
  lemma ServeKeepsTokens(settings: Settings, s: Store, request: Request)
    requires TokenInvariant(settings, s.tokens, s.drawn)
    ensures
      var s' := Serve(settings, s, request).store;
      var change := Record(settings, s, request).change;
      && ChangeIsExact(settings, s, s', change, request.now)
      && TokenInvariant(settings, s'.tokens, s'.drawn)
      && Evolves(s.tokens, s'.tokens)
  {
    hide Handle, TokenChange, ApplyChange, TokenLineage, RotationForest, Evolves, Enabled;
    var change := Record(settings, s, request).change;
    HandleChangesTokens(settings, s, request.call, request.now, request.jwtClock);
    UntouchedIsExact(settings, s, Serve(settings, s, request).store, request.now);
    ChangeKeepsInvariant(settings, s.tokens, s.drawn, change);
    MoreDrawsKeepLineage(settings, s, Serve(settings, s, request).store, change);
    ChangeEvolves(settings, s.tokens, s.drawn, change);
  }

  lemma UntouchedIsExact(settings: Settings, s: Store, s': Store, now: Time)
    ensures s'.tokens == s.tokens && s'.drawn >= s.drawn ==> ChangeIsExact(settings, s, s', Untouched, now)
  {
  }

  lemma MoreDrawsKeepLineage(settings: Settings, s: Store, s': Store, change: Change)
    requires Enabled(s.tokens, change)
    requires TokenLineage(settings, ApplyChange(settings, s.tokens, s.drawn, change), s.drawn + Draws(change))
    requires s'.tokens == ApplyChange(settings, s.tokens, s.drawn, change) && s'.drawn >= s.drawn + Draws(change)
    ensures TokenLineage(settings, s'.tokens, s'.drawn)
  {
  }

  /** After any run, rolled-back requests and clocks that go back included, stored tokens have their lineage and links
      draw a forest. */
  lemma {:induction false} RunKeepsTokens(settings: Settings, requests: seq<Request>)
    ensures var s := Run(settings, requests).store; TokenInvariant(settings, s.tokens, s.drawn)
    decreases |requests|
  {
    if requests != [] {
      RunKeepsTokens(settings, requests[..|requests| - 1]);
      ServeKeepsTokens(settings, Run(settings, requests[..|requests| - 1]).store, requests[|requests| - 1]);
    }
  }

  /** After a run on a clock that never goes back, no row was issued after that clock, and every rotation lies within
      the lifetime of its row. */
  lemma {:induction false} RunKeepsChronology(settings: Settings, requests: seq<Request>, clock: Time)
    requires Timely(requests, clock)
    ensures Chronology(Run(settings, requests).store.tokens, settings.refreshLifetime, clock)
    decreases |requests|
  {
    if requests != [] {
      hide Serve, Record, ApplyChange, Enabled, Chronology, TokenLineage, RotationForest, Evolves;
      var earlier, last := requests[..|requests| - 1], requests[|requests| - 1];
      var before := Run(settings, earlier).store;
      RunKeepsChronology(settings, earlier, last.now);
      RunKeepsTokens(settings, earlier);
      ServeKeepsTokens(settings, before, last);
      ChangeKeepsChronology(
        settings, before.tokens, before.drawn, last.now, Record(settings, before, last).change, clock);
    }
  }

  /** Over any run, rows are only appended, identity columns never change, and a revoked row is never written again. */
  lemma {:induction false} RunEvolves(settings: Settings, requests: seq<Request>, k: nat)
    requires k <= |requests|
    ensures Evolves(Run(settings, requests[..k]).store.tokens, Run(settings, requests).store.tokens)
    decreases |requests|
  {
    if k == |requests| {
      assert requests[..k] == requests;
    } else {
      var shorter, last := requests[..|requests| - 1], requests[|requests| - 1];
      assert shorter[..k] == requests[..k];
      RunEvolves(settings, shorter, k);
      RunKeepsTokens(settings, shorter);
      ServeKeepsTokens(settings, Run(settings, shorter).store, last);
      EvolvesIsTransitive(
        Run(settings, requests[..k]).store.tokens, Run(settings, shorter).store.tokens,
        Run(settings, requests).store.tokens);
    }
  }

  lemma EvolvesIsTransitive(a: seq<TokenRow>, b: seq<TokenRow>, c: seq<TokenRow>)
    requires Evolves(a, b) && Evolves(b, c)
    ensures Evolves(a, c)
  {
  }

  // ---------------------------------------------------------------------------------------------
  // The rotation forest over runs
  // ---------------------------------------------------------------------------------------------

  /** In every reachable store each row belongs to one family, the chain of its root; a family has one user and one
      context, at most one unrevoked row, and that row is the family's last. */
  lemma {:induction false} FamiliesOfReachableStore(
    settings: Settings, requests: seq<Request>, rows: seq<TokenRow>, i: nat, j: nat)
    requires rows == Run(settings, requests).store.tokens
    requires i < |rows| && j < |rows|
    ensures
      var family := Chain(rows, RootOf(rows, i));
      && i in family
      && rows[i].userId == rows[RootOf(rows, i)].userId && rows[i].context == rows[RootOf(rows, i)].context
      && (!rows[i].isRevoked ==> i == family[|family| - 1])
      && (j in family <==> RootOf(rows, j) == RootOf(rows, i))
      && (RootOf(rows, i) == RootOf(rows, j) && !rows[i].isRevoked && !rows[j].isRevoked ==> i == j)
      && (rows[i].replacedBy.Some? && rows[i].replacedBy == rows[j].replacedBy ==> i == j)
      && (rows[i].replacedBy == Some(j) ==> i < j && rows[i].isRevoked)
  {
    RunKeepsTokens(settings, requests);
    Families(rows, i, j);
    Links(rows, i, j);
  }

  /** The k-th token of a family (counting the root as the first) expires at most k lifetimes after the root was issued,
      and no earlier than its predecessors. */
  lemma {:induction false} FamilyLifetime(settings: Settings, requests: seq<Request>, clock: Time, root: nat, k: nat)
    requires Timely(requests, clock) && root < |Run(settings, requests).store.tokens|
    requires 1 <= k <= |Chain(Run(settings, requests).store.tokens, root)|
    ensures
      var rows := Run(settings, requests).store.tokens;
      var member := Chain(rows, root)[k - 1];
      var issuedAt := rows[root].expiresAt - settings.refreshLifetime;
      && member < |rows|
      && rows[root].expiresAt <= rows[member].expiresAt <= issuedAt + k * settings.refreshLifetime
      && (k < |Chain(rows, root)| ==>
            && Chain(rows, root)[k] < |rows|
            && rows[member].expiresAt <= rows[Chain(rows, root)[k]].expiresAt)
  {
    RunKeepsTokens(settings, requests);
    RunKeepsChronology(settings, requests, clock);
    var rows := Run(settings, requests).store.tokens;
    ChainLifetime(rows, settings.refreshLifetime, root, k - 1);
    assert k * settings.refreshLifetime == (k - 1) * settings.refreshLifetime + settings.refreshLifetime;
    ChainShape(rows, root);
    var member := Chain(rows, root)[k - 1];
    assert TimelyLink(rows, settings.refreshLifetime, member);
  }

  /** Revocation is permanent and write-once: what a row says when revoked, it says for ever; the revocation instant is
      set exactly on revoked rows and the usage instant exactly on rotated ones. */
  lemma {:induction false} RevocationIsPermanent(settings: Settings, requests: seq<Request>, k: nat, i: nat)
    requires k <= |requests| && i < |Run(settings, requests[..k]).store.tokens|
    ensures
      var before, after := Run(settings, requests[..k]).store.tokens, Run(settings, requests).store.tokens;
      && i < |after|
      && (before[i].isRevoked ==> after[i] == before[i])
      && (after[i].isRevoked <==> after[i].revokedAt.Some?)
      && (after[i].lastUsedAt.Some? <==> after[i].replacedBy.Some?)
      && after[i].tokenHash == before[i].tokenHash && after[i].expiresAt == before[i].expiresAt
  {
    RunEvolves(settings, requests, k);
    RunKeepsTokens(settings, requests);
    assert WellFormedRow(Run(settings, requests).store.tokens[i]);
  }

  /** A refresh token is exchanged at most once: after a kept successful refresh, every later refresh of the same token,
      whatever happens in between, raises. */
  lemma {:induction false} ExchangedAtMostOnce(
    settings: Settings, requests: seq<Request>, history: seq<Entry>, a: nat, b: nat)
    requires history == Run(settings, requests).history
    requires a < b < |history| && history[a].kept && history[a].reply.Tokens?
    requires history[a].request.call.RefreshCall? && history[b].request.call == history[a].request.call
    ensures history[b].reply.Raised?
  {
    hide Run, Handle, RefreshTokens, TokenLineage, RotationForest;
    EntryOfRun(settings, requests, a);
    EntryOfRun(settings, requests, b);
    RunKeepsTokens(settings, requests[..a]);
    var spent := SpendToken(settings, Run(settings, requests[..a]).store, requests[a]);
    assert requests[..b][..a + 1] == requests[..a + 1];
    RunEvolves(settings, requests[..b], a + 1);
    RunKeepsTokens(settings, requests[..b]);
    SpentTokenIsRefused(settings, Run(settings, requests[..b]).store, requests[b], spent);
  }

  lemma SpendToken(settings: Settings, s: Store, request: Request) returns (spent: nat)
    requires TokenInvariant(settings, s.tokens, s.drawn) && request.call.RefreshCall?
    requires Serve(settings, s, request).kept && Serve(settings, s, request).reply.Tokens?
    ensures var s' := Serve(settings, s, request).store;
      spent < |s'.tokens| && s'.tokens[spent].isRevoked && s'.tokens[spent].tokenHash == Sha256(request.call.token)
  {
    hide RefreshTokens, TokenLineage, RotationForest;
    RefreshIsExact(settings, s, request.call.token, request.now, request.jwtClock);
    spent := FindToken(s.tokens, Sha256(request.call.token)).value;
  }

  lemma SpentTokenIsRefused(settings: Settings, s: Store, request: Request, spent: nat)
    requires TokenInvariant(settings, s.tokens, s.drawn) && request.call.RefreshCall?
    requires spent < |s.tokens| && s.tokens[spent].isRevoked && s.tokens[spent].tokenHash == Sha256(request.call.token)
    ensures Serve(settings, s, request).reply.Raised? && SameTables(Serve(settings, s, request).store, s)
  {
    RefreshOfStoredToken(settings, s, spent, request.now, request.jwtClock);
  }

  // ---------------------------------------------------------------------------------------------
  // The ledger
  // ---------------------------------------------------------------------------------------------

  function IsTokenRevoked(event: AuthEvent): nat { if event.eventType.TOKEN_REVOKED? then 1 else 0 }

  function IsTokenRefresh(event: AuthEvent): nat { if event.eventType.TOKEN_REFRESH? then 1 else 0 }

  function IsRegistrationCompleted(event: AuthEvent): nat { if event.eventType.REGISTRATION_COMPLETED? then 1 else 0 }

  /** The kept request called issue_tokens outside refresh. */
  function IssuedTokens(entry: Entry): nat { if entry.change.Issue? then 1 else 0 }

  function BulkCount(entry: Entry): nat { entry.bulkCount }

  function CompletedRegistration(entry: Entry): nat { if entry.kept && entry.reply.Registered? then 1 else 0 }

  /** Unrevoked rows, individual revocations and bulk revocations add up to the tokens issued outside refresh; each
      rotation is one TOKEN_REFRESH event, one replaced row and one more row; each kept registration is one event. */
  ghost predicate LedgerBalances(w: World) {
    var s := w.store;
    && |LiveTokens(s.tokens)| == Total(w.history, IssuedTokens) - Total(s.authEvents, IsTokenRevoked)
         - Total(w.history, BulkCount)
    && |ReplacedTokens(s.tokens)| == Total(s.authEvents, IsTokenRefresh)
    && |s.tokens| == Total(w.history, IssuedTokens) + Total(s.authEvents, IsTokenRefresh)
    && Total(s.authEvents, IsRegistrationCompleted) == Total(w.history, CompletedRegistration)
  }

  /** At most one authentication event per call, of the kind that goes with what the call did. */
  ghost predicate EventMatchesCall(s: Store, s': Store, call: Call, reply: Reply, change: Change) {
    if |s'.authEvents| == |s.authEvents| then
      s'.authEvents == s.authEvents && !change.RevokeOne? && !change.Rotate? && !reply.Registered?
    else
      && |s'.authEvents| == |s.authEvents| + 1
      && s'.authEvents == s.authEvents + [s'.authEvents[|s.authEvents|]]
      && var event := s'.authEvents[|s.authEvents|];
        && (event.eventType.TOKEN_REVOKED? <==> change.RevokeOne?)
        && (event.eventType.TOKEN_REFRESH? <==> change.Rotate?)
        && (event.eventType.REGISTRATION_COMPLETED? <==> reply.Registered?)
        && (event.eventType.LOGIN_SUCCESS? || event.eventType.LOGIN_FAILURE? ==>
             call.AuthenticateCall? || call.LoginCall?)
  }

  lemma HandleMatchesEvents(settings: Settings, s: Store, call: Call, now: Time, jwtClock: Time)
    requires TokenLineage(settings, s.tokens, s.drawn)
    ensures var (s', reply) := Handle(settings, s, call, now, jwtClock);
      EventMatchesCall(s, s', call, reply, TokenChange(settings, s, call, now, jwtClock))
  {
    hide RefreshTokens, RevokeToken, LoginRequest, LoginUser, Authenticate, TokenLineage;
    match call
    case RefreshCall(token) =>
      RefreshIsExact(settings, s, token, now, jwtClock);
      assert RefreshTokens(settings, s, token, now, jwtClock).1.Err? ==>
        TokenChange(settings, s, call, now, jwtClock) == Untouched;
    case RevokeCall(token) =>
      RevokeIsExact(settings, s, token, now, jwtClock);
      assert RevokeToken(settings, s, token, now, jwtClock).1.Err? ==>
        TokenChange(settings, s, call, now, jwtClock) == Untouched;
    case LoginCall(resolved, status, password, identifier, session) =>
      LoginLogsOnly(settings, s, resolved, status, password, identifier, session, now);
    case AuthenticateCall(userId, password, identifier, context) =>
      AuthenticateLogsOnly(settings, s, userId, password, identifier, context, now);
    case _ =>
  }

  /** The authentication events of a login: none, or one LOGIN_SUCCESS or LOGIN_FAILURE. */
  ghost predicate AtMostOneLoginEvent(s: Store, s': Store) {
    || s'.authEvents == s.authEvents
    || (&& |s'.authEvents| == |s.authEvents| + 1
        && s'.authEvents == s.authEvents + [s'.authEvents[|s.authEvents|]]
        && (s'.authEvents[|s.authEvents|].eventType.LOGIN_SUCCESS?
             || s'.authEvents[|s.authEvents|].eventType.LOGIN_FAILURE?))
  }

  lemma AuthenticateLogsOnly(
    settings: Settings, s: Store, userId: Uuid, password: string, identifier: string, context: Context, now: Time)
    ensures AtMostOneLoginEvent(s, Authenticate(settings, s, userId, password, identifier, context, now).0)
  {
  }

  lemma LoginLogsOnly(
    settings: Settings, s: Store, resolved: Result<Option<Uuid>>, status: Result<string>,
    password: string, identifier: string, session: Result<()>, now: Time)
    ensures AtMostOneLoginEvent(s, LoginRequest(settings, s, resolved, status, password, identifier, session, now).0)
  {
    hide Authenticate;
    if resolved.Ok? && resolved.value.Some? {
      AuthenticateLogsOnly(settings, s, resolved.value.value, password, identifier, PERSONAL_CONTEXT, now);
    }
  }

  lemma AppendTokenEvent(events: seq<AuthEvent>, event: AuthEvent)
    ensures Total(events + [event], IsTokenRevoked) == Total(events, IsTokenRevoked) + IsTokenRevoked(event)
    ensures Total(events + [event], IsTokenRefresh) == Total(events, IsTokenRefresh) + IsTokenRefresh(event)
    ensures Total(events + [event], IsRegistrationCompleted) ==
      Total(events, IsRegistrationCompleted) + IsRegistrationCompleted(event)
  {
    TotalAppend(events, event, IsTokenRevoked);
    TotalAppend(events, event, IsTokenRefresh);
    TotalAppend(events, event, IsRegistrationCompleted);
  }

  /** The three event counts move exactly with the entry recorded for the request. */
  lemma ServeCountsEvents(settings: Settings, s: Store, request: Request)
    requires TokenLineage(settings, s.tokens, s.drawn)
    ensures
      var events, events' := s.authEvents, Serve(settings, s, request).store.authEvents;
      var entry := Record(settings, s, request);
      && Total(events', IsTokenRevoked) == Total(events, IsTokenRevoked) + (if entry.change.RevokeOne? then 1 else 0)
      && Total(events', IsTokenRefresh) == Total(events, IsTokenRefresh) + (if entry.change.Rotate? then 1 else 0)
      && Total(events', IsRegistrationCompleted) ==
           Total(events, IsRegistrationCompleted) + CompletedRegistration(entry)
  {
    hide Handle, TokenChange, TokenLineage, Total;
    HandleMatchesEvents(settings, s, request.call, request.now, request.jwtClock);
    var events' := Serve(settings, s, request).store.authEvents;
    if |events'| != |s.authEvents| {
      AppendTokenEvent(s.authEvents, events'[|s.authEvents|]);
    }
  }

  lemma ServeKeepsLedger(settings: Settings, w: World, request: Request)
    requires TokenInvariant(settings, w.store.tokens, w.store.drawn) && LedgerBalances(w)
    ensures LedgerBalances(World(Serve(settings, w.store, request).store,
      w.history + [Record(settings, w.store, request)]))
  {
    hide Handle, TokenChange, ApplyChange, TokenLineage, Total, LiveTokens, ReplacedTokens, ActiveInScope;
    var s, s' := w.store, Serve(settings, w.store, request).store;
    var entry := Record(settings, s, request);
    ServeKeepsTokens(settings, s, request);
    ServeCountsEvents(settings, s, request);
    ChangeCounts(settings, s.tokens, s.drawn, entry.change);
    TotalAppend(w.history, entry, IssuedTokens);
    TotalAppend(w.history, entry, BulkCount);
    TotalAppend(w.history, entry, CompletedRegistration);
  }

  /** The token ledger balances after every run. */
  lemma {:induction false} LedgerOfRun(settings: Settings, requests: seq<Request>)
    ensures LedgerBalances(Run(settings, requests))
    decreases |requests|
  {
    if requests == [] {
      assert LiveTokens([]) == {} && ReplacedTokens([]) == {};
    } else {
      var earlier, last := requests[..|requests| - 1], requests[|requests| - 1];
      LedgerOfRun(settings, earlier);
      RunKeepsTokens(settings, earlier);
      ServeKeepsLedger(settings, Run(settings, earlier), last);
    }
  }

  /** A refresh, whatever its outcome and ending, keeps the number of unrevoked rows. */
  lemma RefreshKeepsLiveCount(settings: Settings, s: Store, request: Request)
    requires TokenInvariant(settings, s.tokens, s.drawn) && request.call.RefreshCall?
    ensures |LiveTokens(Serve(settings, s, request).store.tokens)| == |LiveTokens(s.tokens)|
  {
    hide RefreshTokens, ApplyChange, TokenLineage, LiveTokens;
    var entry := Record(settings, s, request);
    ServeKeepsTokens(settings, s, request);
    ChangeCounts(settings, s.tokens, s.drawn, entry.change);
  }

  // ---------------------------------------------------------------------------------------------
  // Epochs
  // ---------------------------------------------------------------------------------------------

  ghost predicate ScopeIsRevoked(rows: seq<TokenRow>, userId: Uuid, scope: Scope) {
    forall i | 0 <= i < |rows| && InScope(rows[i], userId, scope) :: rows[i].isRevoked
  }

  /** A family that was cut off stays as it was, and nothing alive descends from it. */
  lemma CutFamilyIsDead(cut: seq<TokenRow>, rows: seq<TokenRow>, userId: Uuid, scope: Scope, i: nat)
    requires RotationForest(cut) && RotationForest(rows) && Evolves(cut, rows)
    requires ScopeIsRevoked(cut, userId, scope) && i < |cut| && InScope(cut[i], userId, scope)
    ensures Chain(rows, i) == Chain(cut, i)
    ensures forall j | j in Chain(rows, i) :: j < |cut| && rows[j].isRevoked
  {
    forall j | j in Chain(cut, i)
      ensures j < |cut| && cut[j].isRevoked
    {
      ChainOwner(cut, i, j);
    }
    RevokedChainIsClosed(cut, rows, i);
  }

  lemma SurvivorsAreYounger(cut: seq<TokenRow>, rows: seq<TokenRow>, userId: Uuid, scope: Scope, i: nat)
    requires RotationForest(cut) && RotationForest(rows) && Evolves(cut, rows)
    requires ScopeIsRevoked(cut, userId, scope)
    requires i < |rows| && !rows[i].isRevoked && InScope(rows[i], userId, scope)
    ensures RootOf(rows, i) >= |cut|
  {
    var root := RootOf(rows, i);
    Families(rows, i, i);
    if root < |cut| {
      CutFamilyIsDead(cut, rows, userId, scope, root);
      assert false;
    }
  }

  lemma BulkRevocationCuts(settings: Settings, s: Store, request: Request)
    requires TokenInvariant(settings, s.tokens, s.drawn)
    requires Record(settings, s, request).change.RevokeMany?
    ensures var change := Record(settings, s, request).change;
      ScopeIsRevoked(Serve(settings, s, request).store.tokens, change.userId, change.scope)
  {
    hide Handle, TokenChange, TokenLineage, RotationForest;
    ServeKeepsTokens(settings, s, request);
  }

  /** Every kept bulk revocation, by an administrator, a password change in any context or a reset, starts an epoch:
      after any run, the rows of its scope that existed then head chains of revoked rows that have not grown since, and
      every unrevoked row of the scope belongs to a family begun after it. */
  lemma {:induction false} ScopeEpoch(
    settings: Settings, requests: seq<Request>, k: nat, userId: Uuid, scope: Scope,
    cut: seq<TokenRow>, w: World, rows: seq<TokenRow>, i: nat)
    requires k < |requests|
    requires w == Run(settings, requests) && rows == w.store.tokens
      && cut == Run(settings, requests[..k + 1]).store.tokens
    requires var change := w.history[k].change; change.RevokeMany? && change.userId == userId && change.scope == scope
    requires i < |rows| && InScope(rows[i], userId, scope)
    ensures |cut| <= |rows|
    ensures !rows[i].isRevoked ==> RootOf(rows, i) >= |cut|
    ensures i < |cut| ==> Chain(rows, i) == Chain(cut, i) && forall j | j in Chain(rows, i) ::
      j < |cut| && rows[j].isRevoked
  {
    hide Run, Serve, Record, TokenLineage, RotationForest, Chain;
    EntryOfRun(settings, requests, k);
    RunKeepsTokens(settings, requests[..k]);
    BulkRevocationCuts(settings, Run(settings, requests[..k]).store, requests[k]);
    RunKeepsTokens(settings, requests[..k + 1]);
    RunKeepsTokens(settings, requests);
    RunEvolves(settings, requests, k + 1);
    if !rows[i].isRevoked {
      SurvivorsAreYounger(cut, rows, userId, scope, i);
    }
    if i < |cut| {
      CutFamilyIsDead(cut, rows, userId, scope, i);
    }
  }

  /** A kept password change in the plain PERSONAL context, or a kept reset, of this user. */
  predicate StartsEpoch(entry: Entry, userId: Uuid) {
    && entry.kept && entry.reply.PasswordSet? && entry.reply.update.userId == userId
    && (entry.request.call.ConfirmResetCall?
        || (entry.request.call.ChangeCall? && entry.request.call.context == PERSONAL_CONTEXT))
  }

  lemma EpochRevokesPersonal(settings: Settings, s: Store, request: Request, userId: Uuid)
    requires StartsEpoch(Record(settings, s, request), userId)
    ensures Record(settings, s, request).change == RevokeMany(userId, ContextScope(PERSONAL_CONTEXT), request.now)
  {
    hide ConfirmReset, RevokeScope;
  }

  /** Password epoch: after any run, every PERSONAL row of a user that existed at one of the user's PERSONAL password
      changes or resets heads a chain of revoked rows that has not grown since, and every unrevoked PERSONAL row of the
      user belongs to a family begun after it. */
  lemma {:induction false} PasswordEpoch(
    settings: Settings, requests: seq<Request>, k: nat, userId: Uuid,
    cut: seq<TokenRow>, w: World, rows: seq<TokenRow>, i: nat)
    requires k < |requests|
    requires w == Run(settings, requests) && rows == w.store.tokens
      && cut == Run(settings, requests[..k + 1]).store.tokens
    requires StartsEpoch(w.history[k], userId)
    requires i < |rows| && rows[i].userId == userId && rows[i].context.contextType == PERSONAL
    ensures |cut| <= |rows|
    ensures !rows[i].isRevoked ==> RootOf(rows, i) >= |cut|
    ensures i < |cut| ==> Chain(rows, i) == Chain(cut, i) && forall j | j in Chain(rows, i) ::
      j < |cut| && rows[j].isRevoked
  {
    hide Run, Serve, Record, StartsEpoch;
    EntryOfRun(settings, requests, k);
    EpochRevokesPersonal(settings, Run(settings, requests[..k]).store, requests[k], userId);
    ScopeEpoch(settings, requests, k, userId, ContextScope(PERSONAL_CONTEXT), cut, w, rows, i);
  }

  // ---------------------------------------------------------------------------------------------
  // Acceptance in reachable stores
  // ---------------------------------------------------------------------------------------------

  /** In every reachable store, on one clock that does not go back, presenting any string to refresh succeeds if and
      only if it is the token of an unrevoked row before the second in which that row expires: the JWT drops the
      fraction that the row keeps, so in the last fraction of a second an unexpired row is refused, with the error of an
      expired token. The new tokens carry that row's user and context. */
  lemma {:induction false} RefreshInReachableStore(
    settings: Settings, requests: seq<Request>, clock: Time, s: Store, token: Jwt, now: Time)
    requires Timely(requests, clock) && s == Run(settings, requests).store && clock <= now
    ensures
      var r := RefreshTokens(settings, s, token, now, now).1;
      var i := FindToken(s.tokens, Sha256(token));
      && (r.Ok? <==> i.Some? && !s.tokens[i.value].isRevoked && Seconds(now) < Seconds(s.tokens[i.value].expiresAt))
      && (i.Some? && Seconds(now) == Seconds(s.tokens[i.value].expiresAt) ==> r == Err(ExpiredTokenError))
      && (r.Ok? ==> IsPairFor(settings, r.value, s.tokens[i.value].userId, s.tokens[i.value].context, now))
  {
    hide Run, RotationForest;
    RunKeepsTokens(settings, requests);
    RunKeepsChronology(settings, requests, clock);
    match FindToken(s.tokens, Sha256(token))
    case None => UnknownTokenIsRefused(settings, s, token, now, now);
    case Some(i) =>
      RefreshOfStoredToken(settings, s, i, now, now);
      if !s.tokens[i].isRevoked && Seconds(now) < Seconds(s.tokens[i].expiresAt) {
        RotationOutcome(settings, s, i, now);
      }
  }

  /** In every reachable store, the calls that write before they raise are the logins past the gate: any other call that
      raises has written nothing, even outside a transaction. */
  lemma {:induction false} RaisingCallsInReachableStore(
    settings: Settings, requests: seq<Request>, s: Store, request: Request)
    requires s == Run(settings, requests).store
    requires Handle(settings, s, request.call, request.now, request.jwtClock).1.Raised?
    ensures Handle(settings, s, request.call, request.now, request.jwtClock).0 == s <==> !LoginPastGate(request.call)
  {
    hide Run, LoginRequest, RefreshTokens, RevokeToken;
    RunKeepsTokens(settings, requests);
    match request.call
    case LoginCall(resolved, status, password, identifier, session) =>
      LoginWrites(settings, s, resolved, status, password, identifier, session, request.now);
    case RefreshCall(token) =>
      RefreshWrites(settings, s, token, request.now, request.jwtClock);
      assert RefreshTokens(settings, s, token, request.now, request.jwtClock).1.Err?;
    case RevokeCall(token) =>
      RevokeIsExact(settings, s, token, request.now, request.jwtClock);
      assert RevokeToken(settings, s, token, request.now, request.jwtClock).1.Err?;
    case _ =>
  }
}
