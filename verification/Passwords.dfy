/** app/services/password_service.py and the password_resets table. */
module Passwords {
  import opened Basics
  import opened Claims
  import opened Tables
  import opened TokenTable

  datatype PasswordUpdate = PasswordUpdate(done: bool, userId: Uuid)

  /** The first unused reset row with this hash that expires after `now`. */
  function FindActiveReset(resets: seq<ResetRow>, hash: Digest<Secret>, now: Time): (found: Option<nat>)
    ensures found.Some? ==> found.value < |resets| && IsActiveReset(resets[found.value], hash, now)
    ensures found.Some? ==> forall j | 0 <= j < found.value :: !IsActiveReset(resets[j], hash, now)
    ensures found.None? ==> forall j | 0 <= j < |resets| :: !IsActiveReset(resets[j], hash, now)
  {
    if resets == [] then None
    else match FindActiveReset(resets[..|resets| - 1], hash, now)
      case Some(i) => Some(i)
      case None => if IsActiveReset(resets[|resets| - 1], hash, now) then Some(|resets| - 1) else None
  }

  predicate IsActiveReset(row: ResetRow, hash: Digest<Secret>, now: Time) {
    row.tokenHash == hash && !row.isUsed && row.expiresAt > now
  }

  function WithPassword(credential: Credential, password: string, now: Time): Credential {
    credential.(passwordHash := HashPassword(password), passwordChangedAt := now)
  }

  function UsedReset(row: ResetRow, now: Time): ResetRow {
    row.(isUsed := true, usedAt := Some(now))
  }

  /** The bulk-revocation filters of a request context. */
  function ContextScope(context: Context): Scope {
    Scope(Some(context.contextType), context.organizationId, context.membershipId)
  }

  // ---------------------------------------------------------------------------------------------
  // The calls
  // ---------------------------------------------------------------------------------------------

  function ChangePassword(
    s: Store, userId: Uuid, currentPassword: string, newPassword: string, context: Context, now: Time)
    : (Store, Result<PasswordUpdate>)
  {
    if userId !in s.credentials then (s, Err(InvalidCredentialsError))
    else
      var credential := s.credentials[userId];
      if !credential.isActive then (s, Err(InvalidCredentialsError))
      else if !VerifyPassword(currentPassword, credential.passwordHash) then (s, Err(InvalidCredentialsError))
      else if currentPassword == newPassword then (s, Err(InvalidCredentialsError))
      else
        (WithSecurityEvent(
           s.(credentials := s.credentials[userId := WithPassword(credential, newPassword, now)],
              tokens := RevokeScope(s.tokens, userId, ContextScope(context), now)),
           SecurityEvent(Some(userId), context, PASSWORD_CHANGED)),
         Ok(PasswordUpdate(true, userId)))
  }

  /** `resolved` is the User Service's answer for the identifier; an unknown identifier changes nothing. */
  function RequestReset(
    settings: Settings, s: Store, resolved: Result<Option<Uuid>>, now: Time): (Store, Result<Option<Secret>>)
  {
    match resolved
    case Err(e) => (s, Err(e))
    case Ok(None) => (s, Ok(None))
    case Ok(Some(userId)) =>
      (WithSecurityEvent(
         s.(resets := s.resets + [ResetRow(userId, Sha256(s.drawn), now + settings.resetLifetime, false, None)],
            drawn := s.drawn + 1),
         SecurityEvent(Some(userId), PERSONAL_CONTEXT, PASSWORD_RESET_REQUESTED)),
       Ok(Some(s.drawn)))
  }

  function ConfirmReset(s: Store, secret: Secret, newPassword: string, now: Time): (Store, Result<PasswordUpdate>) {
    match FindActiveReset(s.resets, Sha256(secret), now)
    case None => (s, Err(PasswordResetError))
    case Some(index) =>
      var userId := s.resets[index].userId;
      if userId !in s.credentials then (s, Err(PasswordResetError))
      else
        (WithSecurityEvent(
           s.(credentials := s.credentials[userId := WithPassword(s.credentials[userId], newPassword, now)],
              resets := s.resets[index := UsedReset(s.resets[index], now)],
              tokens := RevokeScope(s.tokens, userId, ContextScope(PERSONAL_CONTEXT), now)),
           SecurityEvent(Some(userId), PERSONAL_CONTEXT, PASSWORD_RESET_COMPLETED)),
         Ok(PasswordUpdate(true, userId)))
  }

  /** What a password update does to the token table: it revokes exactly the unrevoked rows of the user in the context
      of the update, an id that the context does not carry letting every row pass. */
  ghost predicate CutsContext(s: Store, s': Store, userId: Uuid, context: Context, now: Time) {
    && |s'.tokens| == |s.tokens|
    && forall i | 0 <= i < |s.tokens| ::
         var row := s.tokens[i];
         s'.tokens[i] ==
           if !row.isRevoked
             && PassesFilters(row, userId, Some(context.contextType), context.organizationId, context.membershipId)
           then row.(isRevoked := true, revokedAt := Some(now))
           else row
  }

  /** A change succeeds exactly on an active credential, with its own password and a different new one, and is refused
      as invalid credentials otherwise. It replaces the password, dates it, cuts its own context and logs one event;
      nobody else's credential, no row of another context and no other table changes. */
  lemma ChangeOutcome(
    s: Store, userId: Uuid, currentPassword: string, newPassword: string, context: Context, now: Time)
    ensures
      var (s', r) := ChangePassword(s, userId, currentPassword, newPassword, context, now);
      && (r.Ok? <==>
            && userId in s.credentials && s.credentials[userId].isActive
            && VerifyPassword(currentPassword, s.credentials[userId].passwordHash) && currentPassword != newPassword)
      && (r.Err? ==> s' == s && r == Err(InvalidCredentialsError))
      && (r.Ok? ==>
            && r.value == PasswordUpdate(true, userId)
            && userId in s'.credentials
            && VerifyPassword(newPassword, s'.credentials[userId].passwordHash)
            && !VerifyPassword(currentPassword, s'.credentials[userId].passwordHash)
            && s'.credentials[userId].passwordChangedAt == now
            && s'.credentials[userId] == s.credentials[userId].(
                 passwordHash := s'.credentials[userId].passwordHash, passwordChangedAt := now)
            && s'.credentials == s.credentials[userId := s'.credentials[userId]]
            && CutsContext(s, s', userId, context, now)
            && (forall i | 0 <= i < |s.tokens| && s.tokens[i].context.contextType != context.contextType ::
                  s'.tokens[i] == s.tokens[i])
            && s'.securityEvents == s.securityEvents + [SecurityEvent(Some(userId), context, PASSWORD_CHANGED)]
            && s'.resets == s.resets && s'.attempts == s.attempts && s'.authEvents == s.authEvents
            && s'.drawn == s.drawn)
  {
    RevocationByColumns(
      s.tokens, userId, Some(context.contextType), context.organizationId, context.membershipId, now);
  }

  // ---------------------------------------------------------------------------------------------
  // Reset rows
  // ---------------------------------------------------------------------------------------------

  function UsedResets(resets: seq<ResetRow>): set<nat> {
    set i | 0 <= i < |resets| && resets[i].isUsed
  }

  function IsResetRequested(event: SecurityEvent): nat { if event.eventType.PASSWORD_RESET_REQUESTED? then 1 else 0 }

  function IsResetCompleted(event: SecurityEvent): nat { if event.eventType.PASSWORD_RESET_COMPLETED? then 1 else 0 }

  /** `usedAt` is set exactly on used rows and lies before the expiry; secrets are drawn, in climbing order, so the
      UNIQUE constraint on token_hash holds. */
  ghost predicate ResetRows(resets: seq<ResetRow>, drawn: nat) {
    && (forall i | 0 <= i < |resets| ::
          && (resets[i].isUsed <==> resets[i].usedAt.Some?)
          && (resets[i].isUsed ==> resets[i].usedAt.value < resets[i].expiresAt)
          && resets[i].tokenHash.preimage < drawn)
    && (forall i, j | 0 <= i < j < |resets| :: resets[i].tokenHash.preimage < resets[j].tokenHash.preimage)
  }

  /** Requested-reset events match all rows, completed-reset events match the used ones. */
  ghost predicate ResetInvariant(s: Store) {
    && ResetRows(s.resets, s.drawn)
    && |s.resets| == Total(s.securityEvents, IsResetRequested)
    && |UsedResets(s.resets)| == Total(s.securityEvents, IsResetCompleted)
  }

  /** A reset table only grows, and a used row is never written again. */
  ghost predicate ResetsEvolve(resets: seq<ResetRow>, resets': seq<ResetRow>) {
    && |resets| <= |resets'|
    && (forall i | 0 <= i < |resets| ::
          && resets'[i].userId == resets[i].userId
          && resets'[i].tokenHash == resets[i].tokenHash
          && resets'[i].expiresAt == resets[i].expiresAt
          && (resets[i].isUsed ==> resets'[i] == resets[i]))
  }

  lemma SecurityEventCounts(events: seq<SecurityEvent>, event: SecurityEvent)
    ensures Total(events + [event], IsResetRequested) == Total(events, IsResetRequested) + IsResetRequested(event)
    ensures Total(events + [event], IsResetCompleted) == Total(events, IsResetCompleted) + IsResetCompleted(event)
  {
    TotalAppend(events, event, IsResetRequested);
    TotalAppend(events, event, IsResetCompleted);
  }

  lemma NewRowIsUnused(resets: seq<ResetRow>, row: ResetRow)
    requires !row.isUsed
    ensures UsedResets(resets + [row]) == UsedResets(resets)
  {
  }

  /** A request for a known identifier appends one unused row for a secret that no row has, and one event; for an
      unknown one, or when the User Service fails, it changes nothing at all. */
  lemma RequestKeepsResets(settings: Settings, s: Store, resolved: Result<Option<Uuid>>, now: Time)
    requires ResetInvariant(s)
    ensures var (s', r) := RequestReset(settings, s, resolved, now);
      && ResetInvariant(s') && ResetsEvolve(s.resets, s'.resets)
      && (resolved.Ok? && resolved.value.Some? ==>
            && r.Ok? && r.value.Some?
            && s'.resets == s.resets
                 + [ResetRow(resolved.value.value, Sha256(r.value.value), now + settings.resetLifetime, false, None)]
            && (forall i | 0 <= i < |s.resets| :: s.resets[i].tokenHash != Sha256(r.value.value))
            && s'.securityEvents == s.securityEvents
                 + [SecurityEvent(resolved.value, PERSONAL_CONTEXT, PASSWORD_RESET_REQUESTED)]
            && s' == s.(resets := s'.resets, securityEvents := s'.securityEvents, drawn := s'.drawn))
      && (resolved.Err? || resolved.value.None? ==> s' == s)
      && (resolved.Err? ==> r == Err(resolved.error))
      && (resolved == Ok(None) ==> r == Ok(None))
  {
    hide Total, UsedResets;
    if resolved.Ok? && resolved.value.Some? {
      var s' := RequestReset(settings, s, resolved, now).0;
      SecurityEventCounts(s.securityEvents, s'.securityEvents[|s.securityEvents|]);
      NewRowIsUnused(s.resets, s'.resets[|s.resets|]);
    }
  }

  lemma SecretsAreUnique(resets: seq<ResetRow>, drawn: nat)
    requires ResetRows(resets, drawn)
    ensures forall i, j | 0 <= i < |resets| && 0 <= j < |resets| && resets[i].tokenHash == resets[j].tokenHash :: i == j
  {
  }

  /** The row holds the secret, is unused and unexpired, and its user has a credential. */
  predicate Confirms(s: Store, i: nat, secret: Secret, now: Time)
    requires i < |s.resets|
  {
    && s.resets[i].tokenHash == Sha256(secret) && !s.resets[i].isUsed && now < s.resets[i].expiresAt
    && s.resets[i].userId in s.credentials
  }

  /** A confirmation succeeds exactly on an unused, unexpired row whose user has a credential, and is refused as a reset
      error otherwise. It uses up that very row, replaces and dates the password, cuts the user's PERSONAL tokens and
      logs one event; nothing else changes. */
  lemma ConfirmOutcome(s: Store, secret: Secret, newPassword: string, now: Time)
    requires ResetRows(s.resets, s.drawn)
    ensures var (s', r) := ConfirmReset(s, secret, newPassword, now);
      && (r.Ok? <==> exists i | 0 <= i < |s.resets| :: Confirms(s, i, secret, now))
      && (r.Err? ==> s' == s && r == Err(PasswordResetError))
      && (r.Ok? ==> exists i | 0 <= i < |s.resets| ::
            && Confirms(s, i, secret, now)
            && r.value == PasswordUpdate(true, s.resets[i].userId)
            && s'.resets == s.resets[i := s.resets[i].(isUsed := true, usedAt := Some(now))])
      && (r.Ok? ==>
            var userId := r.value.userId;
            && userId in s.credentials && userId in s'.credentials
            && VerifyPassword(newPassword, s'.credentials[userId].passwordHash)
            && s'.credentials[userId] == s.credentials[userId].(
                 passwordHash := s'.credentials[userId].passwordHash, passwordChangedAt := now)
            && s'.credentials == s.credentials[userId := s'.credentials[userId]]
            && CutsContext(s, s', userId, Context(Plain("PERSONAL"), None, None), now)
            && (forall i | 0 <= i < |s.tokens| && s.tokens[i].context.contextType != Plain("PERSONAL") ::
                  s'.tokens[i] == s.tokens[i])
            && s'.securityEvents ==
                 s.securityEvents + [SecurityEvent(Some(userId), PERSONAL_CONTEXT, PASSWORD_RESET_COMPLETED)]
            && s'.attempts == s.attempts && s'.authEvents == s.authEvents && s'.drawn == s.drawn)
  {
    SecretsAreUnique(s.resets, s.drawn);
    var found := FindActiveReset(s.resets, Sha256(secret), now);
    assert found.Some? ==> s.resets[found.value].tokenHash == Sha256(secret);
    var (s', r) := ConfirmReset(s, secret, newPassword, now);
    if r.Ok? {
      assert Confirms(s, found.value, secret, now);
      RevocationByColumns(s.tokens, r.value.userId, Some(Plain("PERSONAL")), None, None, now);
    }
  }

  lemma UseKeepsRows(resets: seq<ResetRow>, drawn: nat, i: nat, now: Time)
    requires ResetRows(resets, drawn) && i < |resets| && !resets[i].isUsed && now < resets[i].expiresAt
    ensures var resets' := resets[i := UsedReset(resets[i], now)];
      && ResetRows(resets', drawn) && ResetsEvolve(resets, resets')
      && |UsedResets(resets')| == |UsedResets(resets)| + 1
  {
    var resets' := resets[i := UsedReset(resets[i], now)];
    assert UsedResets(resets') == UsedResets(resets) + {i};
  }

  lemma ConfirmKeepsResets(s: Store, secret: Secret, newPassword: string, now: Time)
    requires ResetInvariant(s)
    ensures var s' := ConfirmReset(s, secret, newPassword, now).0;
      ResetInvariant(s') && ResetsEvolve(s.resets, s'.resets)
  {
    var (s', r) := ConfirmReset(s, secret, newPassword, now);
    if r.Ok? {
      var used := FindActiveReset(s.resets, Sha256(secret), now).value;
      SecurityEventCounts(s.securityEvents, s'.securityEvents[|s.securityEvents|]);
      UseKeepsRows(s.resets, s.drawn, used, now);
    }
  }

  /** A used secret is dead: no later confirmation with it succeeds. */
  lemma UsedSecretIsDead(s: Store, secret: Secret, newPassword: string, now: Time, i: nat)
    requires ResetRows(s.resets, s.drawn) && i < |s.resets|
    requires s.resets[i].tokenHash == Sha256(secret) && s.resets[i].isUsed
    ensures ConfirmReset(s, secret, newPassword, now) == (s, Err(PasswordResetError))
  {
    SecretsAreUnique(s.resets, s.drawn);
    assert FindActiveReset(s.resets, Sha256(secret), now).None?;
  }

  /** Request, then confirm: the secret that a request returns confirms, in the store it leaves, until the reset
      lifetime is over and for a user with a credential only; it uses up the very row of the request. */
  lemma RequestThenConfirm(
    settings: Settings, s: Store, userId: Uuid, requestedAt: Time, newPassword: string, now: Time)
    requires ResetInvariant(s)
    ensures
      var (requested, r) := RequestReset(settings, s, Ok(Some(userId)), requestedAt);
      var (s', confirmed) := ConfirmReset(requested, r.value.value, newPassword, now);
      && (confirmed.Ok? <==> now < requestedAt + settings.resetLifetime && userId in s.credentials)
      && (confirmed.Ok? ==>
            && confirmed.value.userId == userId
            && s'.resets == s.resets + [UsedReset(requested.resets[|s.resets|], now)]
            && VerifyPassword(newPassword, s'.credentials[userId].passwordHash))
  {
    hide ResetInvariant;
    RequestKeepsResets(settings, s, Ok(Some(userId)), requestedAt);
    var (requested, r) := RequestReset(settings, s, Ok(Some(userId)), requestedAt);
    var row := requested.resets[|s.resets|];
    assert requested.resets[..|s.resets|] == s.resets;
    assert IsActiveReset(row, Sha256(r.value.value), now) <==> now < requestedAt + settings.resetLifetime;
    assert FindActiveReset(s.resets, Sha256(r.value.value), now).None?;
  }
}
