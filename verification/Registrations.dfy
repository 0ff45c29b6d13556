/** Retries of one registration, served from any reachable store. */
module Registrations {
  import opened Basics
  import opened Claims
  import opened Tables
  import opened Accounts
  import opened Runs
  import opened TokenRuns

  /** Every request is a registration that the User Service answers with this user or with a failure: the attempts made
      with one idempotency key. */
  predicate RetriesOf(requests: seq<Request>, userId: Uuid) {
    forall i | 0 <= i < |requests| ::
      requests[i].call.RegisterCall? && (requests[i].call.created.Ok? ==> requests[i].call.created.value == userId)
  }

  /** The User Service answers this attempt, and nothing rolls it back: known before the service is called. */
  predicate IsKeptAttempt(request: Request) {
    request.call.RegisterCall? && request.call.created.Ok?
      && (request.ending.Transaction? ==> !request.ending.laterFailure)
  }

  /** The credential that the first kept attempt creates, if there is one. */
  function FirstCredential(requests: seq<Request>): Option<Credential> {
    if requests == [] then None
    else
      var earlier, last := FirstCredential(requests[..|requests| - 1]), requests[|requests| - 1];
      if earlier.Some? then earlier
      else if IsKeptAttempt(last) then Some(NewCredential(last.call.password, last.now))
      else None
  }

  function KeptAttempt(request: Request): nat { if IsKeptAttempt(request) then 1 else 0 }

  /** An unrevoked, unlinked row of the user's PERSONAL context. */
  predicate IsFreshRow(row: TokenRow, userId: Uuid) {
    row.userId == userId && row.context == PERSONAL_CONTEXT && !row.isRevoked && row.replacedBy.None?
      && row.lastUsedAt.None?
  }

  /** What a series of attempts did to the store: one credential at most, one token row and one completion event for
      each of the `kept` attempts, and nothing else. */
  ghost predicate Registers(s: Store, s': Store, userId: Uuid, first: Option<Credential>, kept: nat) {
    && s'.credentials ==
         (if userId !in s.credentials && first.Some? then s.credentials[userId := first.value] else s.credentials)
    && |s'.tokens| == |s.tokens| + kept && s'.tokens[..|s.tokens|] == s.tokens
    && (forall i | |s.tokens| <= i < |s'.tokens| :: IsFreshRow(s'.tokens[i], userId))
    && |s'.authEvents| == |s.authEvents| + kept && s'.authEvents[..|s.authEvents|] == s.authEvents
    && (forall i | |s.authEvents| <= i < |s'.authEvents| ::
          s'.authEvents[i] == AuthEvent(Some(userId), PERSONAL_CONTEXT, REGISTRATION_COMPLETED, None))
    && s'.resets == s.resets && s'.attempts == s.attempts && s'.securityEvents == s.securityEvents
  }

  lemma AttemptRegisters(settings: Settings, s: Store, request: Request, userId: Uuid)
    requires RetriesOf([request], userId)
    ensures
      var first := if IsKeptAttempt(request) then Some(NewCredential(request.call.password, request.now)) else None;
      Registers(s, Serve(settings, s, request).store, userId, first, KeptAttempt(request))
    ensures CompletedRegistration(Record(settings, s, request)) == KeptAttempt(request)
  {
    assert [request][0] == request;
  }

  lemma RegistersInTurn(
    s: Store, s': Store, s'': Store, userId: Uuid, a: Option<Credential>, m: nat, b: Option<Credential>, n: nat)
    requires Registers(s, s', userId, a, m) && Registers(s', s'', userId, b, n)
    ensures Registers(s, s'', userId, if a.Some? then a else b, m + n)
  {
    assert s''.tokens[..|s.tokens|] == s''.tokens[..|s'.tokens|][..|s.tokens|];
    assert s''.authEvents[..|s.authEvents|] == s''.authEvents[..|s'.authEvents|][..|s.authEvents|];
    forall i | |s.tokens| <= i < |s''.tokens|
      ensures IsFreshRow(s''.tokens[i], userId)
    {
      assert i < |s'.tokens| ==> s''.tokens[i] == s''.tokens[..|s'.tokens|][i] == s'.tokens[i];
    }
    forall i | |s.authEvents| <= i < |s''.authEvents|
      ensures s''.authEvents[i] == AuthEvent(Some(userId), PERSONAL_CONTEXT, REGISTRATION_COMPLETED, None)
    {
      assert i < |s'.authEvents| ==> s''.authEvents[i] == s''.authEvents[..|s'.authEvents|][i] == s'.authEvents[i];
    }
  }

  lemma RetryStep(settings: Settings, s: Store, w: World, earlier: seq<Request>, last: Request, userId: Uuid)
    requires Registers(s, w.store, userId, FirstCredential(earlier), Total(earlier, KeptAttempt))
      && RetriesOf([last], userId)
    ensures Registers(s, Serve(settings, w.store, last).store, userId, FirstCredential(earlier + [last]),
      Total(earlier + [last], KeptAttempt))
    ensures Total(w.history + [Record(settings, w.store, last)], CompletedRegistration) ==
      Total(w.history, CompletedRegistration) + Total(earlier + [last], KeptAttempt) - Total(earlier, KeptAttempt)
  {
    hide Serve, Record, Registers, CompletedRegistration, KeptAttempt, Total;
    assert (earlier + [last])[..|earlier|] == earlier;
    TotalAppend(earlier, last, KeptAttempt);
    TotalAppend(w.history, Record(settings, w.store, last), CompletedRegistration);
    AttemptRegisters(settings, w.store, last, userId);
    var first := if IsKeptAttempt(last) then Some(NewCredential(last.call.password, last.now)) else None;
    RegistersInTurn(s, w.store, Serve(settings, w.store, last).store, userId,
                    FirstCredential(earlier), Total(earlier, KeptAttempt), first, KeptAttempt(last));
  }

  /** Registration retries, from any reachable store: however many attempts succeed, fail or are rolled back, a
      credential that was there stays as it is, a missing one is the first kept attempt's for ever, nobody else's
      changes; each kept attempt, and no other, appends one unrevoked token row of the user and one completion event; no
      other row is touched. */
  lemma {:induction false} RegistrationRetries(
    settings: Settings, requests: seq<Request>, retries: seq<Request>, userId: Uuid)
    requires RetriesOf(retries, userId)
    ensures
      var before, after := Run(settings, requests), Run(settings, requests + retries);
      && Registers(before.store, after.store, userId, FirstCredential(retries), Total(retries, KeptAttempt))
      && Total(after.history, CompletedRegistration) ==
           Total(before.history, CompletedRegistration) + Total(retries, KeptAttempt)
    decreases |retries|
  {
    hide *;
    if retries == [] {
      assert requests + retries == requests;
      NothingRegisters(Run(settings, requests).store, userId);
    } else {
      var earlier, last := retries[..|retries| - 1], retries[|retries| - 1];
      LastRetry(retries, userId);
      RegistrationRetries(settings, requests, earlier, userId);
      assert requests + retries == (requests + earlier) + [last] && retries == earlier + [last];
      RunExtends(settings, requests + earlier, last);
      RetryStep(settings, Run(settings, requests).store, Run(settings, requests + earlier), earlier, last, userId);
    }
  }

  lemma {:induction false} LastRetry(retries: seq<Request>, userId: Uuid)
    requires RetriesOf(retries, userId) && retries != []
    ensures RetriesOf(retries[..|retries| - 1], userId) && RetriesOf([retries[|retries| - 1]], userId)
  {
  }

  lemma NothingRegisters(s: Store, userId: Uuid)
    ensures Registers(s, s, userId, FirstCredential([]), Total([], KeptAttempt)) && Total([], KeptAttempt) == 0
  {
  }
}
