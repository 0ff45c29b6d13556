# Verification model of the BuildOS authentication service

This project models the state that the authentication service keeps — refresh tokens, credentials, password
resets, login attempts and events — as a state machine driven by unbounded sequences of requests, and proves what
holds in every reachable state and over every run.

It has two layers.

* **Specification and theory.** Every service call is a function from a store (all tables, as values) to a store and
  a reply. `Runs.Handle` collects the calls, `Runs.Serve` puts one in its transaction, `Runs.Run` serves any
  sequence of requests from an empty database and records a history. The theorems are about `Run`: the rotation
  forest, single exchange, the token ledger, the password epoch, the lockout cache and its throttling bound, the audit
  trail, single-use resets, password history, status synchronisation and registration retries.
* **The services themselves.** The repositories and services are classes over one SQLAlchemy-like `Database.Session`,
  whose rows are mutable objects that are updated in place, field by field, in the order of the Python code. Each
  method is proved to move the session exactly as its specification function says; `Application.Services.Dispatch`
  collects them. `Transactions.Connection.ServeRequest` is `get_db` around a request: it loads a session of its own from
  the committed tables, lets the services write to it, and flushes it back or drops it. Whatever the request and however
  it ends, the committed tables move as `Serve` does. `Transactions.ServeAll` serves a whole sequence so, from a new
  database: every theorem about runs is a theorem about the services behind `get_db`.

| file | contents |
|---|---|
| `Basics.dfy` | results and errors, digests, password hashes, sums over logs |
| `Claims.dfy` | JWT minting, validation, context extraction |
| `Tables.dfy` | rows and the store |
| `TokenTable.dfy` | lookups, scoped revocation, the theory of chains |
| `TokenProtocol.dfy` | token service calls, lineage, table changes |
| `Lockout.dfy` | authenticate, lock predicates, the log, audit |
| `Passwords.dfy`, `Accounts.dfy` | password, reset, registration, login and status calls |
| `Runs.dfy` | calls, transactions, runs, histories |
| `Outcomes.dfy` | what each call does and answers, on columns and literal values |
| `TokenRuns.dfy`, `AccountRuns.dfy`, `Throttling.dfy`, `Registrations.dfy`, `Observations.dfy` | theorems over runs |
| `Database.dfy` | the session, its row objects, loading and flushing |
| `TokenRepositories.dfy`, `TokenServices.dfy`, `AuthenticationServices.dfy`, `PasswordServices.dfy`, `AccountServices.dfy` | repositories and services, step by step |
| `Application.dfy`, `Transactions.dfy` | wiring and refinement; the session and transaction of each request |

`dafny verify dfyconfig.toml` verifies the whole project.

## How to read the statements

* **Requests are serial.** A request is one atomic step. The token lookup takes no row lock, so nothing is claimed
  about two requests that interleave on the same rows.
* **Time** is an integer number of microseconds. A JWT carries whole seconds (`Claims.Seconds`), a row the full instant.
  `Timely(requests, clock)` says that the service's clock never goes back and has reached `clock`; only what compares the
  instants of different requests needs it: the lifetimes along a chain and acceptance on one clock. The JWT library reads its own clock (`jwtClock`), which is unconstrained unless a statement
  says otherwise. Columns filled by the database's clock (`attempted_at`, the first `password_changed_at`) take the
  instant of the request.
* **Calls on columns.** The definitions of the calls are read against `Outcomes.dfy` and the outcome lemmas of `Claims`,
  `TokenTable`, `Passwords` and `Accounts`: they say what a call writes and answers with column values, literal statuses
  and the settings' own fields. `Observations.dfy` lifts them to whole runs.
* **Settings** are symbolic. Statements about lockout need `maxFailedLogins >= 1`, the floor of the throttling bound
  needs a positive lockout; nothing else is required of them.
* **Random identifiers** (`uuid4`, `token_urlsafe`) are drawn from a counter that no rollback turns back. SHA-256 is
  injective, a password verifies against a hash exactly when the hash was made from it, and a signed token determines its
  payload and key. Row ids are positions in insertion order.
* **Endings.** A request either keeps its writes (`Keep`: the service is called directly) or runs inside `get_db`
  (`Transaction`), which rolls back when the call, or anything after it, raises. Runs mix both.
* **Lockout.** The counter, the lock, the audit trail and the throttling bound are about evaluations that are in the log.
  A refused login raises, so `get_db` rolls back the very attempt that it logged: request rate limits apart, the login
  endpoint evaluates any number of wrong passwords and the credential never locks
  (`Throttling.RefusedLoginsLeaveNoTrace`, `Throttling.LoginsAreNotThrottled`). An
  evaluation is logged if and only if its request keeps its refusals (`Throttling.EvaluationIsLogged`); under that
  condition, which a caller can check beforehand, the bound holds of all evaluations
  (`Throttling.ThrottlingOfKeptRefusals`), and without it of all but the rolled-back ones.
* **Answers of the User Service and the Session Service** are arguments of the calls, errors included.

Where the code and its own words disagree, the model follows the code: docs/api/AUTH_API_CONTRACT.md:527 lists account
lockout, which the login endpoint never reaches (above); the docstring of `TokenService.revoke_all`
announces context filtering for later, while the code already filters; the API contract says that a refresh token must
match its user subject, and on stored tokens that check can never fail (`TokenProtocol.StoredClaimsAgree`).

## Model

In order: results over runs and over whole requests; the theory they rest on; the repositories and services, step by step;
helpers.

| member | source | states |
|---|---|---|
| `TokenRuns.FamiliesOfReachableStore` | app/repositories/token_repository.py:177-192 | in every reachable store families are disjoint chains with one user, one context and at most one unrevoked row, the last; links are injective and point forward from revoked rows |
| `TokenRuns.FamilyLifetime` | app/services/token_service.py:100-102 | the k-th token of a family expires at most k lifetimes after the root was issued and not before its predecessor |
| `TokenRuns.RevocationIsPermanent` | app/repositories/token_repository.py:108-192 | over any run a revoked row is never written again; revoked_at is set exactly on revoked rows, last_used_at exactly on rotated ones |
| `TokenRuns.ExchangedAtMostOnce` | app/services/token_service.py:156-205 | after a kept successful refresh every later refresh of that token raises |
| `TokenRuns.LedgerOfRun` | app/services/token_service.py:104-283 | unrevoked rows are tokens issued outside refresh minus TOKEN_REVOKED events minus the sum of bulk counts; TOKEN_REFRESH events are the replaced rows; REGISTRATION_COMPLETED events are the kept registrations |
| `TokenRuns.RefreshKeepsLiveCount` | app/services/token_service.py:182-205 | refresh, successful or not, keeps the number of unrevoked rows |
| `TokenRuns.ScopeEpoch` | app/services/token_service.py:285-308 | after any run, the rows of a scope that existed at a kept bulk revocation of it, by any call, head dead chains that have not grown since, and every unrevoked row of the scope belongs to a family begun later |
| `TokenRuns.PasswordEpoch` | app/services/password_service.py:119-131 | the same for the PERSONAL rows of a user and each PERSONAL password change or reset of that user |
| `TokenRuns.RefreshInReachableStore` | app/services/token_service.py:118-217 | in every reachable store, on one clock, any string refreshes if and only if it is the token of an unrevoked row before the second in which the row expires, and both new tokens then carry that row's user and context for their lifetimes; in the last fraction of a second the answer is that of an expired token |
| `TokenRuns.RaisingCallsInReachableStore` | app/api/v1/auth.py:181-208 | in every reachable store a raising call has written something if and only if it is a login past the gate |
| `TokenRuns.RunKeepsTokens` | app/services/token_service.py:67-308 | lineage and rotation forest hold after every run, rolled-back requests and clocks that go back included |
| `TokenRuns.RunKeepsChronology` | app/services/token_service.py:162-190 | on a clock that never goes back, no row was issued after it and every rotation lies within the lifetime of its row |
| `AccountRuns.CredentialCachesLog` | app/repositories/credential_repository.py:60-102 | in every reachable store the counter is the number of evaluated failures since the last success, the credential is locked exactly from the threshold on, until one lockout after the last of them |
| `Throttling.FailureSpacingOfRun` | app/services/authentication_service.py:126-159 | over any run the n-th logged failure since the last success comes no earlier than n - max lockouts after the one that reached the threshold |
| `Throttling.ThrottlingOfRun` | app/security/rate_limiting.py:34-54 | however many calls are made, at most max + floor((now - first lock) / lockout) wrong passwords are evaluated and logged since the last success |
| `Throttling.EvaluationIsLogged` | app/services/login_service.py:129-132 | in any store, the log gains an evaluated failure if and only if the request evaluates a wrong password and keeps its refusals; an evaluation that is not logged leaves no trace |
| `Throttling.EvaluationsOfRun` | app/database/dependencies.py:20-29 | conservation: over any run, evaluations are the evaluated failures of the log plus the rolled-back evaluations |
| `Throttling.AllEvaluationsLogged` | app/database/dependencies.py:25-27 | nothing escapes the log of a run if and only if every request that evaluates keeps its refusals |
| `Throttling.ThrottlingOfFreshCredential` | app/services/authentication_service.py:206-226 | for a credential that never logged in, all evaluations exceed the bound by no more than the rolled-back ones |
| `Throttling.ThrottlingOfKeptRefusals` | app/services/authentication_service.py:126-159 | when every request that tries the user's password keeps its refusals, the bound holds of every evaluation |
| `Throttling.RefusedLoginsLeaveNoTrace` | app/services/login_service.py:129-132 | after any run, any number of wrong passwords presented to the login request are all evaluated and leave every table as it was |
| `Throttling.LoginsAreNotThrottled` | app/api/v1/auth.py:145-166 | the bound on all evaluations is false of the login request: for every n, n evaluations at one instant, with an empty log and an unlocked credential; from n = max on they exceed the bound |
| `AccountRuns.AuditOfRun` | app/services/authentication_service.py:166-250 | after every run attempts are LOGIN_SUCCESS plus LOGIN_FAILURE plus ACCOUNT_LOCKED events, successes are LOGIN_SUCCESS events, and ACCOUNT_LOCKED events are the failures at or past the threshold |
| `AccountRuns.ResetsOfRun` | app/services/password_service.py:183-258 | after every run used_at is set exactly on used rows and precedes expires_at; requested-reset events are all rows, completed-reset events the used ones |
| `AccountRuns.SecretConfirmedAtMostOnce` | app/services/password_service.py:216-240 | each reset row drives at most one kept confirmation over a whole run |
| `AccountRuns.PasswordOfRun` | app/services/password_service.py:102-123 | after any run a password verifies exactly when it is the one set by the last kept creation, change or reset, and the credential is active exactly when the last status synchronised since its creation is admitted by the login gate |
| `Registrations.RegistrationRetries` | app/services/registration_service.py:85-160 | from any reachable store, over any serial attempts of one idempotency key: an existing credential stays, a missing one is the first kept attempt's, nobody else's changes; each kept attempt appends one unrevoked row and one completion event, and nothing else is touched |
| `Observations.EntriesOfRun` | app/database/dependencies.py:20-29 | over any run each entry holds its request and reply, and its writes were kept if and only if the request is in no transaction, or returned with no later failure; the store afterwards is what the call wrote, or the tables before it |
| `Observations.AnsweredPairIsStored` | app/services/token_service.py:84-116 | over any run, when a request with no later failure answers with tokens, they are for exactly the user and context of the request, both tokens carry them for their lifetimes, the newest row stores the refresh token unrevoked, and a refreshed token's row is revoked |
| `Observations.AnsweredPairRefreshes` | app/services/token_service.py:118-217 | over any run, the answered refresh token, presented next within its lifetime, is exchanged |
| `Observations.RefreshOfRun` | app/services/token_service.py:138-163 | in every reachable store, on two independent clocks, a refresh answers with tokens exactly for the token of an unrevoked row that has not expired on the first and whose interval holds the second |
| `Observations.RevocationOfRun` | app/services/token_service.py:219-283 | in every reachable store a revocation answers exactly for the token of an unrevoked row whose interval holds the library's instant, and revokes that row at the service's instant |
| `Observations.CountsOfRun` | app/services/token_service.py:302-308 | a durable bulk revocation revokes exactly the unrevoked rows that pass its filters; its reply is the ledger's number, the number of rewritten rows and the drop in unrevoked rows |
| `Observations.AuthenticationOfRun` | app/services/authentication_service.py:94-191 | in every reachable store authenticate lets a password in exactly when it is the one last set, the last synchronised status admits logins, and the failures since the last success are below the threshold or one lockout has passed since the last of them |
| `Observations.LoginOfRun` | app/services/login_service.py:76-137 | in every reachable store a login answers with tokens exactly when the identifier resolves, the status is one of three, the history admits the password and the session is created; otherwise it raises the error of the first of these that fails |
| `Observations.ChangeOfRun` | app/services/password_service.py:89-148 | in every reachable store a change succeeds exactly with the password last set, an admitted status and a different new password, whatever the lock; it cuts the context of the call, or raises and writes nothing |
| `Observations.AnsweredSecretConfirms` | app/services/password_service.py:150-263 | over any run a reset request answers a failure with its error, an unknown identifier with no secret, and a known one with a secret that, presented next, sets a password until the reset lifetime is over and for a user with a credential only |
| `Runs.PartialWritesAreUndone` | app/services/token_service.py:256-273 | in any store, a call that raises has changed a table exactly when it is a login past the gate or a revocation of a stored token with a bad claim; inside a transaction nothing of that is left |
| `Transactions.Connection.ServeRequest` | app/database/dependencies.py:13-29 | the services, on a session loaded for the request, then commit or rollback: for every request and ending the durable store and the reply are those of the state machine; a request that returns with no later failure keeps every write, and any other transaction leaves every table as it was even after partial writes |
| `Transactions.Connection.ServeNext` | app/database/dependencies.py:13-29 | a database that has served a run holds, after one more request of any ending, the store of the longer run, and has given its reply |
| `Transactions.ServeAll` | app/database/dependencies.py:13-29 | from a new database, serving any sequence of requests of any endings leaves the store of its run and gives every recorded reply |
| `Application.Services.Dispatch` | app/api/dependencies.py:119-210 | whatever the call, the services wired to one session refine one step of the state machine, store and reply |
| `TokenTable.RevokeScopeMeaning` | app/repositories/token_repository.py:123-161 | a scoped revocation empties its scope (on columns: `TokenTable.RevocationByColumns`), removes exactly it from the unrevoked rows, keeps every link and is idempotent |
| `TokenTable.RevocationByColumns` | app/repositories/token_repository.py:84-106 | a scoped revocation rewrites exactly the unrevoked rows of the user that pass every supplied filter, in their two revocation columns, and its count is the number of rewritten rows |
| `TokenTable.ScopesCommute` | app/repositories/token_repository.py:132-161 | two scopes revoke the same rows in either order, and in either order the two counts add up to the size of the union |
| `TokenTable.ChainsPartition` | app/repositories/token_repository.py:177-192 | in a rotation forest every row lies on the chain of exactly one root and a chain has at most one unrevoked row, its last |
| `TokenTable.ChainLifetime` | app/services/token_service.py:162-190 | expiries never decrease along a chain and k rotations extend the first one by less than k lifetimes |
| `TokenTable.RevokedChainIsClosed` | app/services/token_service.py:159-160 | a chain whose rows are all revoked is the same chain in every later table |
| `TokenProtocol.IssuedRowIsNew` | app/models/refresh_token.py:69-74 | the UNIQUE constraint on token_hash cannot fail on an issued row, and looking the new token up finds it |
| `TokenProtocol.StoredClaimsAgree` | app/services/token_service.py:138-180 | the claims of the token that hashes to a row give back the row's user and context, so the subject check and all claim checks of refresh and revoke pass |
| `TokenProtocol.RotateTokenIsRotation` | app/services/token_service.py:182-215 | issuing, looking the replacement up, rotating and marking used amounts to: old row revoked, used and linked to the one new row of the same user and context, one TOKEN_REFRESH event |
| `TokenProtocol.ChangeKeepsInvariant` | app/repositories/token_repository.py:21-192 | every change the repository can make, at whatever instant, keeps lineage and rotation forest |
| `TokenProtocol.ChangeKeepsChronology` | app/services/token_service.py:162-190 | every change made no earlier than the last one keeps the issue instants below the clock and every rotation within the lifetime of its row |
| `TokenProtocol.ChangeCounts` | app/repositories/token_repository.py:153-192 | how each change moves the numbers of unrevoked, replaced and all rows |
| `TokenProtocol.RefreshOfStoredToken` | app/services/token_service.py:118-217 | with an accepted JWT, refresh succeeds if and only if the row is unrevoked and unexpired; otherwise the store is untouched and the error is the right one |
| `TokenProtocol.RevokeOfStoredToken` | app/services/token_service.py:219-283 | with an accepted JWT, revoke succeeds if and only if the row is unrevoked; the write before the claim checks is never orphaned |
| `Outcomes.IssueOutcome` | app/services/token_service.py:67-116 | issuing returns a pair that carries the user and the context for both lifetimes and appends the row that stores its refresh token |
| `Outcomes.RefreshOutcome` | app/services/token_service.py:138-217 | on columns: which tokens refresh; the old row is then revoked, used and replaced, the new one stores the new token, one event is logged |
| `Outcomes.RevokeOutcome` | app/services/token_service.py:219-283 | on columns: which stored tokens revoke, which error the others raise, and the two columns and the event written |
| `Runs.HandleChangesTokens` | app/services/token_service.py:67-308 | every call of the service does one of five things to the token table, at the instant of the call |
| `Lockout.AuthenticateKeepsLockout` | app/services/authentication_service.py:67-252 | authenticate keeps counter, flag and expiry an exact cache of the attempt log, and evaluated failures one lockout apart past the threshold |
| `Lockout.ThrottlingBound` | app/security/rate_limiting.py:25-54 | the n-th evaluated failure comes at least n - max lockouts after the max-th |
| `Lockout.AuthenticateKeepsAudit` | app/services/authentication_service.py:67-287 | every call appends exactly one attempt and one event, and the ledger of attempts and events stays balanced |
| `Lockout.RefusalReasons` | app/services/authentication_service.py:96-159 | which reason each refusal gives; ACCOUNT_LOCKED is also the answer to the failure that sets the lock |
| `Outcomes.AuthenticateOutcome` | app/services/authentication_service.py:94-287 | on columns: which passwords are admitted, the logged attempt and its reason, the columns of the credential and the one event, for every branch |
| `Outcomes.LoginOutcome` | app/api/v1/auth.py:145-208 | a login gets tokens exactly when resolution, status, columns and session all allow it; the first that fails decides the error; the tokens are the user's PERSONAL pair and stored |
| `Outcomes.RegisterOutcome` | app/services/registration_service.py:85-160 | a registration returns the user's PERSONAL pair, whose row it stores, creates the missing credential with this password and logs one event, or raises the User Service's error |
| `Observations.AttemptsOfCalls` | app/services/authentication_service.py:254-287 | every call that gets as far as a password logs one attempt with its identifier and context, at its instant, with the reason of the columns |
| `Observations.RepliesOfCalls` | app/services/credential_sync_service.py:36-68 | issuing always answers with tokens, a registration exactly when the User Service does, a synchronisation always, writing one flag by its status |
| `Passwords.RequestKeepsResets` | app/services/password_service.py:150-202 | a request appends one unused row, with a secret that no row has, and one event; for an unknown identifier it answers with no secret, for a failure with its error, and changes nothing |
| `Passwords.ChangeOutcome` | app/services/password_service.py:89-148 | when a change succeeds, and invalid credentials otherwise; it replaces and dates the password, cuts its own context only, logs one event and touches nothing else |
| `Passwords.ConfirmOutcome` | app/services/password_service.py:204-263 | a confirmation succeeds if and only if the secret has an unused, unexpired row of a user with a credential, and is a reset error otherwise; it uses up that row, replaces and dates the password, cuts the PERSONAL rows only and logs one event |
| `Passwords.ConfirmKeepsResets` | app/repositories/password_reset_repository.py:81-94 | a confirmation keeps the reset invariant and the completed-reset count |
| `Passwords.RequestThenConfirm` | app/services/password_service.py:183-240 | the secret of a request confirms until the reset lifetime is over and for a user with a credential only, and uses up the very row of the request |
| `Passwords.UsedSecretIsDead` | app/repositories/password_reset_repository.py:51-64 | a used secret is refused whatever the new password and the instant |
| `Accounts.GateAgreesWithSync` | app/services/credential_sync_service.py:19-27 | for every status string the synchronised flag is true and the login gate lets it through exactly for active, verification_pending and pending, and which error the gate raises for the others |
| `Accounts.SyncWritesOnlyTheFlag` | app/services/credential_sync_service.py:36-68 | a synchronisation sets one flag by the login gate's rule and touches no lock column, counter or other credential |
| `Claims.ClaimsRoundTrip` | app/api/dependencies.py:237-336 | minting, validating and extracting gives back the user and the context, None being an absent claim; a minted token is accepted exactly from the second of its issue up to the second of its expiry, and never by the checker of the other kind |
| `Claims.AcceptanceIsDisjoint` | app/security/token_validation.py:48-49 | no string at all is accepted both as an access and as a refresh token, at whatever two instants |
| `Claims.AcceptedExactly` | app/security/token_validation.py:75-110 | which strings a checker accepts and which it calls expired, claim by claim: key, algorithm, issuer, audience, subject, identifier, token type and interval |
| `Claims.ExtractedExactly` | app/api/dependencies.py:260-305 | which claims give a context and which, an absent type meaning PERSONAL and an absent or null id none |
| `TokenProtocol.RevocationContextExactly` | app/services/token_service.py:256-273 | the context that revoke logs, a type that is not a string meaning PERSONAL |
| `Claims.Validate` | app/security/token_validation.py:15-110 | accepted claims are those of the presented token and carry a UUID subject; a refusal is an invalid-token or expired-token error |
| `Claims.CreateAccessToken` | app/security/token_signing.py:15-54 | building the payload key by key yields the specified access token, absent optional ids included |
| `Claims.CreateRefreshToken` | app/security/token_signing.py:57-96 | the same for the refresh token and its lifetime |
| `Database.Session.constructor` | app/database/dependencies.py:20-20 | a session opened on tables holds one object per row, equal to it |
| `Database.Session.Draw` | app/security/token_signing.py:39-39 | a drawn identifier is in no row |
| `Database.Session.Flush` | app/database/dependencies.py:24-24 | the tables read off the objects are the store that the session represents |
| `TokenRepositories.TokenRepository.Create` | app/repositories/token_repository.py:21-45 | appends one unrevoked, unlinked row |
| `TokenRepositories.TokenRepository.GetByTokenHash` | app/repositories/token_repository.py:47-56 | returns the object of the first row with the hash, or null when there is none |
| `TokenRepositories.TokenRepository.GetActiveByUser` | app/repositories/token_repository.py:73-106 | returns the objects of exactly the unrevoked rows in the scope, each once, newest first |
| `TokenRepositories.TokenRepository.Revoke` | app/repositories/token_repository.py:108-121 | revokes one row and changes nothing else |
| `TokenRepositories.TokenRepository.RevokeAllForUser` | app/repositories/token_repository.py:123-161 | the loop revokes exactly the unrevoked rows of the user that pass every supplied filter, returns their number and changes nothing else |
| `TokenRepositories.TokenRepository.MarkUsed` | app/repositories/token_repository.py:163-175 | sets last_used_at of one row |
| `TokenRepositories.TokenRepository.Rotate` | app/repositories/token_repository.py:177-192 | revokes one row and links it to its replacement |
| `TokenServices.EventRepository.CreateAuthEvent` | app/repositories/event_repository.py:22-50 | appends one authentication event |
| `TokenServices.EventRepository.CreateSecurityEvent` | app/repositories/event_repository.py:53-86 | appends one security event |
| `TokenServices.TokenService.IssueTokens` | app/services/token_service.py:67-116 | refines the issue step of the specification; both tokens of the pair carry the user and the context for their own lifetimes |
| `TokenServices.TokenService.Refresh` | app/services/token_service.py:118-217 | refines the refresh step: same store, same tokens or error |
| `TokenServices.TokenService.RotateStored` | app/services/token_service.py:182-217 | refines the rotation step, the lookup of the replacement included |
| `TokenServices.TokenService.Revoke` | app/services/token_service.py:219-283 | refines the revoke step, partial write on a bad claim included |
| `TokenServices.TokenService.RevokeAll` | app/services/token_service.py:285-308 | refines the bulk revocation step |
| `AuthenticationServices.CredentialRepository.GetByUserId` | app/repositories/credential_repository.py:21-24 | returns the object of the user's row, or null when there is none |
| `AuthenticationServices.CredentialRepository.Create` | app/repositories/credential_repository.py:26-42 | adds an active, unlocked credential without failures |
| `AuthenticationServices.CredentialRepository.UpdatePassword` | app/repositories/credential_repository.py:44-58 | sets the hash and the change instant and nothing else |
| `AuthenticationServices.CredentialRepository.RecordSuccessfulLogin` | app/repositories/credential_repository.py:60-75 | clears the failure and lock columns and dates the login |
| `AuthenticationServices.CredentialRepository.RecordFailedLogin` | app/repositories/credential_repository.py:77-87 | counts one more failure and nothing else |
| `AuthenticationServices.CredentialRepository.Lock` | app/repositories/credential_repository.py:89-102 | sets the lock columns and nothing else |
| `AuthenticationServices.CredentialRepository.SetActive` | app/repositories/credential_repository.py:118-140 | sets the active flag and nothing else |
| `AuthenticationServices.LoginAttemptRepository.Create` | app/repositories/login_attempt_repository.py:24-54 | appends one attempt |
| `AuthenticationServices.AuthenticationService.Authenticate` | app/services/authentication_service.py:67-191 | refines the authentication step: same store, same result and reason |
| `AuthenticationServices.AuthenticationService.HandleFailedPassword` | app/services/authentication_service.py:193-252 | refines the wrong-password step: count, log, lock and event |
| `AuthenticationServices.AuthenticationService.RecordFailedAttempt` | app/services/authentication_service.py:254-287 | refines the refusal step: one attempt, one LOGIN_FAILURE event |
| `PasswordServices.PasswordResetRepository.Create` | app/repositories/password_reset_repository.py:21-41 | appends one unused row |
| `PasswordServices.PasswordResetRepository.GetActiveByTokenHash` | app/repositories/password_reset_repository.py:51-64 | returns the object of the first unused, unexpired row with the hash, or null when there is none |
| `PasswordServices.PasswordResetRepository.MarkUsed` | app/repositories/password_reset_repository.py:81-94 | marks one row used and changes nothing else |
| `PasswordServices.PasswordService.ChangePassword` | app/services/password_service.py:89-148 | refines the change step: credential, tokens, event, result or error |
| `PasswordServices.PasswordService.RequestReset` | app/services/password_service.py:150-202 | refines the request step |
| `PasswordServices.PasswordService.ConfirmReset` | app/services/password_service.py:204-263 | refines the confirmation step: credential, reset row, tokens, event |
| `AccountServices.RegistrationService.Register` | app/services/registration_service.py:50-160 | refines the registration step, replayed users and failures included |
| `AccountServices.LoginService.Login` | app/services/login_service.py:63-137 | refines the login step and returns if and only if the status is one of three and the credential is active, unlocked and has this password |
| `AccountServices.LoginEndpoint` | app/api/v1/auth.py:145-208 | refines the login request: tokens are issued before the session, whose failure raises |
| `AccountServices.CredentialSyncService.SyncStatus` | app/services/credential_sync_service.py:36-68 | refines the synchronisation step, the incoming flag being ignored |
| `Transactions.Connection.Commit` | app/database/dependencies.py:24-24 | everything that the session's objects hold becomes durable |
| `Transactions.Connection.Rollback` | app/database/dependencies.py:25-27 | the durable tables stay as they were whatever the session's objects hold; drawn identifiers stay drawn |
| `TokenProtocol.UnknownTokenIsRefused` | app/services/token_service.py:156-157 | (helper) a string that hashes to no row is never exchanged, revokes nothing and writes nothing |
| `Lockout.AuthenticationOutcome` | app/services/authentication_service.py:94-191 | (helper) success if and only if the credential exists, is active, is not locked and the password is its own; no password, flag, token or reset changes, nor any other credential |

## Left out

- Database.Session.constructor: builds the objects of all rows when the session opens; SQLAlchemy loads a row when a query first asks for it, which no statement depends on as requests are serial.
- Decode: stands for the JWT library; leeway, `nbf`, list-valued audiences and the encoding itself are not modelled, `iat` and `exp` given as numeric strings or fractions (which the library converts with `int`) are refused here, and every refusal but an expiry is one error.
- Interleaved requests and database isolation levels: the code takes no lock on which a claim could rest.
- The recovery branch after an IntegrityError in registration: it depends on the session's state after a failed flush.
- Columns that are only copied through: IP address, user agent, requested IP, severity, description, creation and update instants.
- Repository queries that no service calls: event listings, attempt counts and listings, the active-token lookup by hash, the latest reset of a user, unlock.
- Retries, timeouts and error mapping of the HTTP clients of the User and Session Services.
- Argon2, SHA-256, UUID parsing and rehashing: library code, replaced by the stated assumptions.
- Routers, schemas, request rate limits, health, logging, configuration and migrations.
- LogoutService: one delegating call to `TokenService.revoke`.
