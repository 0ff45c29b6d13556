/** app/repositories/credential_repository.py, app/repositories/login_attempt_repository.py (its insertion) and
    app/services/authentication_service.py, step by step over the session. */
module AuthenticationServices {
  import opened Basics
  import opened Claims
  import opened Tables
  import opened Lockout
  import opened Database
  import opened TokenServices

  class CredentialRepository {
    const db: Session

    constructor (db: Session)
      ensures this.db == db
    {
      this.db := db;
    }

    method GetByUserId(userId: Uuid) returns (credential: AuthCredential?)
      requires db.Valid()
      ensures if credential == null then userId !in db.credentialRows else
        userId in db.credentialRows && credential.userId == userId && db.Holds(credential)
          && credential.Row() == db.credentialRows[userId]
    {
      credential := if userId in db.credentials then db.credentials[userId] else null;
    }

    /** user_id is UNIQUE. */
    method Create(userId: Uuid, passwordHash: PasswordHash, now: Time) returns (credential: AuthCredential)
      requires db.Valid() && userId !in db.credentialRows
      modifies db`credentials, db`credentialRows
      ensures db.Valid() && fresh(credential)
      ensures db.Model() == old(db.Model()).(
        credentials := old(db.credentialRows)[userId := Credential(passwordHash, true, false, 0, None, now, None)])
    {
      credential := new AuthCredential(userId, passwordHash, now);
      db.credentials := db.credentials[userId := credential];
      db.credentialRows := db.credentialRows[userId := credential.Row()];
    }

    /** After an update of one object, the rows of the session again agree with the objects. */
    method Sync(credential: AuthCredential)
      requires db.TokensTied() && db.ResetsTied() && db.credentialRows.Keys == db.credentials.Keys
        && db.Holds(credential)
      requires forall u | u in db.credentials && u != credential.userId ::
        db.credentials[u].userId == u && db.credentials[u].Row() == db.credentialRows[u]
      modifies db`credentialRows
      ensures db.Valid()
      ensures db.Model() == old(db.Model()).(
        credentials := old(db.credentialRows)[credential.userId := credential.Row()])
    {
      db.credentialRows := db.credentialRows[credential.userId := credential.Row()];
    }

    method UpdatePassword(credential: AuthCredential, passwordHash: PasswordHash, changedAt: Time)
      requires db.Valid() && db.Holds(credential)
      modifies credential, db`credentialRows
      ensures db.Valid()
      ensures db.Model() == old(db.Model()).(credentials := old(db.credentialRows)[
        credential.userId := old(credential.Row()).(passwordHash := passwordHash, passwordChangedAt := changedAt)])
      ensures credential.passwordChangedAt == changedAt
    {
      credential.SetPassword(passwordHash, changedAt);
      Sync(credential);
    }

    method RecordSuccessfulLogin(credential: AuthCredential, loginAt: Time)
      requires db.Valid() && db.Holds(credential)
      modifies credential, db`credentialRows
      ensures db.Valid()
      ensures db.Model() == old(db.Model()).(credentials := old(db.credentialRows)[
        credential.userId := AfterSuccessfulLogin(old(credential.Row()), loginAt)])
    {
      credential.ClearFailures(loginAt);
      Sync(credential);
    }

    method RecordFailedLogin(credential: AuthCredential)
      requires db.Valid() && db.Holds(credential)
      modifies credential, db`credentialRows
      ensures db.Valid()
      ensures credential.Row() == old(credential.Row()).(failedLoginCount := old(credential.failedLoginCount) + 1)
      ensures db.Model() == old(db.Model()).(credentials :=
        old(db.credentialRows)[credential.userId := credential.Row()])
    {
      credential.failedLoginCount := credential.failedLoginCount + 1;
      Sync(credential);
    }

    method Lock(credential: AuthCredential, lockedUntil: Option<Time>)
      requires db.Valid() && db.Holds(credential)
      modifies credential, db`credentialRows
      ensures db.Valid()
      ensures credential.Row() == old(credential.Row()).(isLocked := true, lockedUntil := lockedUntil)
      ensures db.Model() == old(db.Model()).(credentials :=
        old(db.credentialRows)[credential.userId := credential.Row()])
    {
      credential.isLocked := true;
      credential.lockedUntil := lockedUntil;
      Sync(credential);
    }

    /** Activate or deactivate. */
    method SetActive(credential: AuthCredential, active: bool)
      requires db.Valid() && db.Holds(credential)
      modifies credential, db`credentialRows
      ensures db.Valid()
      ensures db.Model() == old(db.Model()).(credentials := old(db.credentialRows)[
        credential.userId := old(credential.Row()).(isActive := active)])
    {
      credential.isActive := active;
      Sync(credential);
    }
  }

  class LoginAttemptRepository {
    const db: Session

    constructor (db: Session)
      ensures this.db == db
    {
      this.db := db;
    }

    method Create(attempt: LoginAttempt)
      requires db.Valid()
      modifies db`attempts
      ensures db.Valid() && db.Model() == old(db.Model()).(attempts := old(db.attempts) + [attempt])
    {
      db.attempts := db.attempts + [attempt];
    }
  }

  class AuthenticationService {
    const settings: Settings
    const db: Session
    const credentialRepository: CredentialRepository
    const loginAttemptRepository: LoginAttemptRepository
    const eventRepository: EventRepository

    constructor (settings: Settings, credentialRepository: CredentialRepository,
                 loginAttemptRepository: LoginAttemptRepository, eventRepository: EventRepository)
      requires credentialRepository.db == loginAttemptRepository.db == eventRepository.db
      ensures Wired() && this.settings == settings && db == credentialRepository.db
    {
      this.settings, this.db := settings, credentialRepository.db;
      this.credentialRepository, this.loginAttemptRepository := credentialRepository, loginAttemptRepository;
      this.eventRepository := eventRepository;
    }

    predicate Wired() {
      credentialRepository.db == db && loginAttemptRepository.db == db && eventRepository.db == db
    }

    method Authenticate(userId: Uuid, password: string, identifier: string, context: Context, now: Time)
      returns (r: AuthenticationResult)
      requires Wired() && db.Valid()
      modifies db, set u | u in db.credentials :: db.credentials[u]
      ensures db.Valid()
      ensures (db.Model(), r) == Lockout.Authenticate(settings, old(db.Model()), userId, password, identifier, context,
        now)
    {
      hide Session.Valid;
      var credential := credentialRepository.GetByUserId(userId);
      if credential == null {
        RecordFailedAttempt(None, identifier, context, INVALID_CREDENTIALS, now);
        return Failure(None, INVALID_CREDENTIALS);
      }
      if !credential.isActive {
        RecordFailedAttempt(Some(userId), identifier, context, CREDENTIAL_INACTIVE, now);
        return Failure(Some(userId), CREDENTIAL_INACTIVE);
      }
      if IsCredentialLocked(credential.Row(), now) {
        RecordFailedAttempt(Some(userId), identifier, context, ACCOUNT_LOCKED, now);
        return Failure(Some(userId), ACCOUNT_LOCKED);
      }
      if !VerifyPassword(password, credential.passwordHash) {
        HandleFailedPassword(credential, identifier, context, now);
        var reason := if credential.isLocked then ACCOUNT_LOCKED else INVALID_CREDENTIALS;
        return Failure(Some(userId), reason);
      }
      credentialRepository.RecordSuccessfulLogin(credential, now);
      loginAttemptRepository.Create(LoginAttempt(Some(userId), identifier, context, true, None, now));
      eventRepository.CreateAuthEvent(AuthEvent(Some(userId), context, LOGIN_SUCCESS, None));
      r := AuthenticationResult(true, Some(userId), None);
    }

    method HandleFailedPassword(credential: AuthCredential, identifier: string, context: Context, now: Time)
      requires Wired() && db.Valid() && db.Holds(credential)
      requires credential.userId in db.credentialRows && credential.Row() == db.credentialRows[credential.userId]
      modifies db, credential
      ensures db.Valid()
      ensures db.Model() == Lockout.HandleFailedPassword(settings, old(db.Model()), credential.userId, identifier,
        context, now)
      ensures credential.Row() == AfterWrongPassword(settings, old(credential.Row()), now)
    {
      hide Session.Valid;
      credentialRepository.RecordFailedLogin(credential);
      loginAttemptRepository.Create(FailedAttempt(Some(credential.userId), identifier, context, INVALID_CREDENTIALS,
        now));
      if ShouldLockAccount(settings, credential.failedLoginCount) {
        credentialRepository.Lock(credential, Some(LockExpiration(settings, now)));
        eventRepository.CreateSecurityEvent(SecurityEvent(Some(credential.userId), context, ACCOUNT_LOCKED_EVENT));
      } else {
        eventRepository.CreateAuthEvent(AuthEvent(Some(credential.userId), context, LOGIN_FAILURE,
          Some(INVALID_CREDENTIALS)));
      }
    }

    method RecordFailedAttempt(
      userId: Option<Uuid>, identifier: string, context: Context, reason: FailureReason, now: Time)
      requires Wired() && db.Valid()
      modifies db`attempts, db`authEvents
      ensures db.Valid()
      ensures db.Model() == Lockout.RecordFailedAttempt(old(db.Model()), userId, identifier, context, reason, now)
    {
      hide Session.Valid;
      loginAttemptRepository.Create(FailedAttempt(userId, identifier, context, reason, now));
      eventRepository.CreateAuthEvent(AuthEvent(userId, context, LOGIN_FAILURE, Some(reason)));
    }
  }
}
