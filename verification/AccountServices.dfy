/** app/services/registration_service.py, app/services/login_service.py, app/services/credential_sync_service.py and the
    login endpoint of app/api/v1/auth.py, step by step over the session. */
module AccountServices {
  import opened Basics
  import opened Claims
  import opened Tables
  import opened TokenProtocol
  import opened Lockout
  import opened Accounts
  import opened Outcomes
  import opened Database
  import opened TokenServices
  import opened AuthenticationServices

  class RegistrationService {
    const db: Session
    const credentialRepository: CredentialRepository
    const eventRepository: EventRepository
    const tokenService: TokenService

    constructor (credentialRepository: CredentialRepository, eventRepository: EventRepository,
      tokenService: TokenService)
      requires credentialRepository.db == eventRepository.db == tokenService.db && tokenService.Wired()
      ensures Wired() && db == credentialRepository.db && this.tokenService == tokenService
    {
      this.db := credentialRepository.db;
      this.credentialRepository, this.eventRepository, this.tokenService := credentialRepository, eventRepository,
        tokenService;
    }

    predicate Wired() {
      credentialRepository.db == db && eventRepository.db == db && tokenService.db == db && tokenService.Wired()
    }

    method Register(created: Result<Uuid>, password: string, now: Time) returns (r: Result<Registration>)
      requires Wired() && db.Valid()
      modifies db
      ensures db.Valid()
      ensures (db.Model(), r) == Accounts.Register(tokenService.settings, old(db.Model()), created, password, now)
    {
      hide Session.Valid, IssuedRow, IssuedPair;
      if created.Err? {
        return Err(created.error);
      }
      var userId := created.value;
      var passwordHash := HashPassword(password);
      var credential := credentialRepository.GetByUserId(userId);
      if credential == null {
        credential := credentialRepository.Create(userId, passwordHash, now);
      }
      eventRepository.CreateAuthEvent(AuthEvent(Some(userId), PERSONAL_CONTEXT, REGISTRATION_COMPLETED, None));
      var tokens := tokenService.IssueTokens(userId, PERSONAL_CONTEXT, now);
      r := Ok(Registration(userId, tokens));
    }
  }

  class LoginService {
    const db: Session
    const authenticationService: AuthenticationService

    constructor (authenticationService: AuthenticationService)
      requires authenticationService.Wired()
      ensures Wired() && db == authenticationService.db && this.authenticationService == authenticationService
    {
      this.db, this.authenticationService := authenticationService.db, authenticationService;
    }

    predicate Wired() {
      authenticationService.db == db && authenticationService.Wired()
    }

    method Login(
      resolved: Result<Option<Uuid>>, status: Result<string>, password: string, identifier: string, context: Context,
      now: Time)
      returns (r: Result<AuthenticationResult>)
      requires Wired() && db.Valid()
      modifies db, set u | u in db.credentials :: db.credentials[u]
      ensures db.Valid()
      ensures (db.Model(), r) ==
        LoginUser(authenticationService.settings, old(db.Model()), resolved, status, password, identifier, context, now)
      ensures r.Ok? <==>
        && resolved.Ok? && resolved.value.Some? && status.Ok? && MayLogIn(status.value)
        && Admits(old(db.Model()), resolved.value.value, password, now)
    {
      LoginUserOutcome(
        authenticationService.settings, db.Model(), resolved, status, password, identifier, context, now);
      hide Session.Valid, Lockout.Authenticate;
      if resolved.Err? {
        return Err(resolved.error);
      }
      if resolved.value.None? {
        return Err(InvalidCredentialsError);
      }
      if status.Err? {
        return Err(status.error);
      }
      if status.value !in ALLOWED_LOGIN_STATUSES {
        if status.value == "deleted" {
          return Err(UserDeletedError);
        }
        if status.value in {"suspended", "restricted", "deactivated"} {
          return Err(AccountLockedError);
        }
        return Err(InvalidCredentialsError);
      }
      var authentication := authenticationService.Authenticate(resolved.value.value, password, identifier, context,
        now);
      if !authentication.authenticated {
        return Err(InvalidCredentialsError);
      }
      r := Ok(authentication);
    }
  }

  /** The login endpoint: log in, issue tokens, then ask the Session Service for a session. */
  method LoginEndpoint(
    loginService: LoginService, tokenService: TokenService, resolved: Result<Option<Uuid>>, status: Result<string>,
    password: string, identifier: string, session: Result<()>, now: Time) returns (r: Result<TokenPair>)
    requires loginService.Wired() && tokenService.Wired() && loginService.db == tokenService.db
      && loginService.db.Valid()
    requires loginService.authenticationService.settings == tokenService.settings
    modifies loginService.db, set u | u in loginService.db.credentials :: loginService.db.credentials[u]
    ensures loginService.db.Valid()
    ensures (loginService.db.Model(), r) ==
      LoginRequest(tokenService.settings, old(loginService.db.Model()), resolved, status, password, identifier,
        session, now)
  {
    AuthenticatedUser(tokenService.settings, loginService.db.Model(), resolved, status, password, identifier, now);
    hide Session.Valid, IssuedRow, IssuedPair, LoginUser;
    var result := loginService.Login(resolved, status, password, identifier, PERSONAL_CONTEXT, now);
    if result.Err? {
      return Err(result.error);
    }
    var pair := tokenService.IssueTokens(result.value.userId.value, PERSONAL_CONTEXT, now);
    if session.Err? {
      return Err(session.error);
    }
    r := Ok(pair);
  }

  /** A successful login names the resolved user. */
  lemma AuthenticatedUser(
    settings: Settings, s: Store, resolved: Result<Option<Uuid>>, status: Result<string>,
    password: string, identifier: string, now: Time)
    ensures var r := LoginUser(settings, s, resolved, status, password, identifier, PERSONAL_CONTEXT, now).1;
      r.Ok? ==> resolved.Ok? && resolved.value.Some? && r.value.userId == resolved.value
  {
  }

  class CredentialSyncService {
    const credentialRepository: CredentialRepository

    constructor (credentialRepository: CredentialRepository)
      ensures this.credentialRepository == credentialRepository
    {
      this.credentialRepository := credentialRepository;
    }

    /** The incoming flag is part of the contract and deliberately ignored. */
    method SyncStatus(userId: Uuid, userStatus: string, isActive: bool)
      requires credentialRepository.db.Valid()
      modifies credentialRepository.db, set u | u in credentialRepository.db.credentials ::
        credentialRepository.db.credentials[u]
      ensures credentialRepository.db.Valid()
      ensures credentialRepository.db.Model() ==
        Accounts.SyncStatus(old(credentialRepository.db.Model()), userId, userStatus)
    {
      hide Session.Valid;
      var credential := credentialRepository.GetByUserId(userId);
      if credential == null {
        return;
      }
      var desiredActive := if userStatus in STATUS_TO_ACTIVE then STATUS_TO_ACTIVE[userStatus] else false;
      if credential.isActive == desiredActive {
        return;
      }
      credentialRepository.SetActive(credential, desiredActive);
    }
  }
}
