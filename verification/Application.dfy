/** app/api/dependencies.py: the services of one application, wired to one session. */
module Application {
  import opened Basics
  import opened Claims
  import opened Runs
  import opened Database
  import opened TokenRepositories
  import opened TokenServices
  import opened AuthenticationServices
  import opened PasswordServices
  import opened AccountServices

  class Services {
    const settings: Settings
    const db: Session
    const tokenService: TokenService
    const authenticationService: AuthenticationService
    const passwordService: PasswordService
    const registrationService: RegistrationService
    const loginService: LoginService
    const credentialSyncService: CredentialSyncService

    constructor (settings: Settings, db: Session)
      ensures Wired() && this.settings == settings && this.db == db
    {
      var tokens := new TokenRepository(db);
      var events := new EventRepository(db);
      var credentials := new CredentialRepository(db);
      var attempts := new LoginAttemptRepository(db);
      var resets := new PasswordResetRepository(db);
      var tokenSide := new TokenService(settings, tokens, events);
      var authenticationSide := new AuthenticationService(settings, credentials, attempts, events);
      this.settings, this.db := settings, db;
      tokenService := tokenSide;
      authenticationService := authenticationSide;
      passwordService := new PasswordService(settings, credentials, resets, tokens, events);
      registrationService := new RegistrationService(credentials, events, tokenSide);
      loginService := new LoginService(authenticationSide);
      credentialSyncService := new CredentialSyncService(credentials);
    }

    predicate Wired() {
      && tokenService.Wired() && tokenService.db == db && tokenService.settings == settings
      && authenticationService.Wired() && authenticationService.db == db && authenticationService.settings == settings
      && passwordService.Wired() && passwordService.db == db && passwordService.settings == settings
      && registrationService.Wired() && registrationService.db == db && registrationService.tokenService == tokenService
      && loginService.Wired() && loginService.db == db && loginService.authenticationService == authenticationService
      && credentialSyncService.credentialRepository.db == db
    }

    /** Refinement: whatever the call, the step-by-step services move the session from store to store exactly as one
        step of the state machine does, and give the same reply. */
    method Dispatch(call: Call, now: Time, jwtClock: Time) returns (reply: Reply)
      requires Wired() && db.Valid()
      modifies db, db.tokens, db.resets, set u | u in db.credentials :: db.credentials[u]
      ensures db.Valid()
      ensures (db.Model(), reply) == Handle(settings, old(db.Model()), call, now, jwtClock)
    {
      hide Session.Valid, Lockout.Authenticate, Accounts.LoginRequest, Accounts.Register, Accounts.SyncStatus,
           TokenProtocol.IssueTokens, TokenProtocol.RefreshTokens, TokenProtocol.RevokeToken,
             TokenProtocol.RevokeAllTokens,
           Passwords.ChangePassword, Passwords.RequestReset, Passwords.ConfirmReset;
      match call
      case AuthenticateCall(userId, password, identifier, context) =>
        var r := authenticationService.Authenticate(userId, password, identifier, context, now);
        reply := Authentication(r);
      case LoginCall(resolved, status, password, identifier, session) =>
        var r := LoginEndpoint(loginService, tokenService, resolved, status, password, identifier, session, now);
        reply := if r.Ok? then Tokens(r.value) else Raised(r.error);
      case IssueCall(userId, context) =>
        var pair := tokenService.IssueTokens(userId, context, now);
        reply := Tokens(pair);
      case RefreshCall(token) =>
        var r := tokenService.Refresh(token, now, jwtClock);
        reply := if r.Ok? then Tokens(r.value) else Raised(r.error);
      case RevokeCall(token) =>
        var r := tokenService.Revoke(token, now, jwtClock);
        reply := if r.Ok? then Done else Raised(r.error);
      case RevokeAllCall(userId, scope) =>
        var count := tokenService.RevokeAll(userId, scope, now);
        reply := Count(count);
      case ChangeCall(userId, currentPassword, newPassword, context) =>
        var r := passwordService.ChangePassword(userId, currentPassword, newPassword, context, now);
        reply := if r.Ok? then PasswordSet(r.value) else Raised(r.error);
      case RequestResetCall(resolved) =>
        var r := passwordService.RequestReset(resolved, now);
        reply := if r.Ok? then ResetIssued(r.value) else Raised(r.error);
      case ConfirmResetCall(secret, newPassword) =>
        var r := passwordService.ConfirmReset(secret, newPassword, now);
        reply := if r.Ok? then PasswordSet(r.value) else Raised(r.error);
      case RegisterCall(created, password) =>
        var r := registrationService.Register(created, password, now);
        reply := if r.Ok? then Registered(r.value) else Raised(r.error);
      case SyncCall(userId, newStatus) =>
        credentialSyncService.SyncStatus(userId, newStatus, true);
        reply := Done;
    }
  }
}
