/** app/repositories/password_reset_repository.py and app/services/password_service.py, step by step over the
    session. */
module PasswordServices {
  import opened Basics
  import opened Claims
  import opened Tables
  import opened TokenTable
  import opened Passwords
  import opened Database
  import opened TokenRepositories
  import opened TokenServices
  import opened AuthenticationServices

  class PasswordResetRepository {
    const db: Session

    constructor (db: Session)
      ensures this.db == db
    {
      this.db := db;
    }

    /** Insert a row for a secret that has been drawn and is in no row yet: token_hash is UNIQUE. */
    method Create(userId: Uuid, tokenHash: Digest<Secret>, expiresAt: Time) returns (reset: PasswordReset)
      requires db.Valid() && tokenHash.preimage < db.drawn
      requires forall i | 0 <= i < |db.resetRows| :: db.resetRows[i].tokenHash != tokenHash
      modifies db`resets, db`resetRows
      ensures db.Valid() && fresh(reset)
      ensures db.Model() == old(db.Model()).(resets :=
        old(db.resetRows) + [ResetRow(userId, tokenHash, expiresAt, false, None)])
    {
      reset := new PasswordReset(|db.resets|, userId, tokenHash, expiresAt);
      db.resets := db.resets + [reset];
      db.resetRows := db.resetRows + [reset.Row()];
    }

    method GetActiveByTokenHash(tokenHash: Digest<Secret>, now: Time) returns (reset: PasswordReset?)
      requires db.Valid()
      ensures var found := FindActiveReset(db.resetRows, tokenHash, now);
        if reset == null then found.None? else found.Some? && reset in db.resets && reset.id == found.value
      ensures reset != null ==> reset.id < |db.resetRows| && reset.Row() == db.resetRows[reset.id]
    {
      var rows := ResetRowsOf(db.resets);
      assert rows == db.resetRows;
      var found := FindActiveReset(rows, tokenHash, now);
      reset := if found.Some? then db.resets[found.value] else null;
    }

    method MarkUsed(reset: PasswordReset, usedAt: Time)
      requires db.Valid() && reset in db.resets
      modifies reset, db`resetRows
      ensures db.Valid()
      ensures db.Model() == old(db.Model()).(resets :=
        old(db.resetRows)[reset.id := UsedReset(old(db.resetRows)[reset.id], usedAt)])
    {
      hide Session.TokensTied, Session.CredentialsTied;
      reset.isUsed := true;
      reset.usedAt := Some(usedAt);
      db.resetRows := db.resetRows[reset.id := reset.Row()];
    }
  }

  class PasswordService {
    const settings: Settings
    const db: Session
    const credentialRepository: CredentialRepository
    const passwordResetRepository: PasswordResetRepository
    const tokenRepository: TokenRepository
    const eventRepository: EventRepository

    constructor (settings: Settings, credentialRepository: CredentialRepository,
      passwordResetRepository: PasswordResetRepository,
                 tokenRepository: TokenRepository, eventRepository: EventRepository)
      requires credentialRepository.db == passwordResetRepository.db == tokenRepository.db == eventRepository.db
      ensures Wired() && this.settings == settings && db == credentialRepository.db
    {
      this.settings, this.db := settings, credentialRepository.db;
      this.credentialRepository, this.passwordResetRepository := credentialRepository, passwordResetRepository;
      this.tokenRepository, this.eventRepository := tokenRepository, eventRepository;
    }

    predicate Wired() {
      && credentialRepository.db == db && passwordResetRepository.db == db
      && tokenRepository.db == db && eventRepository.db == db
    }

    method ChangePassword(userId: Uuid, currentPassword: string, newPassword: string, context: Context, now: Time)
      returns (r: Result<PasswordUpdate>)
      requires Wired() && db.Valid()
      modifies db, db.tokens, set u | u in db.credentials :: db.credentials[u]
      ensures db.Valid()
      ensures (db.Model(), r) == Passwords.ChangePassword(old(db.Model()), userId, currentPassword, newPassword,
        context, now)
    {
      hide Session.Valid, RevokeScope;
      var credential := credentialRepository.GetByUserId(userId);
      if credential == null {
        return Err(InvalidCredentialsError);
      }
      if !credential.isActive {
        return Err(InvalidCredentialsError);
      }
      if !VerifyPassword(currentPassword, credential.passwordHash) {
        return Err(InvalidCredentialsError);
      }
      if currentPassword == newPassword {
        return Err(InvalidCredentialsError);
      }
      credentialRepository.UpdatePassword(credential, HashPassword(newPassword), now);
      var changed := credential.passwordChangedAt == now;
      var count := tokenRepository.RevokeAllForUser(userId, now, ContextScope(context));
      eventRepository.CreateSecurityEvent(SecurityEvent(Some(userId), context, PASSWORD_CHANGED));
      r := Ok(PasswordUpdate(changed, userId));
    }

    method RequestReset(resolved: Result<Option<Uuid>>, now: Time) returns (r: Result<Option<Secret>>)
      requires Wired() && db.Valid()
      modifies db
      ensures db.Valid()
      ensures (db.Model(), r) == Passwords.RequestReset(settings, old(db.Model()), resolved, now)
    {
      if resolved.Err? {
        return Err(resolved.error);
      }
      if resolved.value.None? {
        return Ok(None);
      }
      var userId := resolved.value.value;
      assert forall i | 0 <= i < |db.resetRows| :: db.resetRows[i].tokenHash != Sha256(db.drawn);
      hide Session.Valid;
      var resetToken := db.Draw();
      var expiresAt := now + settings.resetLifetime;
      var reset := passwordResetRepository.Create(userId, Sha256(resetToken), expiresAt);
      eventRepository.CreateSecurityEvent(SecurityEvent(Some(userId), PERSONAL_CONTEXT, PASSWORD_RESET_REQUESTED));
      r := Ok(Some(resetToken));
    }

    method ConfirmReset(resetToken: Secret, newPassword: string, now: Time) returns (r: Result<PasswordUpdate>)
      requires Wired() && db.Valid()
      modifies db, db.tokens, db.resets, set u | u in db.credentials :: db.credentials[u]
      ensures db.Valid()
      ensures (db.Model(), r) == Passwords.ConfirmReset(old(db.Model()), resetToken, newPassword, now)
    {
      hide Session.Valid, RevokeScope, FindActiveReset;
      var reset := passwordResetRepository.GetActiveByTokenHash(Sha256(resetToken), now);
      if reset == null {
        return Err(PasswordResetError);
      }
      var credential := credentialRepository.GetByUserId(reset.userId);
      if credential == null {
        return Err(PasswordResetError);
      }
      credentialRepository.UpdatePassword(credential, HashPassword(newPassword), now);
      passwordResetRepository.MarkUsed(reset, now);
      var count := tokenRepository.RevokeAllForUser(reset.userId, now, ContextScope(PERSONAL_CONTEXT));
      eventRepository.CreateSecurityEvent(SecurityEvent(Some(reset.userId), PERSONAL_CONTEXT,
        PASSWORD_RESET_COMPLETED));
      r := Ok(PasswordUpdate(true, reset.userId));
    }
  }
}
