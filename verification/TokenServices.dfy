/** app/repositories/event_repository.py and app/services/token_service.py, step by step over the session: each method
    does to the store what its specification function says. */
module TokenServices {
  import opened Basics
  import opened Claims
  import opened Tables
  import opened TokenTable
  import opened TokenProtocol
  import opened Outcomes
  import opened Database
  import opened TokenRepositories

  class EventRepository {
    const db: Session

    constructor (db: Session)
      ensures this.db == db
    {
      this.db := db;
    }

    method CreateAuthEvent(event: AuthEvent)
      requires db.Valid()
      modifies db`authEvents
      ensures db.Valid() && db.Model() == WithAuthEvent(old(db.Model()), event)
    {
      db.authEvents := db.authEvents + [event];
    }

    method CreateSecurityEvent(event: SecurityEvent)
      requires db.Valid()
      modifies db`securityEvents
      ensures db.Valid() && db.Model() == WithSecurityEvent(old(db.Model()), event)
    {
      db.securityEvents := db.securityEvents + [event];
    }
  }

  class TokenService {
    const settings: Settings
    const db: Session
    const tokenRepository: TokenRepository
    const eventRepository: EventRepository

    constructor (settings: Settings, tokenRepository: TokenRepository, eventRepository: EventRepository)
      requires tokenRepository.db == eventRepository.db
      ensures Wired() && this.settings == settings && db == tokenRepository.db
    {
      this.settings, this.db := settings, tokenRepository.db;
      this.tokenRepository, this.eventRepository := tokenRepository, eventRepository;
    }

    /** Both repositories work on the request's session. */
    predicate Wired() {
      tokenRepository.db == db && eventRepository.db == db
    }

    method IssueTokens(userId: Uuid, context: Context, now: Time) returns (pair: TokenPair)
      requires Wired() && db.Valid()
      modifies db`drawn, db`tokens, db`tokenRows
      ensures db.Valid() && old(db.tokens) <= db.tokens
      ensures (db.Model(), pair) == TokenProtocol.IssueTokens(settings, old(db.Model()), userId, context, now)
      ensures IsPairFor(settings, pair, userId, context, now)
    {
      ghost var before := db.Model();
      InsertionIsLegal(settings, before.tokens, before.drawn, userId, context, now);
      hide IsPairFor, Session.Valid, Mint, JtiOf, FindToken;
      pair := SignPair(userId, context, now);
      var expiresAt := now + settings.refreshLifetime;
      var token := tokenRepository.Create(userId, Sha256(pair.refreshToken), expiresAt, context);
      assert IsPairFor(settings, pair, userId, context, now) by {
        IssueOutcome(settings, before, userId, context, now);
      }
    }

    /** The two signed tokens, each with an identifier of its own. */
    method SignPair(userId: Uuid, context: Context, now: Time) returns (pair: TokenPair)
      requires Wired() && db.Valid()
      modifies db`drawn
      ensures db.Valid() && db.Model() == old(db.Model()).(drawn := old(db.drawn) + 2)
      ensures pair == IssuedPair(settings, old(db.drawn), userId, context, now)
    {
      hide Session.Valid, Mint;
      var accessId := db.Draw();
      var accessToken := CreateAccessToken(settings, userId, context, now, accessId);
      var refreshId := db.Draw();
      var refreshToken := CreateRefreshToken(settings, userId, context, now, refreshId);
      pair := TokenPair(accessToken, refreshToken);
    }

    method Refresh(refreshToken: Jwt, now: Time, jwtClock: Time) returns (r: Result<TokenPair>)
      requires Wired() && db.Valid()
      modifies db, db.tokens
      ensures db.Valid()
      ensures (db.Model(), r) == RefreshTokens(settings, old(db.Model()), refreshToken, now, jwtClock)
    {
      var validated := Validate(settings, Claims.Refresh, refreshToken, jwtClock);
      if validated.Err? {
        return Err(validated.error);
      }
      var payload := validated.value;
      var userId := payload.sub.text.id;
      var stored := tokenRepository.GetByTokenHash(Sha256(refreshToken));
      if stored == null {
        return Err(InvalidTokenError);
      }
      if stored.isRevoked {
        return Err(RevokedTokenError);
      }
      if stored.expiresAt <= now {
        return Err(ExpiredTokenError);
      }
      if stored.userId != userId {
        return Err(InvalidTokenError);
      }
      var context := ExtractContext(payload);
      if context.Err? {
        return Err(context.error);
      }
      r := RotateStored(stored, userId, context.value, now);
    }

    /** The tail of refresh: issue, find the replacement's id, rotate, mark used, log. */
    method RotateStored(stored: RefreshToken, userId: Uuid, context: Context, now: Time) returns (r: Result<TokenPair>)
      requires Wired() && db.Valid() && stored in db.tokens && stored.id < |db.tokenRows|
      modifies db, stored
      ensures db.Valid()
      ensures (db.Model(), r) == RotateToken(settings, old(db.Model()), stored.id, userId, context, now)
    {
      hide Session.TokensTied, Session.CredentialsTied, Session.ResetsTied, Mint, FindToken;
      ghost var index := stored.id;
      var pair := IssueTokens(userId, context, now);
      ghost var issued := db.tokenRows;
      var replacement := tokenRepository.GetByTokenHash(Sha256(pair.refreshToken));
      if replacement == null {
        return Err(InvalidTokenError);
      }
      tokenRepository.Rotate(stored, replacement.id, now);
      tokenRepository.MarkUsed(stored, now);
      assert db.tokenRows == issued[index := RotatedToken(issued[index], replacement.id, now)];
      eventRepository.CreateAuthEvent(AuthEvent(Some(userId), context, TOKEN_REFRESH, None));
      r := Ok(pair);
    }

    method Revoke(refreshToken: Jwt, now: Time, jwtClock: Time) returns (r: Result<()>)
      requires Wired() && db.Valid()
      modifies db, db.tokens
      ensures db.Valid()
      ensures (db.Model(), r) == RevokeToken(settings, old(db.Model()), refreshToken, now, jwtClock)
    {
      var validated := Validate(settings, Claims.Refresh, refreshToken, jwtClock);
      if validated.Err? {
        return Err(validated.error);
      }
      var payload := validated.value;
      var userId := payload.sub.text.id;
      var stored := tokenRepository.GetByTokenHash(Sha256(refreshToken));
      if stored == null {
        return Err(InvalidTokenError);
      }
      if stored.isRevoked {
        return Err(RevokedTokenError);
      }
      tokenRepository.Revoke(stored, now);
      var contextType := ContextTypeClaim(payload);
      if !contextType.Str? {
        contextType := Str(PERSONAL);
      }
      var organizationId := OptionalUuidClaim(payload.organizationId);
      if organizationId.Err? {
        return Err(organizationId.error);
      }
      var membershipId := OptionalUuidClaim(payload.membershipId);
      if membershipId.Err? {
        return Err(membershipId.error);
      }
      var context := Context(contextType.text, organizationId.value, membershipId.value);
      eventRepository.CreateAuthEvent(AuthEvent(Some(userId), context, TOKEN_REVOKED, None));
      r := Ok(());
    }

    method RevokeAll(userId: Uuid, scope: Scope, now: Time) returns (count: nat)
      requires Wired() && db.Valid()
      modifies db.tokens, db`tokenRows
      ensures db.Valid()
      ensures (db.Model(), count) == RevokeAllTokens(old(db.Model()), userId, scope, now)
    {
      count := tokenRepository.RevokeAllForUser(userId, now, scope);
    }
  }

  /** The row that issuing tokens inserts meets the UNIQUE constraint. */
  lemma InsertionIsLegal(settings: Settings, rows: seq<TokenRow>, drawn: nat, userId: Uuid, context: Context, now: Time)
    requires IdsAreDrawn(rows, drawn)
    ensures var row := IssuedRow(settings, drawn, userId, context, now);
      FindToken(rows, row.tokenHash).None? && JtiOf(row) < drawn + 2
  {
    IssuedRowIsNew(settings, rows, drawn, userId, context, now);
    IssuedRowIsMinted(settings, drawn, userId, context, now);
  }
}
