/** JWT minting (app/security/token_signing.py), validation (app/security/token_validation.py) and the
    extraction of the user context from validated claims. */
module Claims {
  import opened Basics

  datatype Settings = Settings(
    jwtIssuer: Text,
    jwtAudience: Text,
    jwtKey: string,
    jwtAlgorithm: string,
    accessLifetime: Time,
    refreshLifetime: Time,
    resetLifetime: Time,
    maxFailedLogins: int,
    lockout: Time)

  /** The value of a claim: missing from the object, or a JSON value; `Opaque` is any boolean, list or object. */
  datatype Claim = Absent | Null | Str(text: Text) | Num(seconds: int) | Opaque

  /** A JSON object, seen through the claims that this service reads or writes. */
  datatype Payload = Payload(
    sub: Claim,
    iss: Claim,
    aud: Claim,
    iat: Claim,
    exp: Claim,
    jti: Claim,
    tokenType: Claim,
    contextType: Claim,
    organizationId: Claim,
    membershipId: Claim)

  /** A presented string: a JWT signed with some key and algorithm, or something that does not decode. */
  datatype Jwt = Signed(payload: Payload, key: string, algorithm: string) | Undecodable

  datatype Kind = Access | Refresh

  /** The tenancy part of a token: PERSONAL or ORGANIZATION, with optional ids. */
  datatype Context = Context(contextType: Text, organizationId: Option<Uuid>, membershipId: Option<Uuid>)

  const PERSONAL: Text := Plain("PERSONAL")

  /** NumericDate: the whole seconds of an instant. The library drops the fraction of `iat` and `exp` when it encodes
      them. */
  function Seconds(at: Time): (seconds: int)
    ensures seconds * 1_000_000 <= at < seconds * 1_000_000 + 1_000_000
  {
    at / 1_000_000
  }

  function KindText(kind: Kind): Text {
    match kind
    case Access => Plain("access")
    case Refresh => Plain("refresh")
  }

  function Lifetime(settings: Settings, kind: Kind): Time {
    match kind
    case Access => settings.accessLifetime
    case Refresh => settings.refreshLifetime
  }

  // ---------------------------------------------------------------------------------------------
  // Minting
  // ---------------------------------------------------------------------------------------------

  /** None is encoded as an absent claim. */
  function OptionalId(id: Option<Uuid>): Claim {
    match id
    case None => Absent
    case Some(u) => Str(UuidText(u))
  }

  /** The token that the service mints for these arguments. */
  function Mint(settings: Settings, kind: Kind, userId: Uuid, context: Context, issuedAt: Time, jti: Uuid): Jwt {
    Signed(
      Payload(
        Str(UuidText(userId)),
        Str(settings.jwtIssuer),
        Str(settings.jwtAudience),
        Num(Seconds(issuedAt)),
        Num(Seconds(issuedAt + Lifetime(settings, kind))),
        Str(UuidText(jti)),
        Str(KindText(kind)),
        Str(context.contextType),
        OptionalId(context.organizationId),
        OptionalId(context.membershipId)),
      settings.jwtKey,
      settings.jwtAlgorithm)
  }

  method CreateAccessToken(
    settings: Settings, userId: Uuid, context: Context, now: Time, jti: Uuid) returns (token: Jwt)
    ensures token == Mint(settings, Access, userId, context, now, jti)
  {
    var expiresAt := now + settings.accessLifetime;
    var payload := Payload(
      Str(UuidText(userId)), Str(settings.jwtIssuer), Str(settings.jwtAudience), Num(Seconds(now)),
        Num(Seconds(expiresAt)),
      Str(UuidText(jti)), Str(Plain("access")), Str(context.contextType), Absent, Absent);
    if context.organizationId.Some? {
      payload := payload.(organizationId := Str(UuidText(context.organizationId.value)));
    }
    if context.membershipId.Some? {
      payload := payload.(membershipId := Str(UuidText(context.membershipId.value)));
    }
    token := Signed(payload, settings.jwtKey, settings.jwtAlgorithm);
  }

  method CreateRefreshToken(
    settings: Settings, userId: Uuid, context: Context, now: Time, jti: Uuid) returns (token: Jwt)
    ensures token == Mint(settings, Refresh, userId, context, now, jti)
  {
    var expiresAt := now + settings.refreshLifetime;
    var payload := Payload(
      Str(UuidText(userId)), Str(settings.jwtIssuer), Str(settings.jwtAudience), Num(Seconds(now)),
        Num(Seconds(expiresAt)),
      Str(UuidText(jti)), Str(Plain("refresh")), Str(context.contextType), Absent, Absent);
    if context.organizationId.Some? {
      payload := payload.(organizationId := Str(UuidText(context.organizationId.value)));
    }
    if context.membershipId.Some? {
      payload := payload.(membershipId := Str(UuidText(context.membershipId.value)));
    }
    token := Signed(payload, settings.jwtKey, settings.jwtAlgorithm);
  }

  // ---------------------------------------------------------------------------------------------
  // Validation
  // ---------------------------------------------------------------------------------------------

  /** payload.get(name) is None. */
  predicate Missing(claim: Claim) {
    claim.Absent? || claim.Null?
  }

  /** The library's decode, with its own reading of the clock: signature and algorithm, required claims
      (present and not null), issue and expiry instants, issuer, audience, subject and id types. A whole number of
      seconds lies after an instant exactly when it lies after the instant's own whole seconds. */
  function Decode(settings: Settings, token: Jwt, clock: Time): Result<Payload> {
    if token.Undecodable? || token.key != settings.jwtKey || token.algorithm != settings.jwtAlgorithm then
      Err(InvalidTokenError)
    else
      var payload := token.payload;
      if Missing(payload.sub) || Missing(payload.iss) || Missing(payload.aud)
        || Missing(payload.iat) then Err(InvalidTokenError)
      else if Missing(payload.exp) || Missing(payload.jti) || Missing(payload.tokenType) then Err(InvalidTokenError)
      else if !payload.iat.Num? || payload.iat.seconds > Seconds(clock) then Err(InvalidTokenError)
      else if !payload.exp.Num? then Err(InvalidTokenError)
      else if payload.exp.seconds <= Seconds(clock) then Err(ExpiredTokenError)
      else if payload.iss != Str(settings.jwtIssuer) then Err(InvalidTokenError)
      else if payload.aud != Str(settings.jwtAudience) then Err(InvalidTokenError)
      else if !payload.sub.Str? || !payload.jti.Str? then Err(InvalidTokenError)
      else Ok(payload)
  }

  /** validate_access_token and validate_refresh_token: decode, check the token type and the subject. */
  function Validate(settings: Settings, kind: Kind, token: Jwt, clock: Time): (r: Result<Payload>)
    ensures r.Ok? ==> token.Signed? && r.value == token.payload && r.value.sub.Str? && r.value.sub.text.UuidText?
    ensures r.Err? ==> r.error == InvalidTokenError || r.error == ExpiredTokenError
  {
    match Decode(settings, token, clock)
    case Err(e) => Err(e)
    case Ok(payload) =>
      if payload.tokenType != Str(KindText(kind)) then Err(InvalidTokenError)
      else if !payload.sub.Str? then Err(InvalidTokenError)
      else if !payload.sub.text.UuidText? then Err(InvalidTokenError)
      else Ok(payload)
  }

  /** Parse an optional UUID claim: absent and null both mean None. */
  function OptionalUuidClaim(claim: Claim): Result<Option<Uuid>> {
    if Missing(claim) then Ok(None)
    else if !claim.Str? then Err(InvalidTokenError)
    else match claim.text
      case UuidText(id) => Ok(Some(id))
      case Plain(_) => Err(InvalidTokenError)
  }

  /** payload.get("context_type", PERSONAL): only an absent claim gets the default. */
  function ContextTypeClaim(payload: Payload): Claim {
    if payload.contextType.Absent? then Str(PERSONAL) else payload.contextType
  }

  /** The context read back from validated claims, in the order in which refresh and the
      current-user dependency check them. */
  function ExtractContext(payload: Payload): Result<Context> {
    var contextType := ContextTypeClaim(payload);
    if !contextType.Str? then Err(InvalidTokenError)
    else match OptionalUuidClaim(payload.organizationId)
      case Err(e) => Err(e)
      case Ok(organizationId) =>
        match OptionalUuidClaim(payload.membershipId)
        case Err(e) => Err(e)
        case Ok(membershipId) => Ok(Context(contextType.text, organizationId, membershipId))
  }

  // ---------------------------------------------------------------------------------------------
  // Properties
  // ---------------------------------------------------------------------------------------------

  /** Mint, validate, extract: a minted token is accepted exactly during its lifetime, from the second of its issue up
      to the second of its expiry, and by the checker of its own kind only, and gives back the user and the context it
      was minted for, None being an absent claim. */
  lemma ClaimsRoundTrip(
    settings: Settings, kind: Kind, userId: Uuid, context: Context, issuedAt: Time, jti: Uuid, clock: Time)
    ensures var token := Mint(settings, kind, userId, context, issuedAt, jti);
      var expiresAt := issuedAt + (if kind.Access? then settings.accessLifetime else settings.refreshLifetime);
      && (Validate(settings, kind, token, clock).Ok? <==> Seconds(issuedAt) <= Seconds(clock) < Seconds(expiresAt))
      && (Seconds(issuedAt) <= Seconds(clock) && Seconds(expiresAt) <= Seconds(clock) ==>
            Validate(settings, kind, token, clock) == Err(ExpiredTokenError))
      && (Seconds(clock) < Seconds(issuedAt) ==> Validate(settings, kind, token, clock) == Err(InvalidTokenError))
      && (forall other: Kind, at: Time | other != kind :: Validate(settings, other, token, at).Err?)
      && token.payload.sub == Str(UuidText(userId))
      && ExtractContext(token.payload) == Ok(context)
      && (token.payload.organizationId.Absent? <==> context.organizationId.None?)
      && (token.payload.membershipId.Absent? <==> context.membershipId.None?)
  {
    KindsDiffer();
  }

  /** Acceptance, claim by claim: exactly the strings signed with the service's key and algorithm that carry its issuer
      and audience, a UUID subject, an identifier, the token type of the checker, and an interval of whole seconds that
      holds the instant. Of the other signed strings, those that have every required claim and a past expiry are
      expired. */
  lemma AcceptedExactly(settings: Settings, kind: Kind, token: Jwt, clock: Time)
    ensures Validate(settings, kind, token, clock).Ok? <==>
      && token.Signed? && token.key == settings.jwtKey && token.algorithm == settings.jwtAlgorithm
      && var claims := token.payload;
         && claims.iss == Str(settings.jwtIssuer) && claims.aud == Str(settings.jwtAudience)
         && claims.sub.Str? && claims.sub.text.UuidText? && claims.jti.Str?
         && claims.tokenType == Str(Plain(if kind.Access? then "access" else "refresh"))
         && claims.iat.Num? && claims.exp.Num?
         && claims.iat.seconds * 1_000_000 <= clock < claims.exp.seconds * 1_000_000
    ensures Validate(settings, kind, token, clock) == Err(ExpiredTokenError) <==>
      && token.Signed? && token.key == settings.jwtKey && token.algorithm == settings.jwtAlgorithm
      && var claims := token.payload;
         && claims.sub !in {Absent, Null} && claims.iss !in {Absent, Null} && claims.aud !in {Absent, Null}
         && claims.jti !in {Absent, Null} && claims.tokenType !in {Absent, Null}
         && claims.iat.Num? && claims.exp.Num?
         && claims.iat.seconds * 1_000_000 <= clock && claims.exp.seconds * 1_000_000 <= clock
  {
  }

  /** The claim is missing, null or a UUID. */
  predicate IsOptionalUuid(claim: Claim) {
    claim.Absent? || claim.Null? || (claim.Str? && claim.text.UuidText?)
  }

  /** Reading a context, claim by claim: an absent type means PERSONAL, an absent or null id means none, and anything
      else that is not a string, or not a UUID, is refused. */
  lemma ExtractedExactly(payload: Payload)
    ensures ExtractContext(payload).Ok? <==>
      && (payload.contextType.Absent? || payload.contextType.Str?)
      && IsOptionalUuid(payload.organizationId) && IsOptionalUuid(payload.membershipId)
    ensures ExtractContext(payload).Err? ==> ExtractContext(payload) == Err(InvalidTokenError)
    ensures ExtractContext(payload).Ok? ==>
      var context := ExtractContext(payload).value;
      && (if payload.contextType.Absent? then context.contextType == Plain("PERSONAL")
          else payload.contextType == Str(context.contextType))
      && (if payload.organizationId.Str? then Some(payload.organizationId.text.id) == context.organizationId
          else context.organizationId.None?)
      && (if payload.membershipId.Str? then Some(payload.membershipId.text.id) == context.membershipId
          else context.membershipId.None?)
  {
  }

  lemma KindsDiffer()
    ensures KindText(Access) != KindText(Refresh)
  {
    assert |KindText(Access).chars| == 6 && |KindText(Refresh).chars| == 7;
  }

  /** No string is accepted both as an access token and as a refresh token, at whatever two instants. */
  lemma AcceptanceIsDisjoint(settings: Settings, token: Jwt, clock: Time, later: Time)
    ensures Validate(settings, Access, token, clock).Err? || Validate(settings, Refresh, token, later).Err?
  {
    KindsDiffer();
  }
}
