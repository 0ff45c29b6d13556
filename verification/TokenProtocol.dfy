/** What each call of app/services/token_service.py does to the store, the lineage of stored tokens, and
    the invariant that every table change keeps. */
module TokenProtocol {
  import opened Basics
  import opened Claims
  import opened Tables
  import opened TokenTable

  datatype TokenPair = TokenPair(accessToken: Jwt, refreshToken: Jwt)

  // ---------------------------------------------------------------------------------------------
  // The calls
  // ---------------------------------------------------------------------------------------------

  /** The row that issuing tokens inserts after `drawn` identifiers have been drawn: the access token
      takes the next identifier, the refresh token the one after it. */
  function IssuedRow(settings: Settings, drawn: nat, userId: Uuid, context: Context, now: Time): TokenRow {
    NewToken(userId, context, Sha256(Mint(settings, Refresh, userId, context, now, drawn + 1)),
      now + settings.refreshLifetime)
  }

  function IssuedPair(settings: Settings, drawn: nat, userId: Uuid, context: Context, now: Time): TokenPair {
    TokenPair(Mint(settings, Access, userId, context, now, drawn),
      Mint(settings, Refresh, userId, context, now, drawn + 1))
  }

  function IssueTokens(settings: Settings, s: Store, userId: Uuid, context: Context, now: Time): (Store, TokenPair) {
    (s.(tokens := s.tokens + [IssuedRow(settings, s.drawn, userId, context, now)], drawn := s.drawn + 2),
     IssuedPair(settings, s.drawn, userId, context, now))
  }

  /** Rotation once the presented token and its claims have been accepted. */
  function RotateToken(
    settings: Settings, s: Store, index: nat, userId: Uuid, context: Context, now: Time): (Store, Result<TokenPair>)
    requires index < |s.tokens|
  {
    var (issued, pair) := IssueTokens(settings, s, userId, context, now);
    match FindToken(issued.tokens, Sha256(pair.refreshToken))
    case None => (issued, Err(InvalidTokenError))
    case Some(replacement) =>
      var rotated := issued.(tokens := issued.tokens[index := RotatedToken(issued.tokens[index], replacement, now)]);
      (WithAuthEvent(rotated, AuthEvent(Some(userId), context, TOKEN_REFRESH, None)), Ok(pair))
  }

  /** `clock` is the JWT library's own reading of the time, `now` the service's. */
  function RefreshTokens(settings: Settings, s: Store, token: Jwt, now: Time, clock: Time): (Store, Result<TokenPair>) {
    match Validate(settings, Refresh, token, clock)
    case Err(e) => (s, Err(e))
    case Ok(payload) =>
      var userId := payload.sub.text.id;
      match FindToken(s.tokens, Sha256(token))
      case None => (s, Err(InvalidTokenError))
      case Some(index) =>
        var row := s.tokens[index];
        if row.isRevoked then (s, Err(RevokedTokenError))
        else if row.expiresAt <= now then (s, Err(ExpiredTokenError))
        else if row.userId != userId then (s, Err(InvalidTokenError))
        else match ExtractContext(payload)
          case Err(e) => (s, Err(e))
          case Ok(context) => RotateToken(settings, s, index, userId, context, now)
  }

  /** revoke falls back to PERSONAL on a context claim that is not a string. */
  function RevocationContext(payload: Payload): Result<Context> {
    var contextType := ContextTypeClaim(payload);
    match OptionalUuidClaim(payload.organizationId)
    case Err(e) => Err(e)
    case Ok(organizationId) =>
      match OptionalUuidClaim(payload.membershipId)
      case Err(e) => Err(e)
      case Ok(membershipId) =>
        Ok(Context(if contextType.Str? then contextType.text else PERSONAL, organizationId, membershipId))
  }

  /** The row is revoked before the optional claims are parsed: a bad claim raises after that write. */
  function RevokeToken(settings: Settings, s: Store, token: Jwt, now: Time, clock: Time): (Store, Result<()>) {
    match Validate(settings, Refresh, token, clock)
    case Err(e) => (s, Err(e))
    case Ok(payload) =>
      match FindToken(s.tokens, Sha256(token))
      case None => (s, Err(InvalidTokenError))
      case Some(index) =>
        if s.tokens[index].isRevoked then (s, Err(RevokedTokenError))
        else
          var revoked := s.(tokens := s.tokens[index := RevokedToken(s.tokens[index], now)]);
          match RevocationContext(payload)
          case Err(e) => (revoked, Err(e))
          case Ok(context) =>
            (WithAuthEvent(revoked, AuthEvent(Some(payload.sub.text.id), context, TOKEN_REVOKED, None)), Ok(()))
  }

  function RevokeAllTokens(s: Store, userId: Uuid, scope: Scope, now: Time): (Store, nat) {
    (s.(tokens := RevokeScope(s.tokens, userId, scope, now)), |ActiveInScope(s.tokens, userId, scope)|)
  }

  // ---------------------------------------------------------------------------------------------
  // Lineage
  // ---------------------------------------------------------------------------------------------

  /** The identifier inside the token that hashes to a row. */
  function JtiOf(row: TokenRow): nat {
    var token := row.tokenHash.preimage;
    if token.Signed? && token.payload.jti.Str? && token.payload.jti.text.UuidText?
    then token.payload.jti.text.id
    else 0
  }

  /** Every stored identifier has been drawn, so the next one drawn is new: uuid4 does not repeat. */
  ghost predicate IdsAreDrawn(rows: seq<TokenRow>, drawn: nat) {
    forall i | 0 <= i < |rows| :: JtiOf(rows[i]) < drawn
  }

  /** The token that hashes to the row was minted by this service for the row's own user and context,
      one lifetime before the row's expiry. */
  predicate MintedRow(settings: Settings, row: TokenRow) {
    row.tokenHash ==
      Sha256(Mint(settings, Refresh, row.userId, row.context, row.expiresAt - settings.refreshLifetime, JtiOf(row)))
  }

  /** Every row is minted with an identifier already drawn; identifiers climb, so the UNIQUE constraint on token_hash
      holds. */
  ghost predicate TokenLineage(settings: Settings, rows: seq<TokenRow>, drawn: nat) {
    && (forall i | 0 <= i < |rows| :: MintedRow(settings, rows[i]) && JtiOf(rows[i]) < drawn)
    && (forall i, j | 0 <= i < j < |rows| :: JtiOf(rows[i]) < JtiOf(rows[j]))
  }

  ghost predicate TokenInvariant(settings: Settings, rows: seq<TokenRow>, drawn: nat) {
    TokenLineage(settings, rows, drawn) && RotationForest(rows)
  }

  lemma IssuedRowIsMinted(settings: Settings, drawn: nat, userId: Uuid, context: Context, now: Time)
    ensures var row := IssuedRow(settings, drawn, userId, context, now);
      MintedRow(settings, row) && JtiOf(row) == drawn + 1 && row.expiresAt - settings.refreshLifetime == now
  {
    ClaimsRoundTrip(settings, Refresh, userId, context, now, drawn + 1, now);
  }

  /** No stored row collides with a row about to be issued: the insertion meets the UNIQUE constraint,
      and looking the new token up finds the new row. */
  lemma IssuedRowIsNew(settings: Settings, rows: seq<TokenRow>, drawn: nat, userId: Uuid, context: Context, now: Time)
    requires IdsAreDrawn(rows, drawn)
    ensures var row := IssuedRow(settings, drawn, userId, context, now);
      && FindToken(rows, row.tokenHash) == None
      && FindToken(rows + [row], row.tokenHash) == Some(|rows|)
  {
    var row := IssuedRow(settings, drawn, userId, context, now);
    IssuedRowIsMinted(settings, drawn, userId, context, now);
    forall i | 0 <= i < |rows|
      ensures rows[i].tokenHash != row.tokenHash
    {
      assert JtiOf(rows[i]) < drawn;
    }
    assert (rows + [row])[..|rows|] == rows;
  }

  /** Looking a stored row's hash up finds that row. */
  lemma FindStoredToken(settings: Settings, rows: seq<TokenRow>, drawn: nat, i: nat)
    requires TokenLineage(settings, rows, drawn) && i < |rows|
    ensures FindToken(rows, rows[i].tokenHash) == Some(i)
  {
    var found := FindToken(rows, rows[i].tokenHash);
    assert found.Some? && JtiOf(rows[found.value]) == JtiOf(rows[i]);
  }

  /** Lineage agreement: the claims of the token that hashes to a row give back the row's user and context,
      so neither the subject check nor any claim check of refresh or revoke can fail on a stored token. */
  lemma StoredClaimsAgree(settings: Settings, rows: seq<TokenRow>, drawn: nat, i: nat, at: Time)
    requires TokenLineage(settings, rows, drawn) && i < |rows|
    ensures var token := rows[i].tokenHash.preimage;
      && token.Signed? && token.payload.sub == Str(UuidText(rows[i].userId))
      && ExtractContext(token.payload) == Ok(rows[i].context)
      && RevocationContext(token.payload) == Ok(rows[i].context)
      && (Validate(settings, Refresh, token, at).Ok? <==>
            Seconds(rows[i].expiresAt - settings.refreshLifetime) <= Seconds(at) < Seconds(rows[i].expiresAt))
  {
    assert MintedRow(settings, rows[i]);
    MintedRowClaims(settings, rows[i], JtiOf(rows[i]), at);
  }

  lemma MintedRowClaims(settings: Settings, row: TokenRow, jti: Uuid, at: Time)
    requires row.tokenHash ==
      Sha256(Mint(settings, Refresh, row.userId, row.context, row.expiresAt - settings.refreshLifetime, jti))
    ensures var token := row.tokenHash.preimage;
      && token.Signed? && token.payload.sub == Str(UuidText(row.userId))
      && ExtractContext(token.payload) == Ok(row.context)
      && RevocationContext(token.payload) == Ok(row.context)
      && (Validate(settings, Refresh, token, at).Ok? <==>
            Seconds(row.expiresAt - settings.refreshLifetime) <= Seconds(at) < Seconds(row.expiresAt))
  {
    var issuedAt := row.expiresAt - settings.refreshLifetime;
    ClaimsRoundTrip(settings, Refresh, row.userId, row.context, issuedAt, jti, at);
    SameContext(row.tokenHash.preimage.payload);
  }

  /** The context that revoke logs, claim by claim: like refresh, but a type that is not a string means PERSONAL. */
  lemma RevocationContextExactly(payload: Payload)
    ensures RevocationContext(payload).Ok? <==>
      IsOptionalUuid(payload.organizationId) && IsOptionalUuid(payload.membershipId)
    ensures RevocationContext(payload).Err? ==> RevocationContext(payload) == Err(InvalidTokenError)
    ensures RevocationContext(payload).Ok? ==>
      RevocationContext(payload) == ExtractContext(
        if payload.contextType.Str? then payload else payload.(contextType := Str(Plain("PERSONAL"))))
  {
  }

  /** revoke reads the same context as refresh whenever refresh reads one. */
  lemma SameContext(payload: Payload)
    ensures ExtractContext(payload).Ok? ==> RevocationContext(payload) == ExtractContext(payload)
  {
  }

  // ---------------------------------------------------------------------------------------------
  // Table changes
  // ---------------------------------------------------------------------------------------------

  /** Everything that a call can do to the refresh_tokens table. */
  datatype Change =
    | Untouched
    | Issue(userId: Uuid, context: Context, at: Time)
    | Rotate(index: nat, at: Time)
    | RevokeOne(index: nat, at: Time)
    | RevokeMany(userId: Uuid, scope: Scope, at: Time)

  predicate Enabled(rows: seq<TokenRow>, change: Change) {
    match change
    case Rotate(i, at) => i < |rows| && !rows[i].isRevoked && at < rows[i].expiresAt
    case RevokeOne(i, _) => i < |rows| && !rows[i].isRevoked
    case _ => true
  }

  function ApplyChange(settings: Settings, rows: seq<TokenRow>, drawn: nat, change: Change): seq<TokenRow>
    requires Enabled(rows, change)
  {
    match change
    case Untouched => rows
    case Issue(userId, context, at) => rows + [IssuedRow(settings, drawn, userId, context, at)]
    case Rotate(i, at) =>
      rows[i := RotatedToken(rows[i], |rows|, at)] + [IssuedRow(settings, drawn, rows[i].userId, rows[i].context, at)]
    case RevokeOne(i, at) => rows[i := RevokedToken(rows[i], at)]
    case RevokeMany(userId, scope, at) => RevokeScope(rows, userId, scope, at)
  }

  /** How many identifiers a change draws. */
  function Draws(change: Change): nat {
    if change.Issue? || change.Rotate? then 2 else 0
  }

  predicate NotBefore(change: Change, clock: Time) {
    change.Untouched? || clock <= change.at
  }

  predicate NotAfter(change: Change, clock: Time) {
    change.Untouched? || change.at <= clock
  }

  /** A rotation is exactly what RotateToken does for a row's own user and context. */
  lemma RotateTokenIsRotation(settings: Settings, s: Store, i: nat, now: Time)
    requires TokenLineage(settings, s.tokens, s.drawn)
    requires Enabled(s.tokens, Rotate(i, now))
    ensures var row := s.tokens[i];
      RotateToken(settings, s, i, row.userId, row.context, now) ==
        (WithAuthEvent(
           s.(tokens := ApplyChange(settings, s.tokens, s.drawn, Rotate(i, now)), drawn := s.drawn + 2),
           AuthEvent(Some(row.userId), row.context, TOKEN_REFRESH, None)),
         Ok(IssuedPair(settings, s.drawn, row.userId, row.context, now)))
  {
    var row := s.tokens[i];
    IssuedRowIsNew(settings, s.tokens, s.drawn, row.userId, row.context, now);
    var issued := s.tokens + [IssuedRow(settings, s.drawn, row.userId, row.context, now)];
    assert issued[i := RotatedToken(row, |s.tokens|, now)] == ApplyChange(settings, s.tokens, s.drawn, Rotate(i, now));
  }

  /** Every table change only freezes or appends. */
  lemma ChangeEvolves(settings: Settings, rows: seq<TokenRow>, drawn: nat, change: Change)
    requires Enabled(rows, change)
    ensures Evolves(rows, ApplyChange(settings, rows, drawn, change))
  {
  }

  /** Lineage is a matter of the identity columns only. */
  lemma LineageOfIdentity(settings: Settings, rows: seq<TokenRow>, rows': seq<TokenRow>, drawn: nat, drawn': nat)
    requires TokenLineage(settings, rows, drawn)
    requires |rows| == |rows'| && Evolves(rows, rows') && drawn <= drawn'
    ensures TokenLineage(settings, rows', drawn')
  {
    forall i | 0 <= i < |rows|
      ensures JtiOf(rows'[i]) == JtiOf(rows[i]) && MintedRow(settings, rows'[i])
    {
      assert MintedRow(settings, rows[i]);
    }
  }

  lemma LineageAppend(settings: Settings, rows: seq<TokenRow>, row: TokenRow, drawn: nat)
    requires TokenLineage(settings, rows, drawn)
    requires MintedRow(settings, row) && JtiOf(row) == drawn + 1
    ensures TokenLineage(settings, rows + [row], drawn + 2)
  {
  }

  lemma ChangeKeepsLineage(settings: Settings, rows: seq<TokenRow>, drawn: nat, change: Change)
    requires TokenLineage(settings, rows, drawn) && Enabled(rows, change)
    ensures TokenLineage(settings, ApplyChange(settings, rows, drawn, change), drawn + Draws(change))
  {
    match change
    case Issue(userId, context, at) =>
      IssuedRowIsMinted(settings, drawn, userId, context, at);
      LineageAppend(settings, rows, IssuedRow(settings, drawn, userId, context, at), drawn);
    case Rotate(i, at) =>
      var rotated := rows[i := RotatedToken(rows[i], |rows|, at)];
      IssuedRowIsMinted(settings, drawn, rows[i].userId, rows[i].context, at);
      LineageOfIdentity(settings, rows, rotated, drawn, drawn);
      LineageAppend(settings, rotated, IssuedRow(settings, drawn, rows[i].userId, rows[i].context, at), drawn);
    case _ =>
      LineageOfIdentity(settings, rows, ApplyChange(settings, rows, drawn, change), drawn, drawn);
  }

  lemma ChangeKeepsForest(settings: Settings, rows: seq<TokenRow>, drawn: nat, change: Change)
    requires RotationForest(rows) && Enabled(rows, change)
    ensures RotationForest(ApplyChange(settings, rows, drawn, change))
  {
    match change
    case Untouched =>
    case Issue(userId, context, at) =>
      ForestAfterInsertion(rows, IssuedRow(settings, drawn, userId, context, at));
    case Rotate(i, at) =>
      var row := IssuedRow(settings, drawn, rows[i].userId, rows[i].context, at);
      ForestAfterInsertion(rows, row);
      NewestIsRoot(rows, row);
      ForestAfterLink(rows + [row], i, at);
      assert (rows + [row])[i := RotatedToken(rows[i], |rows|, at)] == ApplyChange(settings, rows, drawn, change);
    case RevokeOne(i, at) =>
      ForestAfterRevocation(rows, ApplyChange(settings, rows, drawn, change), at);
    case RevokeMany(userId, scope, at) =>
      ForestAfterRevocation(rows, ApplyChange(settings, rows, drawn, change), at);
  }

  /** Every table change, at whatever instant, keeps lineage and forest. */
  lemma ChangeKeepsInvariant(settings: Settings, rows: seq<TokenRow>, drawn: nat, change: Change)
    requires TokenInvariant(settings, rows, drawn) && Enabled(rows, change)
    ensures TokenInvariant(settings, ApplyChange(settings, rows, drawn, change), drawn + Draws(change))
  {
    ChangeKeepsLineage(settings, rows, drawn, change);
    ChangeKeepsForest(settings, rows, drawn, change);
  }

  /** Every table change, made no earlier than the last one, keeps the chronology. */
  lemma ChangeKeepsChronology(
    settings: Settings, rows: seq<TokenRow>, drawn: nat, clock: Time, change: Change, clock': Time)
    requires RotationForest(rows) && Chronology(rows, settings.refreshLifetime, clock) && Enabled(rows, change)
    requires clock <= clock' && NotBefore(change, clock) && NotAfter(change, clock')
    ensures Chronology(ApplyChange(settings, rows, drawn, change), settings.refreshLifetime, clock')
  {
    hide Mint;
    var rows' := ApplyChange(settings, rows, drawn, change);
    forall i | 0 <= i < |rows'|
      ensures TimelyLink(rows', settings.refreshLifetime, i)
    {
      if i < |rows| {
        assert WellFormedRow(rows[i]) && TimelyLink(rows, settings.refreshLifetime, i);
      }
    }
  }

  /** Bookkeeping of one change: how the number of unrevoked rows and of replaced rows moves. */
  lemma ChangeCounts(settings: Settings, rows: seq<TokenRow>, drawn: nat, change: Change)
    requires Enabled(rows, change)
    requires forall i | 0 <= i < |rows| :: WellFormedRow(rows[i])
    ensures var rows' := ApplyChange(settings, rows, drawn, change);
      && |LiveTokens(rows')| == |LiveTokens(rows)| + (
           match change
           case Issue(_, _, _) => 1
           case RevokeOne(_, _) => -1
           case RevokeMany(userId, scope, _) => -|ActiveInScope(rows, userId, scope)|
           case _ => 0)
      && |ReplacedTokens(rows')| == |ReplacedTokens(rows)| + (if change.Rotate? then 1 else 0)
      && |rows'| == |rows| + (if change.Issue? || change.Rotate? then 1 else 0)
  {
    match change
    case Untouched =>
    case Issue(userId, context, at) =>
      CountsAppend(rows, IssuedRow(settings, drawn, userId, context, at));
    case Rotate(i, at) =>
      CountsUpdate(rows, i, RotatedToken(rows[i], |rows|, at));
      CountsAppend(rows[i := RotatedToken(rows[i], |rows|, at)],
        IssuedRow(settings, drawn, rows[i].userId, rows[i].context, at));
    case RevokeOne(i, at) =>
      CountsUpdate(rows, i, RevokedToken(rows[i], at));
    case RevokeMany(userId, scope, at) =>
      RevokeScopeMeaning(rows, userId, scope, at);
  }

  // ---------------------------------------------------------------------------------------------
  // Exact acceptance
  // ---------------------------------------------------------------------------------------------

  /** refresh of the token that hashes to row i. With an accepted JWT it succeeds if and only if the row is
      unrevoked and unexpired, it then is exactly a rotation within the row's own context, and otherwise the
      store is untouched and the error says why. */
  lemma RefreshOfStoredToken(settings: Settings, s: Store, i: nat, now: Time, jwtClock: Time)
    requires TokenLineage(settings, s.tokens, s.drawn) && i < |s.tokens|
    ensures
      var row := s.tokens[i];
      var token := row.tokenHash.preimage;
      var (s', r) := RefreshTokens(settings, s, token, now, jwtClock);
      var accepted := Validate(settings, Refresh, token, jwtClock).Ok?;
      && (r.Ok? <==> accepted && !row.isRevoked && now < row.expiresAt)
      && (accepted <==> Seconds(row.expiresAt - settings.refreshLifetime) <= Seconds(jwtClock) < Seconds(row.expiresAt))
      && (r.Ok? ==> (s', r) == RotateToken(settings, s, i, row.userId, row.context, now))
      && (r.Err? ==> s' == s)
      && (!accepted ==> r == Err(Validate(settings, Refresh, token, jwtClock).error))
      && (accepted && row.isRevoked ==> r == Err(RevokedTokenError))
      && (accepted && !row.isRevoked && row.expiresAt <= now ==> r == Err(ExpiredTokenError))
  {
    FindStoredToken(settings, s.tokens, s.drawn, i);
    StoredClaimsAgree(settings, s.tokens, s.drawn, i, jwtClock);
    if !s.tokens[i].isRevoked && now < s.tokens[i].expiresAt {
      RotateTokenIsRotation(settings, s, i, now);
    }
  }

  /** revoke of the token that hashes to row i: the write that precedes the claim checks is never orphaned. */
  lemma RevokeOfStoredToken(settings: Settings, s: Store, i: nat, now: Time, jwtClock: Time)
    requires TokenLineage(settings, s.tokens, s.drawn) && i < |s.tokens|
    ensures
      var row := s.tokens[i];
      var token := row.tokenHash.preimage;
      var (s', r) := RevokeToken(settings, s, token, now, jwtClock);
      var accepted := Validate(settings, Refresh, token, jwtClock).Ok?;
      && (r.Ok? <==> accepted && !row.isRevoked)
      && (r.Ok? ==> s' == WithAuthEvent(
            s.(tokens := ApplyChange(settings, s.tokens, s.drawn, RevokeOne(i, now))),
            AuthEvent(Some(row.userId), row.context, TOKEN_REVOKED, None)))
      && (r.Err? ==> s' == s)
  {
    FindStoredToken(settings, s.tokens, s.drawn, i);
    StoredClaimsAgree(settings, s.tokens, s.drawn, i, jwtClock);
  }

  /** A presented string that hashes to no row is never exchanged and never revokes anything: it is refused for its JWT,
      or as invalid. */
  lemma UnknownTokenIsRefused(settings: Settings, s: Store, token: Jwt, now: Time, jwtClock: Time)
    requires FindToken(s.tokens, Sha256(token)).None?
    ensures
      var refusal := Validate(settings, Refresh, token, jwtClock);
      var error := if refusal.Err? then refusal.error else InvalidTokenError;
      && RefreshTokens(settings, s, token, now, jwtClock) == (s, Err(error))
      && RevokeToken(settings, s, token, now, jwtClock) == (s, Err(error))
  {
  }
}
