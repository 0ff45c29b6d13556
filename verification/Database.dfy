/** The SQLAlchemy session: the mapped row objects that the repositories update in place, the tables that hold them,
    and the store that they represent. */
module Database {
  import opened Basics
  import opened Claims
  import opened Tables
  import opened TokenTable
  import opened TokenProtocol
  import opened Lockout

  class RefreshToken {
    const id: nat
    const userId: Uuid
    const context: Context
    const tokenHash: Digest<Jwt>
    const expiresAt: Time
    var isRevoked: bool
    var revokedAt: Option<Time>
    var lastUsedAt: Option<Time>
    var replacedBy: Option<nat>

    constructor (id: nat, userId: Uuid, context: Context, tokenHash: Digest<Jwt>, expiresAt: Time)
      ensures this.id == id && Row() == NewToken(userId, context, tokenHash, expiresAt)
    {
      this.id := id;
      this.userId, this.context, this.tokenHash, this.expiresAt := userId, context, tokenHash, expiresAt;
      isRevoked, revokedAt, lastUsedAt, replacedBy := false, None, None, None;
    }

    function Row(): TokenRow
      reads this
    {
      TokenRow(userId, context, tokenHash, expiresAt, isRevoked, revokedAt, lastUsedAt, replacedBy)
    }
  }

  class AuthCredential {
    const userId: Uuid
    var passwordHash: PasswordHash
    var isActive: bool
    var isLocked: bool
    var failedLoginCount: int
    var lockedUntil: Option<Time>
    var passwordChangedAt: Time
    var lastLoginAt: Option<Time>

    constructor (userId: Uuid, passwordHash: PasswordHash, now: Time)
      ensures this.userId == userId && Row() == Credential(passwordHash, true, false, 0, None, now, None)
    {
      this.userId, this.passwordHash, passwordChangedAt := userId, passwordHash, now;
      isActive, isLocked, failedLoginCount, lockedUntil, lastLoginAt := true, false, 0, None, None;
    }

    function Row(): Credential
      reads this
    {
      Credential(passwordHash, isActive, isLocked, failedLoginCount, lockedUntil, passwordChangedAt, lastLoginAt)
    }

    method SetPassword(passwordHash: PasswordHash, changedAt: Time)
      modifies this
      ensures Row() == old(Row()).(passwordHash := passwordHash, passwordChangedAt := changedAt)
    {
      this.passwordHash := passwordHash;
      passwordChangedAt := changedAt;
    }

    method ClearFailures(loginAt: Time)
      modifies this
      ensures Row() == AfterSuccessfulLogin(old(Row()), loginAt)
    {
      failedLoginCount := 0;
      isLocked := false;
      lockedUntil := None;
      lastLoginAt := Some(loginAt);
    }
  }

  class PasswordReset {
    const id: nat
    const userId: Uuid
    const tokenHash: Digest<Secret>
    const expiresAt: Time
    var isUsed: bool
    var usedAt: Option<Time>

    constructor (id: nat, userId: Uuid, tokenHash: Digest<Secret>, expiresAt: Time)
      ensures this.id == id && Row() == ResetRow(userId, tokenHash, expiresAt, false, None)
    {
      this.id, this.userId, this.tokenHash, this.expiresAt := id, userId, tokenHash, expiresAt;
      isUsed, usedAt := false, None;
    }

    function Row(): ResetRow
      reads this
    {
      ResetRow(userId, tokenHash, expiresAt, isUsed, usedAt)
    }
  }

  /** The mapped objects of every table. Ghost fields hold the rows that the objects represent; `Valid` ties them
      to the objects. */
  class Session {
    var tokens: seq<RefreshToken>
    var credentials: map<Uuid, AuthCredential>
    var resets: seq<PasswordReset>
    var attempts: seq<LoginAttempt>
    var authEvents: seq<AuthEvent>
    var securityEvents: seq<SecurityEvent>
    var drawn: nat

    ghost var tokenRows: seq<TokenRow>
    ghost var credentialRows: map<Uuid, Credential>
    ghost var resetRows: seq<ResetRow>

    /** A session opened on these tables, with an object of its own for every row. */
    constructor (tables: Store)
      requires IdentifiersDrawn(tables)
      ensures Valid() && Model() == tables
      ensures fresh(tokens) && fresh(resets) && forall u | u in credentials :: fresh(credentials[u])
    {
      tokens, credentials, resets := [], map[], [];
      attempts, authEvents, securityEvents, drawn := tables.attempts, tables.authEvents, tables.securityEvents,
        tables.drawn;
      tokenRows, credentialRows, resetRows := tables.tokens, tables.credentials, tables.resets;
      new;
      hide IdsAreDrawn;
      var tokenObjects := LoadTokens(tables.tokens);
      var credentialObjects := LoadCredentials(tables.credentials);
      var resetObjects := LoadResets(tables.resets);
      tokens, credentials, resets := tokenObjects, credentialObjects, resetObjects;
      assert TokensTied();
      assert CredentialsTied();
      assert ResetsTied();
    }

    /** The tables as the objects now have them. */
    method Flush() returns (tables: Store)
      requires Valid()
      ensures tables == Model() && IdentifiersDrawn(tables)
    {
      var tokenTable := TokenRows(tokens);
      var credentialTable := map u | u in credentials :: credentials[u].Row();
      var resetTable := ResetRowsOf(resets);
      assert tokenTable == tokenRows && credentialTable == credentialRows && resetTable == resetRows;
      tables := Store(tokenTable, credentialTable, resetTable, attempts, authEvents, securityEvents, drawn);
    }

    /** The store that the session represents. */
    ghost function Model(): Store
      reads this
    {
      Store(tokenRows, credentialRows, resetRows, attempts, authEvents, securityEvents, drawn)
    }

    /** Each refresh token row has its own object, numbered by its position, and the identifier inside the token that
        hashes to it has been drawn. */
    ghost predicate TokensTied()
      reads this`tokens, this`tokenRows, this`drawn, tokens
    {
      && |tokenRows| == |tokens|
      && (forall i | 0 <= i < |tokens| :: tokens[i].id == i && tokens[i].Row() == tokenRows[i])
      && IdsAreDrawn(tokenRows, drawn)
    }

    ghost predicate CredentialsTied()
      reads this`credentials, this`credentialRows, (set u | u in credentials :: credentials[u])
    {
      && credentialRows.Keys == credentials.Keys
      && (forall u | u in credentials :: credentials[u].userId == u && credentials[u].Row() == credentialRows[u])
    }

    ghost predicate ResetsTied()
      reads this`resets, this`resetRows, this`drawn, resets
    {
      && |resetRows| == |resets|
      && (forall i | 0 <= i < |resets| :: resets[i].id == i && resets[i].Row() == resetRows[i])
      && (forall i | 0 <= i < |resetRows| :: resetRows[i].tokenHash.preimage < drawn)
    }

    /** Objects and rows agree. Identifiers still to be drawn are not in use, so neither the UNIQUE constraint on
        refresh_tokens.token_hash nor the one on password_resets.token_hash can fail on them. */
    ghost predicate Valid()
      reads this, tokens, (set u | u in credentials :: credentials[u]), resets
    {
      TokensTied() && CredentialsTied() && ResetsTied()
    }

    /** This object is the row of its user. */
    predicate Holds(credential: AuthCredential)
      reads this`credentials
    {
      credential.userId in credentials && credentials[credential.userId] == credential
    }

    /** Draw a random identifier, uuid4() or token_urlsafe(): one that no row holds. */
    method Draw() returns (id: nat)
      requires Valid()
      modifies this`drawn
      ensures Valid() && id == old(drawn)
      ensures Model() == old(Model()).(drawn := old(drawn) + 1)
      ensures forall i | 0 <= i < |tokenRows| :: JtiOf(tokenRows[i]) != id
      ensures forall i | 0 <= i < |resetRows| :: resetRows[i].tokenHash.preimage != id
    {
      id := drawn;
      drawn := drawn + 1;
    }
  }

  /** Every identifier in the tables has been drawn. */
  ghost predicate IdentifiersDrawn(tables: Store) {
    IdsAreDrawn(tables.tokens, tables.drawn) && forall i | 0 <= i < |tables.resets| ::
      tables.resets[i].tokenHash.preimage < tables.drawn
  }

  method LoadTokens(rows: seq<TokenRow>) returns (tokens: seq<RefreshToken>)
    ensures fresh(tokens) && |tokens| == |rows|
    ensures forall i | 0 <= i < |rows| :: tokens[i].id == i && tokens[i].Row() == rows[i]
  {
    tokens := [];
    for i := 0 to |rows|
      invariant fresh(tokens) && |tokens| == i
      invariant forall j | 0 <= j < i :: tokens[j].id == j && tokens[j].Row() == rows[j]
    {
      var row := rows[i];
      var token := new RefreshToken(i, row.userId, row.context, row.tokenHash, row.expiresAt);
      token.isRevoked, token.revokedAt := row.isRevoked, row.revokedAt;
      token.lastUsedAt, token.replacedBy := row.lastUsedAt, row.replacedBy;
      tokens := tokens + [token];
    }
  }

  method LoadCredential(userId: Uuid, row: Credential) returns (credential: AuthCredential)
    ensures fresh(credential) && credential.userId == userId && credential.Row() == row
  {
    credential := new AuthCredential(userId, row.passwordHash, row.passwordChangedAt);
    credential.isActive, credential.isLocked, credential.failedLoginCount := row.isActive, row.isLocked,
      row.failedLoginCount;
    credential.lockedUntil, credential.lastLoginAt := row.lockedUntil, row.lastLoginAt;
  }

  method LoadCredentials(rows: map<Uuid, Credential>) returns (credentials: map<Uuid, AuthCredential>)
    ensures credentials.Keys == rows.Keys
    ensures forall u | u in rows ::
      fresh(credentials[u]) && credentials[u].userId == u && credentials[u].Row() == rows[u]
  {
    credentials := map[];
    var rest := rows.Keys;
    while rest != {}
      invariant credentials.Keys == rows.Keys - rest && rest <= rows.Keys
      invariant forall u | u in credentials ::
        fresh(credentials[u]) && credentials[u].userId == u && credentials[u].Row() == rows[u]
      decreases |rest|
    {
      var u :| u in rest;
      var credential := LoadCredential(u, rows[u]);
      credentials, rest := credentials[u := credential], rest - {u};
    }
  }

  method LoadResets(rows: seq<ResetRow>) returns (resets: seq<PasswordReset>)
    ensures fresh(resets) && |resets| == |rows|
    ensures forall i | 0 <= i < |rows| :: resets[i].id == i && resets[i].Row() == rows[i]
  {
    resets := [];
    for i := 0 to |rows|
      invariant fresh(resets) && |resets| == i
      invariant forall j | 0 <= j < i :: resets[j].id == j && resets[j].Row() == rows[j]
    {
      var reset := new PasswordReset(i, rows[i].userId, rows[i].tokenHash, rows[i].expiresAt);
      reset.isUsed, reset.usedAt := rows[i].isUsed, rows[i].usedAt;
      resets := resets + [reset];
    }
  }

  /** The rows of objects, read off the objects. */
  function TokenRows(tokens: seq<RefreshToken>): (rows: seq<TokenRow>)
    reads tokens
    ensures |rows| == |tokens| && forall i | 0 <= i < |tokens| :: rows[i] == tokens[i].Row()
  {
    if tokens == [] then [] else TokenRows(tokens[..|tokens| - 1]) + [tokens[|tokens| - 1].Row()]
  }

  function ResetRowsOf(resets: seq<PasswordReset>): (rows: seq<ResetRow>)
    reads resets
    ensures |rows| == |resets| && forall i | 0 <= i < |resets| :: rows[i] == resets[i].Row()
  {
    if resets == [] then [] else ResetRowsOf(resets[..|resets| - 1]) + [resets[|resets| - 1].Row()]
  }
}
