/** app/repositories/token_repository.py over the session's row objects. */
module TokenRepositories {
  import opened Basics
  import opened Claims
  import opened Tables
  import opened TokenTable
  import opened TokenProtocol
  import opened Database

  class TokenRepository {
    const db: Session

    constructor (db: Session)
      ensures this.db == db
    {
      this.db := db;
    }

    /** Insert a row; token_hash is UNIQUE and the identifier inside the token has been drawn. */
    method Create(userId: Uuid, tokenHash: Digest<Jwt>, expiresAt: Time, context: Context) returns (token: RefreshToken)
      requires db.Valid()
      requires FindToken(db.tokenRows, tokenHash).None?
      requires JtiOf(NewToken(userId, context, tokenHash, expiresAt)) < db.drawn
      modifies db`tokens, db`tokenRows
      ensures db.Valid() && fresh(token) && db.tokens == old(db.tokens) + [token]
      ensures db.Model() == old(db.Model()).(tokens :=
        old(db.tokenRows) + [NewToken(userId, context, tokenHash, expiresAt)])
    {
      hide Session.CredentialsTied, Session.ResetsTied;
      token := new RefreshToken(|db.tokens|, userId, context, tokenHash, expiresAt);
      db.tokens := db.tokens + [token];
      db.tokenRows := db.tokenRows + [token.Row()];
    }

    method GetByTokenHash(tokenHash: Digest<Jwt>) returns (token: RefreshToken?)
      requires db.Valid()
      ensures var found := FindToken(db.tokenRows, tokenHash);
        if token == null then found.None? else found.Some? && token in db.tokens && token.id == found.value
      ensures token != null ==> token.id < |db.tokenRows| && token.Row() == db.tokenRows[token.id]
    {
      hide Session.CredentialsTied, Session.ResetsTied;
      var rows := TokenRows(db.tokens);
      assert rows == db.tokenRows;
      var found := FindToken(rows, tokenHash);
      token := if found.Some? then db.tokens[found.value] else null;
    }

    /** The unrevoked rows of a user that match the scope, each once, newest first: insertion order stands for
        created_at. */
    method GetActiveByUser(userId: Uuid, scope: Scope) returns (selected: seq<RefreshToken>, ghost indices: seq<nat>)
      requires db.Valid()
      ensures |selected| == |indices| == |ActiveInScope(db.tokenRows, userId, scope)|
      ensures forall i | 0 <= i < |db.tokens| :: i in indices <==> i in ActiveInScope(db.tokenRows, userId, scope)
      ensures forall k | 0 <= k < |indices| :: indices[k] < |db.tokens| && selected[k] == db.tokens[indices[k]]
      ensures forall k, l | 0 <= k < l < |indices| :: indices[k] > indices[l]
    {
      hide ActiveInScope, InScope, Session.CredentialsTied, Session.ResetsTied;
      selected, indices := [], [];
      ghost var rows := db.tokenRows;
      EmptyScope(rows, userId, scope);
      for i := 0 to |db.tokens|
        invariant |selected| == |indices| == |ActiveInScope(rows[..i], userId, scope)|
        invariant forall j | 0 <= j < |rows| :: j in indices <==>
          j < i && !rows[j].isRevoked && InScope(rows[j], userId, scope)
        invariant forall k | 0 <= k < |indices| :: indices[k] < i && selected[k] == db.tokens[indices[k]]
        invariant forall k, l | 0 <= k < l < |indices| :: indices[k] > indices[l]
      {
        ScopeOfPrefix(rows, userId, scope, i);
        var row := db.tokens[i].Row();
        assert row == rows[i];
        if !row.isRevoked && InScope(row, userId, scope) {
          selected, indices := [db.tokens[i]] + selected, [i] + indices;
        }
      }
      assert rows[..|db.tokens|] == rows;
      ScopeMembers(rows, userId, scope);
    }

    /** Revoke one row. */
    method Revoke(token: RefreshToken, revokedAt: Time)
      requires db.Valid() && token in db.tokens
      modifies token, db`tokenRows
      ensures db.Valid()
      ensures db.Model() == old(db.Model()).(tokens :=
        old(db.tokenRows)[token.id := RevokedToken(old(db.tokenRows)[token.id], revokedAt)])
    {
      hide Session.CredentialsTied, Session.ResetsTied;
      token.isRevoked := true;
      token.revokedAt := Some(revokedAt);
      db.tokenRows := db.tokenRows[token.id := token.Row()];
    }

    /** Record the latest use of a row. */
    method MarkUsed(token: RefreshToken, usedAt: Time)
      requires db.Valid() && token in db.tokens
      modifies token, db`tokenRows
      ensures db.Valid()
      ensures db.Model() == old(db.Model()).(tokens :=
        old(db.tokenRows)[token.id := old(db.tokenRows)[token.id].(lastUsedAt := Some(usedAt))])
    {
      hide Session.CredentialsTied, Session.ResetsTied;
      token.lastUsedAt := Some(usedAt);
      db.tokenRows := db.tokenRows[token.id := token.Row()];
    }

    /** Revoke a row and link it to its replacement. */
    method Rotate(token: RefreshToken, replacementTokenId: nat, revokedAt: Time)
      requires db.Valid() && token in db.tokens
      modifies token, db`tokenRows
      ensures db.Valid()
      ensures db.Model() == old(db.Model()).(
        tokens := old(db.tokenRows)[token.id :=
          RevokedToken(old(db.tokenRows)[token.id], revokedAt).(replacedBy := Some(replacementTokenId))])
    {
      hide Session.CredentialsTied, Session.ResetsTied;
      token.isRevoked := true;
      token.revokedAt := Some(revokedAt);
      token.replacedBy := Some(replacementTokenId);
      db.tokenRows := db.tokenRows[token.id := token.Row()];
    }

    /** Revoke, one by one, the unrevoked rows that match the scope; the loop's effect is the declarative one. */
    method RevokeAllForUser(userId: Uuid, revokedAt: Time, scope: Scope) returns (count: nat)
      requires db.Valid()
      modifies db.tokens, db`tokenRows
      ensures db.Valid()
      ensures db.Model() == old(db.Model()).(tokens := RevokeScope(old(db.tokenRows), userId, scope, revokedAt))
      ensures count == |ActiveInScope(old(db.tokenRows), userId, scope)|
      ensures count == |set i | 0 <= i < |old(db.tokenRows)| && db.tokenRows[i] != old(db.tokenRows)[i]|
      ensures forall i | 0 <= i < |old(db.tokenRows)| ::
        var row := old(db.tokenRows)[i];
        var hit := PassesFilters(row, userId, scope.contextType, scope.organizationId, scope.membershipId);
        db.tokenRows[i] == if !row.isRevoked && hit then row.(isRevoked := true, revokedAt := Some(revokedAt)) else row
    {
      hide ActiveInScope, RevokeScope, InScope, Session.CredentialsTied, Session.ResetsTied;
      ghost var rows := db.tokenRows;
      var selected, indices := GetActiveByUser(userId, scope);
      for k := 0 to |selected|
        invariant db.Valid()
        invariant forall i | 0 <= i < |rows| ::
          db.tokenRows[i] == if i in indices[..k] then RevokedToken(rows[i], revokedAt) else rows[i]
      {
        Revoke(selected[k], revokedAt);
      }
      assert indices[..|selected|] == indices;
      assert db.tokenRows == RevokeScope(rows, userId, scope, revokedAt);
      RevocationByColumns(rows, userId, scope.contextType, scope.organizationId, scope.membershipId, revokedAt);
      count := |selected|;
    }
  }

  lemma ScopeOfPrefix(rows: seq<TokenRow>, userId: Uuid, scope: Scope, i: nat)
    requires i < |rows|
    ensures |ActiveInScope(rows[..i + 1], userId, scope)| ==
      |ActiveInScope(rows[..i], userId, scope)|
        + (if !rows[i].isRevoked && InScope(rows[i], userId, scope) then 1 else 0)
  {
    assert ActiveInScope(rows[..i + 1], userId, scope) ==
      ActiveInScope(rows[..i], userId, scope)
        + (if !rows[i].isRevoked && InScope(rows[i], userId, scope) then {i} else {});
  }

  lemma EmptyScope(rows: seq<TokenRow>, userId: Uuid, scope: Scope)
    ensures |ActiveInScope(rows[..0], userId, scope)| == 0
  {
    assert ActiveInScope(rows[..0], userId, scope) == {};
  }

  lemma ScopeMembers(rows: seq<TokenRow>, userId: Uuid, scope: Scope)
    ensures forall j | 0 <= j < |rows| :: j in ActiveInScope(rows, userId, scope) <==>
      !rows[j].isRevoked && InScope(rows[j], userId, scope)
  {
  }
}
