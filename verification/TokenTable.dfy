/** The refresh_tokens table: lookups, row updates, scoped revocation, and the theory of the chains that
    `replacedBy` draws through it. */
module TokenTable {
  import opened Basics
  import opened Claims
  import opened Tables

  /** The first row with this hash. */
  function FindToken(rows: seq<TokenRow>, hash: Digest<Jwt>): (found: Option<nat>)
    ensures found.Some? ==> found.value < |rows| && rows[found.value].tokenHash == hash
    ensures found.Some? ==> forall j | 0 <= j < found.value :: rows[j].tokenHash != hash
    ensures found.None? ==> forall j | 0 <= j < |rows| :: rows[j].tokenHash != hash
  {
    if rows == [] then None
    else match FindToken(rows[..|rows| - 1], hash)
      case Some(i) => Some(i)
      case None => if rows[|rows| - 1].tokenHash == hash then Some(|rows| - 1) else None
  }

  function NewToken(userId: Uuid, context: Context, hash: Digest<Jwt>, expiresAt: Time): TokenRow {
    TokenRow(userId, context, hash, expiresAt, false, None, None, None)
  }

  function RevokedToken(row: TokenRow, at: Time): TokenRow {
    row.(isRevoked := true, revokedAt := Some(at))
  }

  /** The rotated row: revoked, linked to its replacement, marked used. */
  function RotatedToken(row: TokenRow, replacement: nat, at: Time): TokenRow {
    row.(isRevoked := true, revokedAt := Some(at), replacedBy := Some(replacement), lastUsedAt := Some(at))
  }

  // ---------------------------------------------------------------------------------------------
  // Scoped bulk revocation
  // ---------------------------------------------------------------------------------------------

  /** The filters of a bulk revocation; None is a wildcard. */
  datatype Scope = Scope(contextType: Option<Text>, organizationId: Option<Uuid>, membershipId: Option<Uuid>)

  predicate InScope(row: TokenRow, userId: Uuid, scope: Scope) {
    && row.userId == userId
    && (scope.contextType.Some? ==> row.context.contextType == scope.contextType.value)
    && (scope.organizationId.Some? ==> row.context.organizationId == scope.organizationId)
    && (scope.membershipId.Some? ==> row.context.membershipId == scope.membershipId)
  }

  /** The unrevoked rows of a user that match the scope: what get_active_by_user selects. */
  function ActiveInScope(rows: seq<TokenRow>, userId: Uuid, scope: Scope): set<nat> {
    set i | 0 <= i < |rows| && !rows[i].isRevoked && InScope(rows[i], userId, scope)
  }

  /** The rows after revoking the whole scope. */
  function RevokeScope(rows: seq<TokenRow>, userId: Uuid, scope: Scope, at: Time): (r: seq<TokenRow>)
    ensures |r| == |rows|
    ensures forall i | 0 <= i < |rows| :: r[i] == if i in ActiveInScope(rows, userId, scope)
      then RevokedToken(rows[i], at) else rows[i]
  {
    seq(|rows|, i requires 0 <= i < |rows| =>
      if !rows[i].isRevoked && InScope(rows[i], userId, scope) then RevokedToken(rows[i], at) else rows[i])
  }

  /** Unrevoked rows. */
  function LiveTokens(rows: seq<TokenRow>): set<nat> {
    set i | 0 <= i < |rows| && !rows[i].isRevoked
  }

  /** Rows that have a replacement. */
  function ReplacedTokens(rows: seq<TokenRow>): set<nat> {
    set i | 0 <= i < |rows| && rows[i].replacedBy.Some?
  }

  lemma CountsAppend(rows: seq<TokenRow>, row: TokenRow)
    requires !row.isRevoked && row.replacedBy.None?
    ensures |LiveTokens(rows + [row])| == |LiveTokens(rows)| + 1
    ensures ReplacedTokens(rows + [row]) == ReplacedTokens(rows)
  {
    assert LiveTokens(rows + [row]) == LiveTokens(rows) + {|rows|};
  }

  lemma CountsUpdate(rows: seq<TokenRow>, i: nat, row: TokenRow)
    requires i < |rows| && !rows[i].isRevoked && rows[i].replacedBy.None? && row.isRevoked
    ensures |LiveTokens(rows[i := row])| == |LiveTokens(rows)| - 1
    ensures |ReplacedTokens(rows[i := row])| == |ReplacedTokens(rows)| + (if row.replacedBy.Some? then 1 else 0)
  {
    assert LiveTokens(rows) == LiveTokens(rows[i := row]) + {i};
    assert ReplacedTokens(rows[i := row]) == if row.replacedBy.Some? then ReplacedTokens(rows) + {i}
      else ReplacedTokens(rows);
  }

  /** A scoped revocation empties its scope, removes exactly it from the live rows, and is idempotent. */
  lemma RevokeScopeMeaning(rows: seq<TokenRow>, userId: Uuid, scope: Scope, at: Time)
    ensures var r := RevokeScope(rows, userId, scope, at);
      && ActiveInScope(r, userId, scope) == {}
      && LiveTokens(r) == LiveTokens(rows) - ActiveInScope(rows, userId, scope)
      && ActiveInScope(rows, userId, scope) <= LiveTokens(rows)
      && |LiveTokens(r)| == |LiveTokens(rows)| - |ActiveInScope(rows, userId, scope)|
      && ReplacedTokens(r) == ReplacedTokens(rows)
      && forall later: Time :: RevokeScope(r, userId, scope, later) == r
  {
    var r := RevokeScope(rows, userId, scope, at);
    var hit := ActiveInScope(rows, userId, scope);
    assert LiveTokens(r) == LiveTokens(rows) - hit;
    assert LiveTokens(rows) == LiveTokens(r) + hit;
    assert ReplacedTokens(r) == ReplacedTokens(rows);
  }

  /** The filters of a bulk revocation against the columns of a row; a filter that is not given lets every row pass. */
  predicate PassesFilters(
    row: TokenRow, userId: Uuid, contextType: Option<Text>, organizationId: Option<Uuid>, membershipId: Option<Uuid>)
  {
    && row.userId == userId
    && contextType in {None, Some(row.context.contextType)}
    && organizationId in {None, row.context.organizationId}
    && membershipId in {None, row.context.membershipId}
  }

  /** A scoped revocation, on columns: it rewrites exactly the unrevoked rows of the user that pass every supplied
      filter, in their two revocation columns only, and its count is the number of rows that it rewrites. */
  lemma RevocationByColumns(
    rows: seq<TokenRow>, userId: Uuid, contextType: Option<Text>, organizationId: Option<Uuid>,
    membershipId: Option<Uuid>, at: Time)
    ensures
      var scope := Scope(contextType, organizationId, membershipId);
      var after := RevokeScope(rows, userId, scope, at);
      && (forall i | 0 <= i < |rows| ::
            after[i] ==
              if !rows[i].isRevoked && PassesFilters(rows[i], userId, contextType, organizationId, membershipId)
              then rows[i].(isRevoked := true, revokedAt := Some(at))
              else rows[i])
      && ActiveInScope(rows, userId, scope) == set i | 0 <= i < |rows| && after[i] != rows[i]
  {
  }

  /** Two scopes, of the same or of different users, revoke the same rows in either order; each order's two
      return values add up to the size of the union; at one instant the tables are equal. */
  lemma ScopesCommute(rows: seq<TokenRow>, userA: Uuid, a: Scope, atA: Time, userB: Uuid, b: Scope, atB: Time)
    ensures
      var hitA, hitB := ActiveInScope(rows, userA, a), ActiveInScope(rows, userB, b);
      var afterA, afterB := RevokeScope(rows, userA, a, atA), RevokeScope(rows, userB, b, atB);
      var ab, ba := RevokeScope(afterA, userB, b, atB), RevokeScope(afterB, userA, a, atA);
      && LiveTokens(ab) == LiveTokens(ba) == LiveTokens(rows) - (hitA + hitB)
      && |hitA| + |ActiveInScope(afterA, userB, b)| == |hitA + hitB|
      && |hitB| + |ActiveInScope(afterB, userA, a)| == |hitA + hitB|
      && (atA == atB ==> ab == ba)
  {
    ScopeThenScope(rows, userA, a, atA, userB, b, atB);
    ScopeThenScope(rows, userB, b, atB, userA, a, atA);
    assert ActiveInScope(rows, userA, a) + ActiveInScope(rows, userB, b) ==
      ActiveInScope(rows, userB, b) + ActiveInScope(rows, userA, a);
    if atA == atB {
      OrderIsIrrelevant(rows, userA, a, userB, b, atA);
    }
  }

  lemma ScopeThenScope(rows: seq<TokenRow>, userA: Uuid, a: Scope, atA: Time, userB: Uuid, b: Scope, atB: Time)
    ensures
      var hitA, hitB := ActiveInScope(rows, userA, a), ActiveInScope(rows, userB, b);
      var afterA := RevokeScope(rows, userA, a, atA);
      && LiveTokens(RevokeScope(afterA, userB, b, atB)) == LiveTokens(rows) - (hitA + hitB)
      && |hitA| + |ActiveInScope(afterA, userB, b)| == |hitA + hitB|
  {
    var hitA, hitB := ActiveInScope(rows, userA, a), ActiveInScope(rows, userB, b);
    RemainderOfScope(rows, userA, a, atA, userB, b);
    assert hitA + hitB == hitA + (hitB - hitA);
    RevokeScopeMeaning(rows, userA, a, atA);
    RevokeScopeMeaning(RevokeScope(rows, userA, a, atA), userB, b, atB);
  }

  lemma OrderIsIrrelevant(rows: seq<TokenRow>, userA: Uuid, a: Scope, userB: Uuid, b: Scope, at: Time)
    ensures RevokeScope(RevokeScope(rows, userA, a, at), userB, b, at) ==
      RevokeScope(RevokeScope(rows, userB, b, at), userA, a, at)
  {
  }

  lemma RemainderOfScope(rows: seq<TokenRow>, userA: Uuid, a: Scope, at: Time, userB: Uuid, b: Scope)
    ensures ActiveInScope(RevokeScope(rows, userA, a, at), userB, b) ==
      ActiveInScope(rows, userB, b) - ActiveInScope(rows, userA, a)
  {
  }

  // ---------------------------------------------------------------------------------------------
  // Frozen rows
  // ---------------------------------------------------------------------------------------------

  /** How a table may evolve: no row disappears, identity columns never change, and a revoked row
      is never written again. */
  ghost predicate Evolves(rows: seq<TokenRow>, rows': seq<TokenRow>) {
    && |rows| <= |rows'|
    && (forall i | 0 <= i < |rows| ::
          && rows'[i].userId == rows[i].userId
          && rows'[i].context == rows[i].context
          && rows'[i].tokenHash == rows[i].tokenHash
          && rows'[i].expiresAt == rows[i].expiresAt)
    && (forall i | 0 <= i < |rows| && rows[i].isRevoked :: rows'[i] == rows[i])
  }

  // ---------------------------------------------------------------------------------------------
  // The rotation forest
  // ---------------------------------------------------------------------------------------------

  /** The columns of one row agree: the revocation instant is set exactly on revoked rows, the usage instant
      exactly on rotated ones, and a rotated row is revoked at the instant it was used. */
  predicate WellFormedRow(row: TokenRow) {
    && (row.isRevoked <==> row.revokedAt.Some?)
    && (row.lastUsedAt.Some? <==> row.replacedBy.Some?)
    && (row.replacedBy.Some? ==> row.isRevoked && row.lastUsedAt == row.revokedAt)
  }

  /** A link points forward to a row of the same user and context. */
  predicate WellFormedLink(rows: seq<TokenRow>, i: nat)
    requires i < |rows| && WellFormedRow(rows[i])
  {
    rows[i].replacedBy.Some? ==>
      var j := rows[i].replacedBy.value;
      && i < j < |rows|
      && rows[j].userId == rows[i].userId
      && rows[j].context == rows[i].context
  }

  ghost predicate InjectiveLinks(rows: seq<TokenRow>) {
    forall i, j | 0 <= i < j < |rows| && rows[i].replacedBy.Some? :: rows[i].replacedBy != rows[j].replacedBy
  }

  ghost predicate RotationForest(rows: seq<TokenRow>) {
    && (forall i | 0 <= i < |rows| :: WellFormedRow(rows[i]) && WellFormedLink(rows, i))
    && InjectiveLinks(rows)
  }

  /** The rotation that a link records happened within the lifetime of its row, and issued the replacement. */
  predicate TimelyLink(rows: seq<TokenRow>, lifetime: Time, i: nat)
    requires i < |rows|
  {
    rows[i].replacedBy.Some? ==>
      && rows[i].revokedAt.Some? && rows[i].replacedBy.value < |rows|
      && var at := rows[i].revokedAt.value;
         && rows[i].expiresAt - lifetime <= at < rows[i].expiresAt
         && rows[rows[i].replacedBy.value].expiresAt == at + lifetime
  }

  ghost predicate TimelyLinks(rows: seq<TokenRow>, lifetime: Time) {
    forall i | 0 <= i < |rows| :: TimelyLink(rows, lifetime, i)
  }

  /** What needs a clock that never goes back: no row was issued after `clock`, and links are timely. */
  ghost predicate Chronology(rows: seq<TokenRow>, lifetime: Time, clock: Time) {
    && (forall i | 0 <= i < |rows| :: rows[i].expiresAt - lifetime <= clock)
    && TimelyLinks(rows, lifetime)
  }

  /** The chain that starts at row i. */
  function Chain(rows: seq<TokenRow>, i: nat): seq<nat>
    requires i < |rows|
    decreases |rows| - i
  {
    var next := rows[i].replacedBy;
    if next.Some? && i < next.value < |rows| then [i] + Chain(rows, next.value) else [i]
  }

  ghost predicate IsRoot(rows: seq<TokenRow>, i: nat) {
    i < |rows| && forall p | 0 <= p < |rows| :: rows[p].replacedBy != Some(i)
  }

  /** The first row of the chain through row i. */
  ghost function RootOf(rows: seq<TokenRow>, i: nat): (root: nat)
    requires i < |rows|
    ensures root <= i
    decreases i
  {
    if p :| 0 <= p < i && rows[p].replacedBy == Some(i) then RootOf(rows, p) else i
  }

  /** Shape of one chain: it starts at i, climbs strictly along the links, every row but the last is revoked,
      and the last has no replacement. */
  lemma {:induction false} ChainShape(rows: seq<TokenRow>, i: nat)
    requires RotationForest(rows) && i < |rows|
    ensures var c := Chain(rows, i);
      && |c| > 0 && c[0] == i
      && (forall k | 0 <= k < |c| :: i <= c[k] < |rows|)
      && (forall k | 0 <= k < |c| - 1 :: c[k] < c[k + 1] && rows[c[k]].isRevoked
           && rows[c[k]].replacedBy == Some(c[k + 1]))
      && rows[c[|c| - 1]].replacedBy.None?
    decreases |rows| - i
  {
    var next := rows[i].replacedBy;
    assert WellFormedRow(rows[i]) && WellFormedLink(rows, i);
    if next.Some? {
      ChainShape(rows, next.value);
      var c, rest := Chain(rows, i), Chain(rows, next.value);
      assert c == [i] + rest;
      forall k | 0 <= k < |c| - 1
        ensures c[k] < c[k + 1] && rows[c[k]].isRevoked && rows[c[k]].replacedBy == Some(c[k + 1])
      {
        if k > 0 {
          assert c[k] == rest[k - 1] && c[k + 1] == rest[k];
        }
      }
    }
  }

  /** The user and the context never change along a chain. */
  lemma {:induction false} ChainOwner(rows: seq<TokenRow>, i: nat, j: nat)
    requires RotationForest(rows) && i < |rows| && j in Chain(rows, i)
    ensures j < |rows| && rows[j].userId == rows[i].userId && rows[j].context == rows[i].context
    decreases |rows| - i
  {
    assert WellFormedRow(rows[i]) && WellFormedLink(rows, i);
    if j != i {
      ChainOwner(rows, rows[i].replacedBy.value, j);
    }
  }

  /** Following the links from the root of a row's chain reaches the row. */
  lemma {:induction false} RootReaches(rows: seq<TokenRow>, i: nat)
    requires RotationForest(rows) && i < |rows|
    ensures RootOf(rows, i) <= i && IsRoot(rows, RootOf(rows, i)) && i in Chain(rows, RootOf(rows, i))
    decreases i
  {
    if p :| 0 <= p < i && rows[p].replacedBy == Some(i) {
      PredecessorIsUnique(rows, i);
      RootReaches(rows, p);
      ChainShape(rows, RootOf(rows, p));
      var c := Chain(rows, RootOf(rows, p));
      var k :| 0 <= k < |c| && c[k] == p;
      assert k < |c| - 1;
      assert c[k + 1] == i;
    } else {
      forall p | 0 <= p < |rows|
        ensures rows[p].replacedBy != Some(i)
      {
        assert WellFormedRow(rows[p]) && WellFormedLink(rows, p);
      }
      ChainShape(rows, i);
    }
  }

  lemma PredecessorIsUnique(rows: seq<TokenRow>, i: nat)
    requires InjectiveLinks(rows)
    ensures forall p, q | 0 <= p < |rows| && 0 <= q < |rows| && rows[p].replacedBy == Some(i)
      && rows[q].replacedBy == Some(i) :: p == q
  {
  }

  /** Whoever reaches a row from a root started at the root of that row. */
  lemma {:induction false} RootIsUnique(rows: seq<TokenRow>, r: nat, k: nat)
    requires RotationForest(rows) && IsRoot(rows, r) && k < |Chain(rows, r)|
    ensures Chain(rows, r)[k] < |rows| && RootOf(rows, Chain(rows, r)[k]) == r
    decreases k
  {
    ChainShape(rows, r);
    if k > 0 {
      var c := Chain(rows, r);
      RootIsUnique(rows, r, k - 1);
      assert rows[c[k - 1]].replacedBy == Some(c[k]);
      PredecessorIsUnique(rows, c[k]);
    }
  }

  lemma ChainMembers(rows: seq<TokenRow>, r: nat, i: nat)
    requires RotationForest(rows) && IsRoot(rows, r) && i in Chain(rows, r)
    ensures i < |rows| && r == RootOf(rows, i)
    ensures !rows[i].isRevoked ==> i == Chain(rows, r)[|Chain(rows, r)| - 1]
  {
    var k :| 0 <= k < |Chain(rows, r)| && Chain(rows, r)[k] == i;
    RootIsUnique(rows, r, k);
    ChainShape(rows, r);
  }

  /** The links split the table into disjoint acyclic chains: every row lies on the chain of exactly one root,
      and every chain has at most one unrevoked row, its last. */
  lemma ChainsPartition(rows: seq<TokenRow>)
    requires RotationForest(rows)
    ensures forall i: nat | i < |rows| :: IsRoot(rows, RootOf(rows, i)) && i in Chain(rows, RootOf(rows, i))
    ensures forall r: nat, i: nat {:trigger i in Chain(rows, r)} | IsRoot(rows, r) && i in Chain(rows, r) ::
              && i < |rows| && r == RootOf(rows, i)
              && (!rows[i].isRevoked ==> i == Chain(rows, r)[|Chain(rows, r)| - 1])
  {
    forall i: nat | i < |rows|
      ensures IsRoot(rows, RootOf(rows, i)) && i in Chain(rows, RootOf(rows, i))
    {
      RootReaches(rows, i);
    }
    forall r: nat, i: nat {:trigger i in Chain(rows, r)} | IsRoot(rows, r) && i in Chain(rows, r)
      ensures i < |rows| && r == RootOf(rows, i)
      ensures !rows[i].isRevoked ==> i == Chain(rows, r)[|Chain(rows, r)| - 1]
    {
      ChainMembers(rows, r, i);
    }
  }

  /** The family of a row is the chain of its root. A family has one user and one context, at most one unrevoked row,
      and that row is its last; links are injective and point forward from revoked rows. */
  lemma Families(rows: seq<TokenRow>, i: nat, j: nat)
    requires RotationForest(rows) && i < |rows| && j < |rows|
    ensures
      var family := Chain(rows, RootOf(rows, i));
      && i in family
      && rows[i].userId == rows[RootOf(rows, i)].userId && rows[i].context == rows[RootOf(rows, i)].context
      && (j in family <==> RootOf(rows, j) == RootOf(rows, i))
      && (RootOf(rows, i) == RootOf(rows, j) && !rows[i].isRevoked && !rows[j].isRevoked ==> i == j)
      && (!rows[i].isRevoked ==> i == family[|family| - 1])
  {
    var root := RootOf(rows, i);
    RootReaches(rows, i);
    RootReaches(rows, j);
    ChainOwner(rows, root, i);
    ChainMembers(rows, root, i);
    if j in Chain(rows, root) {
      ChainMembers(rows, root, j);
    }
  }

  lemma Links(rows: seq<TokenRow>, i: nat, j: nat)
    requires RotationForest(rows) && i < |rows| && j < |rows|
    ensures rows[i].replacedBy.Some? && rows[i].replacedBy == rows[j].replacedBy ==> i == j
    ensures rows[i].replacedBy == Some(j) ==> i < j && rows[i].isRevoked
  {
    assert WellFormedRow(rows[i]) && WellFormedLink(rows, i);
  }

  /** Expiries never decrease along a chain, and k rotations extend the first expiry by at most k lifetimes. */
  lemma {:induction false} ChainLifetime(rows: seq<TokenRow>, lifetime: Time, i: nat, k: nat)
    requires RotationForest(rows) && TimelyLinks(rows, lifetime) && i < |rows| && k < |Chain(rows, i)|
    ensures Chain(rows, i)[k] < |rows|
    ensures rows[i].expiresAt <= rows[Chain(rows, i)[k]].expiresAt <= rows[i].expiresAt + k * lifetime
    ensures k > 0 ==> rows[Chain(rows, i)[k]].expiresAt < rows[i].expiresAt + k * lifetime
    decreases k
  {
    ChainShape(rows, i);
    if k > 0 {
      ChainLifetime(rows, lifetime, i, k - 1);
      var p := Chain(rows, i)[k - 1];
      assert TimelyLink(rows, lifetime, p);
      assert k * lifetime == (k - 1) * lifetime + lifetime;
    }
  }

  /** A chain whose rows are all revoked is closed for ever: in any later table it is the same chain. */
  lemma {:induction false} RevokedChainIsClosed(rows: seq<TokenRow>, rows': seq<TokenRow>, i: nat)
    requires RotationForest(rows) && RotationForest(rows')
    requires Evolves(rows, rows') && i < |rows|
    requires forall j | j in Chain(rows, i) :: j < |rows| && rows[j].isRevoked
    ensures Chain(rows', i) == Chain(rows, i)
    decreases |rows| - i
  {
    ChainShape(rows, i);
    assert Chain(rows, i)[0] == i;
    var next := rows[i].replacedBy;
    assert WellFormedRow(rows[i]) && WellFormedLink(rows, i);
    if next.Some? {
      assert forall j | j in Chain(rows, next.value) :: j in Chain(rows, i);
      RevokedChainIsClosed(rows, rows', next.value);
    }
  }

  // ---------------------------------------------------------------------------------------------
  // Row updates keep the forest
  // ---------------------------------------------------------------------------------------------

  /** Revoking any set of unrevoked rows, without touching a link, keeps the forest. */
  lemma ForestAfterRevocation(rows: seq<TokenRow>, rows': seq<TokenRow>, at: Time)
    requires RotationForest(rows) && |rows'| == |rows|
    requires forall i | 0 <= i < |rows| ::
      rows'[i] == rows[i] || (!rows[i].isRevoked && rows'[i] == RevokedToken(rows[i], at))
    ensures RotationForest(rows')
  {
    forall i | 0 <= i < |rows|
      ensures rows'[i].replacedBy == rows[i].replacedBy && WellFormedRow(rows'[i]) && WellFormedLink(rows', i)
    {
      assert WellFormedRow(rows[i]) && WellFormedLink(rows, i);
    }
  }

  /** Inserting an unlinked row keeps the forest. */
  lemma ForestAfterInsertion(rows: seq<TokenRow>, row: TokenRow)
    requires RotationForest(rows) && WellFormedRow(row) && row.replacedBy.None?
    ensures RotationForest(rows + [row])
  {
    var rows' := rows + [row];
    forall i | 0 <= i < |rows|
      ensures WellFormedRow(rows'[i]) && WellFormedLink(rows', i)
    {
      assert WellFormedRow(rows[i]) && WellFormedLink(rows, i);
    }
  }

  /** Linking an unrevoked row to the row inserted last, which nothing links to yet, keeps the forest. */
  lemma ForestAfterLink(rows: seq<TokenRow>, i: nat, at: Time)
    requires RotationForest(rows) && i < |rows| - 1 && !rows[i].isRevoked
    requires IsRoot(rows, |rows| - 1)
    requires rows[|rows| - 1].userId == rows[i].userId && rows[|rows| - 1].context == rows[i].context
    ensures RotationForest(rows[i := RotatedToken(rows[i], |rows| - 1, at)])
  {
    var rows' := rows[i := RotatedToken(rows[i], |rows| - 1, at)];
    forall j | 0 <= j < |rows|
      ensures WellFormedRow(rows'[j]) && WellFormedLink(rows', j)
    {
      assert WellFormedRow(rows[j]) && WellFormedLink(rows, j);
    }
    forall j, k | 0 <= j < k < |rows| && rows'[j].replacedBy.Some?
      ensures rows'[j].replacedBy != rows'[k].replacedBy
    {
      assert rows[j].replacedBy != Some(|rows| - 1) && rows[k].replacedBy != Some(|rows| - 1);
    }
  }

  /** Every link stays inside the table, so nothing links to a row that is only about to be inserted. */
  lemma NewestIsRoot(rows: seq<TokenRow>, row: TokenRow)
    requires RotationForest(rows) && row.replacedBy.None?
    ensures IsRoot(rows + [row], |rows|)
  {
    var rows' := rows + [row];
    forall p | 0 <= p < |rows'|
      ensures rows'[p].replacedBy != Some(|rows|)
    {
      if p < |rows| {
        assert WellFormedRow(rows[p]) && WellFormedLink(rows, p);
      }
    }
  }
}
