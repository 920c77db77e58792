/** The `refresh_tokens` table and its queries: lookup of a live token by hash, the
    live tokens of a user, revocation of one token or all of a user's, and the purge of
    dead rows. */
module TokenStore {
  import opened Common
  import opened RefreshTokenModel

  type Tokens = map<string, RefreshToken>

  predicate Keyed(t: Tokens)
  {
    forall id :: id in t ==> t[id].id == id
  }

  /** Some row carries the hash and is valid at `now` (`findValidToken`'s WHERE clause). */
  predicate HasValid(t: Tokens, tokenHash: string, now: Time)
  {
    exists id :: id in t && t[id].tokenHash == tokenHash && IsValid(t[id], now)
  }

  /** The ids of a user's rows (`revokeAllUserTokens`'s WHERE clause). */
  function UserTokenIds(t: Tokens, userId: string): (ids: set<string>)
    ensures forall id :: id in ids <==> id in t && t[id].userId == userId
  {
    set id | id in t && t[id].userId == userId
  }

  /** `revokeToken`'s update. */
  function Revoke(t: Tokens, id: string): (r: Tokens)
    ensures r.Keys == t.Keys
    ensures id in t ==> r[id] == t[id].(revoked := true)
    ensures forall other :: other in t && other != id ==> r[other] == t[other]
  {
    if id in t then t[id := t[id].(revoked := true)] else t
  }

  /** `revokeAllUserTokens`'s update: every row of the user revoked, the rest untouched. */
  function RevokeAll(t: Tokens, userId: string): (r: Tokens)
    ensures r.Keys == t.Keys
    ensures forall id :: id in t && t[id].userId == userId ==> r[id] == t[id].(revoked := true)
    ensures forall id :: id in t && t[id].userId != userId ==> r[id] == t[id]
  {
    map id | id in t :: if t[id].userId == userId then t[id].(revoked := true) else t[id]
  }

  /** The rows `deleteExpiredTokens` removes: expired before the threshold, or revoked. */
  predicate Dead(tok: RefreshToken, threshold: Time)
  {
    tok.expiresAt < threshold || tok.revoked
  }

  function DeadIds(t: Tokens, threshold: Time): (ids: set<string>)
    ensures forall id :: id in ids <==> id in t && Dead(t[id], threshold)
  {
    set id | id in t && Dead(t[id], threshold)
  }

  /** After a user's tokens are revoked, none of them is valid at any instant, so no
      refresh with any of them can succeed; other users' tokens are as they were. */
  lemma RevokeAllEndsSessions(t: Tokens, userId: string, tokenHash: string, now: Time)
    requires Keyed(t)
    ensures forall id :: id in RevokeAll(t, userId) && RevokeAll(t, userId)[id].userId == userId ==>
      !IsValid(RevokeAll(t, userId)[id], now)
    ensures Keyed(RevokeAll(t, userId))
    ensures (forall id :: id in t && t[id].tokenHash == tokenHash ==> t[id].userId == userId) ==>
      !HasValid(RevokeAll(t, userId), tokenHash, now)
  {
    var r := RevokeAll(t, userId);
    forall id | id in r && r[id].userId == userId
      ensures !IsValid(r[id], now)
    {
      assert t[id].userId == userId;
    }
  }

  /** A refresh token is single-use: once its row is revoked and a new token with a
      different hash is saved, the old token finds nothing, provided no other row carries
      its hash. */
  lemma RevokedTokenIsSpent(t: Tokens, id: string, next: RefreshToken, now: Time)
    requires id in t && next.id !in t
    requires next.tokenHash != t[id].tokenHash
    requires forall other :: other in t && t[other].tokenHash == t[id].tokenHash ==> other == id
    ensures !HasValid(Revoke(t, id)[next.id := next], t[id].tokenHash, now)
  {
  }

  /** The purge keeps every token that is still valid at an instant no earlier than the
      threshold, and leaves no revoked row behind. */
  lemma PurgeKeepsLiveTokens(t: Tokens, threshold: Time, now: Time)
    requires threshold <= now
    ensures forall id :: id in t && IsValid(t[id], now) ==> id in t.Keys - DeadIds(t, threshold)
    ensures forall id :: id in t.Keys - DeadIds(t, threshold) ==> !t[id].revoked
  {
  }

  class RefreshTokenRepository {
    var rows: Tokens

    predicate Valid()
      reads this
    {
      Keyed(rows)
    }

    constructor()
      ensures Valid() && rows == map[]
    {
      rows := map[];
    }

    /** `save`: inserts the token or replaces the row with its id. */
    method Save(token: RefreshToken) returns (saved: RefreshToken)
      requires Valid()
      modifies this
      ensures Valid()
      ensures rows == old(rows)[token.id := token] && saved == token
    {
      rows := rows[token.id := token];
      saved := token;
    }

    /** `findValidToken`: a row with the hash that is unrevoked and unexpired at `now`. */
    method FindValidToken(tokenHash: string, now: Time) returns (r: Option<RefreshToken>)
      requires Valid()
      ensures r.None? <==> !HasValid(rows, tokenHash, now)
      ensures r.Some? ==> r.value.id in rows && rows[r.value.id] == r.value
      ensures r.Some? ==> r.value.tokenHash == tokenHash && IsValid(r.value, now)
    {
      if HasValid(rows, tokenHash, now) {
        var id :| id in rows && rows[id].tokenHash == tokenHash && IsValid(rows[id], now);
        r := Some(rows[id]);
      } else {
        r := None;
      }
    }

    /** `findByUserIdAndRevokedFalse`: each unrevoked row of the user, once, in no
        particular order. */
    method FindByUserIdAndRevokedFalse(userId: string) returns (r: seq<RefreshToken>)
      requires Valid()
      ensures forall tok :: tok in r <==> tok.id in rows && rows[tok.id] == tok && tok.userId == userId && !tok.revoked
      ensures forall i, j :: 0 <= i < j < |r| ==> r[i].id != r[j].id
    {
      r := [];
      var todo := rows.Keys;
      while todo != {}
        invariant todo <= rows.Keys
        invariant forall tok :: tok in r ==> tok.id in rows && rows[tok.id] == tok && tok.userId == userId && !tok.revoked
        invariant forall tok :: tok in r ==> tok.id !in todo
        invariant forall id :: id in rows && id !in todo && rows[id].userId == userId && !rows[id].revoked ==> rows[id] in r
        invariant forall i, j :: 0 <= i < j < |r| ==> r[i].id != r[j].id
        decreases |todo|
      {
        var id :| id in todo;
        if rows[id].userId == userId && !rows[id].revoked {
          r := r + [rows[id]];
        }
        todo := todo - {id};
      }
    }

    /** `revokeToken` */
    method RevokeToken(id: string) returns (count: nat)
      requires Valid()
      modifies this
      ensures Valid()
      ensures rows == Revoke(old(rows), id)
      ensures count == (if id in old(rows) then 1 else 0)
    {
      count := if id in rows then 1 else 0;
      rows := Revoke(rows, id);
    }

    /** `revokeAllUserTokens`: the count is the number of the user's rows, revoked or not. */
    method RevokeAllUserTokens(userId: string) returns (count: nat)
      requires Valid()
      modifies this
      ensures Valid()
      ensures rows == RevokeAll(old(rows), userId)
      ensures count == |UserTokenIds(old(rows), userId)|
    {
      count := |UserTokenIds(rows, userId)|;
      rows := RevokeAll(rows, userId);
    }

    /** `deleteExpiredTokens` */
    method DeleteExpiredTokens(threshold: Time) returns (count: nat)
      requires Valid()
      modifies this
      ensures Valid()
      ensures rows.Keys == old(rows).Keys - DeadIds(old(rows), threshold)
      ensures forall id :: id in rows ==> rows[id] == old(rows)[id]
      ensures count == |DeadIds(old(rows), threshold)|
    {
      count := |DeadIds(rows, threshold)|;
      rows := map id | id in rows && !Dead(rows[id], threshold) :: rows[id];
    }
  }
}
