/** A row of the `refresh_tokens` table: the hash of a refresh token handed to a user,
    when it stops being accepted, and whether it was revoked. */
module RefreshTokenModel {
  import opened Common

  datatype RefreshToken = RefreshToken(
    id: string,
    userId: string,
    tokenHash: string,
    expiresAt: Time,
    revoked: bool,
    createdAt: Time)

  /** `RefreshToken.create`: an unrevoked token that expires after the lifetime, counted
      in whole seconds (the milliseconds are divided by 1000 with Java's truncation);
      `id` is the random UUID. */
  function Create(id: string, userId: string, tokenHash: string, expirationMs: int, now: Time): (t: RefreshToken)
    ensures t.id == id && t.userId == userId && t.tokenHash == tokenHash
    ensures !t.revoked && t.createdAt == now
    ensures (t.expiresAt - now) % 1000 == 0
    ensures expirationMs >= 0 ==> now + expirationMs - 1000 < t.expiresAt <= now + expirationMs
    ensures expirationMs < 0 ==> now + expirationMs <= t.expiresAt < now + expirationMs + 1000
  {
    RefreshToken(id, userId, tokenHash, now + JavaDiv(expirationMs, 1000) * 1000, false, now)
  }

  /** `isValid`: not revoked and expiring strictly after `now`. */
  predicate IsValid(t: RefreshToken, now: Time)
  {
    !t.revoked && t.expiresAt > now
  }

  /** A token is accepted at creation exactly when its lifetime is at least a second: a
      shorter one is cut to zero seconds and has expired at once. */
  lemma FreshTokenValidity(id: string, userId: string, tokenHash: string, expirationMs: int, now: Time)
    ensures IsValid(Create(id, userId, tokenHash, expirationMs, now), now) <==> expirationMs >= 1000
  {
    var q := JavaDiv(expirationMs, 1000);
    if expirationMs >= 1000 {
      assert q >= 1;
    } else if expirationMs >= 0 {
      assert q == 0;
    } else {
      assert q <= 0;
    }
  }

  /** Validity only ends: a revoked token is never valid, and a token valid now was valid
      at every earlier instant and is invalid from its expiry on. */
  lemma ValidityOnlyEnds(t: RefreshToken, earlier: Time, now: Time, later: Time)
    ensures t.revoked ==> !IsValid(t, now)
    ensures IsValid(t, now) && earlier <= now ==> IsValid(t, earlier)
    ensures later >= t.expiresAt ==> !IsValid(t, later)
  {
  }
}
