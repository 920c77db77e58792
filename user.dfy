/** An account of the auth service: its identity, password hash, profile names and the
    failed-login counter that locks it. */
module UserModel {
  import opened Common

  /** The account row; `failedLoginAttempts` may be SQL NULL (`None`). */
  datatype User = User(
    id: string,
    email: string,
    passwordHash: string,
    firstName: Option<string>,
    lastName: Option<string>,
    avatarUrl: Option<string>,
    emailVerified: bool,
    accountLocked: bool,
    failedLoginAttempts: Option<int>,
    lastLoginAt: Option<Time>,
    createdAt: Time,
    updatedAt: Time)

  /** The failure that locks an account. */
  const LockThreshold: int := 5

  /** `createNew`: a fresh, unverified, unlocked account with no failures, its email
      lower-cased (`id` is the random UUID). */
  function CreateNew(id: string, email: string, passwordHash: string, firstName: Option<string>,
                     lastName: Option<string>, now: Time): (u: User)
    ensures u.id == id && u.email == LowerCase(email) && u.passwordHash == passwordHash
    ensures u.firstName == firstName && u.lastName == lastName && u.avatarUrl == None
    ensures !u.emailVerified && !u.accountLocked && u.failedLoginAttempts == Some(0)
    ensures u.lastLoginAt == None && u.createdAt == now && u.updatedAt == now
  {
    User(id, LowerCase(email), passwordHash, firstName, lastName, None, false, false, Some(0), None, now, now)
  }

  /** `fullName`: the names that are present, joined by a space; the email when neither
      is. */
  function FullName(u: User): (r: string)
    ensures u.firstName.None? && u.lastName.None? ==> r == u.email
    ensures u.firstName.None? && u.lastName.Some? ==> r == u.lastName.value
    ensures u.firstName.Some? && u.lastName.None? ==> r == u.firstName.value
    ensures u.firstName.Some? && u.lastName.Some? ==> r == u.firstName.value + " " + u.lastName.value
  {
    match (u.firstName, u.lastName)
    case (None, None) => u.email
    case (None, Some(last)) => last
    case (Some(first), None) => first
    case (Some(first), Some(last)) => first + " " + last
  }

  /** `recordLoginSuccess`: the counter back to zero and the login instant recorded; the
      lock is left as it is. */
  function RecordLoginSuccess(u: User, now: Time): (r: User)
    ensures r.failedLoginAttempts == Some(0) && r.lastLoginAt == Some(now) && r.updatedAt == now
    ensures r.(failedLoginAttempts := u.failedLoginAttempts, lastLoginAt := u.lastLoginAt, updatedAt := u.updatedAt) == u
  {
    u.(failedLoginAttempts := Some(0), lastLoginAt := Some(now), updatedAt := now)
  }

  function Attempts(count: Option<int>): int
  {
    if count.Some? then count.value else 0
  }

  /** `recordLoginFailure`: one more failure (a missing counter counts as zero); the
      account is locked once the new count reaches the threshold and never unlocked
      here. */
  function RecordLoginFailure(u: User, now: Time): (r: User)
    ensures r.failedLoginAttempts == Some(Attempts(u.failedLoginAttempts) + 1)
    ensures r.accountLocked <==> u.accountLocked || Attempts(u.failedLoginAttempts) + 1 >= LockThreshold
    ensures r.updatedAt == now
    ensures r.(failedLoginAttempts := u.failedLoginAttempts, accountLocked := u.accountLocked, updatedAt := u.updatedAt) == u
  {
    var attempts := Attempts(u.failedLoginAttempts) + 1;
    var updated := u.(failedLoginAttempts := Some(attempts), updatedAt := now);
    if attempts >= LockThreshold then updated.(accountLocked := true) else updated
  }

  /** Failures recorded one after the other. */
  function Failures(u: User, n: nat, now: Time): User
  {
    if n == 0 then u else RecordLoginFailure(Failures(u, n - 1, now), now)
  }

  /** From a fresh account, the count after `n` failures is `n`, and the account is
      locked exactly when there were five of them at least. */
  lemma {:induction false} FailuresLockOnTheFifth(u: User, n: nat, now: Time)
    requires u.failedLoginAttempts == Some(0) && !u.accountLocked
    ensures Failures(u, n, now).failedLoginAttempts == Some(n)
    ensures Failures(u, n, now).accountLocked <==> n >= LockThreshold
  {
    if n > 0 {
      FailuresLockOnTheFifth(u, n - 1, now);
    }
  }

  /** A success resets the counter but does not lift a lock. */
  lemma LockOutlivesSuccess(u: User, now: Time)
    requires u.accountLocked
    ensures RecordLoginSuccess(u, now).accountLocked
    ensures RecordLoginFailure(u, now).accountLocked
  {
  }
}
