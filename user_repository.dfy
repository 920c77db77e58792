/** The `users` table and its UPDATE statements. Each statement matches one row by id and
    rewrites some of its columns with SQL semantics (NULL + 1 is NULL). */
module UserStore {
  import opened Common
  import opened UserModel

  type Users = map<string, User>

  /** The primary-key invariant. */
  predicate Keyed(t: Users)
  {
    forall id :: id in t ==> t[id].id == id
  }

  /** No two accounts share an email. */
  predicate UniqueEmails(t: Users)
  {
    forall a, b :: a in t && b in t && t[a].email == t[b].email ==> a == b
  }

  predicate HasEmail(t: Users, email: string)
  {
    exists id :: id in t && t[id].email == email
  }

  /** `verifyEmail`'s row update. */
  function VerifiedRow(u: User, now: Time): (r: User)
    ensures r.emailVerified && r.updatedAt == now
    ensures r.(emailVerified := u.emailVerified, updatedAt := u.updatedAt) == u
  {
    u.(emailVerified := true, updatedAt := now)
  }

  /** `updatePassword`'s row update. */
  function PasswordRow(u: User, passwordHash: string, now: Time): (r: User)
    ensures r.passwordHash == passwordHash && r.updatedAt == now
    ensures r.(passwordHash := u.passwordHash, updatedAt := u.updatedAt) == u
  {
    u.(passwordHash := passwordHash, updatedAt := now)
  }

  /** `unlockAccount`'s row update. */
  function UnlockedRow(u: User, now: Time): (r: User)
    ensures !r.accountLocked && r.failedLoginAttempts == Some(0) && r.updatedAt == now
    ensures r.(accountLocked := u.accountLocked, failedLoginAttempts := u.failedLoginAttempts, updatedAt := u.updatedAt) == u
  {
    u.(accountLocked := false, failedLoginAttempts := Some(0), updatedAt := now)
  }

  /** `recordFailedLogin`'s row update: the count goes up by one (a NULL count stays
      NULL), and the account is locked when the count BEFORE the update was four or more;
      otherwise the lock is left as it was. */
  function FailedLoginRow(u: User, now: Time): (r: User)
    ensures u.failedLoginAttempts.Some? ==> r.failedLoginAttempts == Some(u.failedLoginAttempts.value + 1)
    ensures u.failedLoginAttempts.None? ==> r.failedLoginAttempts == None
    ensures r.accountLocked <==> u.accountLocked || (u.failedLoginAttempts.Some? && u.failedLoginAttempts.value >= 4)
    ensures r.updatedAt == now
    ensures r.(failedLoginAttempts := u.failedLoginAttempts, accountLocked := u.accountLocked, updatedAt := u.updatedAt) == u
  {
    match u.failedLoginAttempts
    case None => u.(updatedAt := now)
    case Some(n) => u.(failedLoginAttempts := Some(n + 1), accountLocked := if n >= 4 then true else u.accountLocked, updatedAt := now)
  }

  /** With a counter present, the SQL update and the record's own `recordLoginFailure`
      agree: locking when the old count is four or more is locking on the fifth failure. */
  lemma FailedLoginRowAgrees(u: User, now: Time)
    requires u.failedLoginAttempts.Some?
    ensures FailedLoginRow(u, now) == RecordLoginFailure(u, now)
  {
  }

  /** A NULL counter never counts up, so that account is never locked by failures. */
  lemma {:induction false} NullCounterNeverLocks(u: User, n: nat, now: Time)
    requires u.failedLoginAttempts.None? && !u.accountLocked
    ensures !FailedLogins(u, n, now).accountLocked && FailedLogins(u, n, now).failedLoginAttempts.None?
  {
    if n > 0 {
      NullCounterNeverLocks(u, n - 1, now);
    }
  }

  /** `n` failed logins recorded in a row. */
  function FailedLogins(u: User, n: nat, now: Time): User
  {
    if n == 0 then u else FailedLoginRow(FailedLogins(u, n - 1, now), now)
  }

  class UserRepository {
    var rows: Users

    predicate Valid()
      reads this
    {
      Keyed(rows)
    }

    constructor()
      ensures Valid() && rows == map[]
    {
      rows := map[];
    }

    /** `save`: inserts the account or replaces the row with its id. */
    method Save(user: User) returns (saved: User)
      requires Valid()
      modifies this
      ensures Valid()
      ensures rows == old(rows)[user.id := user] && saved == user
    {
      rows := rows[user.id := user];
      saved := user;
    }

    function FindById(id: string): (r: Option<User>)
      reads this
      ensures r.Some? <==> id in rows
      ensures r.Some? ==> r.value == rows[id]
    {
      if id in rows then Some(rows[id]) else None
    }

    /** `existsByEmail` */
    predicate ExistsByEmail(email: string)
      reads this
    {
      HasEmail(rows, email)
    }

    /** `findByEmail`: an account with that email, if any. */
    method FindByEmail(email: string) returns (r: Option<User>)
      requires Valid()
      ensures r.None? <==> !HasEmail(rows, email)
      ensures r.Some? ==> r.value.id in rows && rows[r.value.id] == r.value && r.value.email == email
    {
      if HasEmail(rows, email) {
        var id :| id in rows && rows[id].email == email;
        r := Some(rows[id]);
      } else {
        r := None;
      }
    }

    /** `verifyEmail` */
    method VerifyEmail(userId: string, now: Time) returns (count: nat)
      requires Valid()
      modifies this
      ensures Valid()
      ensures count == (if userId in old(rows) then 1 else 0)
      ensures userId in old(rows) ==> rows == old(rows)[userId := VerifiedRow(old(rows)[userId], now)]
      ensures userId !in old(rows) ==> rows == old(rows)
    {
      count := 0;
      if userId in rows {
        rows := rows[userId := VerifiedRow(rows[userId], now)];
        count := 1;
      }
    }

    /** `updatePassword` */
    method UpdatePassword(userId: string, passwordHash: string, now: Time) returns (count: nat)
      requires Valid()
      modifies this
      ensures Valid()
      ensures count == (if userId in old(rows) then 1 else 0)
      ensures userId in old(rows) ==> rows == old(rows)[userId := PasswordRow(old(rows)[userId], passwordHash, now)]
      ensures userId !in old(rows) ==> rows == old(rows)
    {
      count := 0;
      if userId in rows {
        rows := rows[userId := PasswordRow(rows[userId], passwordHash, now)];
        count := 1;
      }
    }

    /** `unlockAccount` */
    method UnlockAccount(userId: string, now: Time) returns (count: nat)
      requires Valid()
      modifies this
      ensures Valid()
      ensures count == (if userId in old(rows) then 1 else 0)
      ensures userId in old(rows) ==> rows == old(rows)[userId := UnlockedRow(old(rows)[userId], now)]
      ensures userId !in old(rows) ==> rows == old(rows)
    {
      count := 0;
      if userId in rows {
        rows := rows[userId := UnlockedRow(rows[userId], now)];
        count := 1;
      }
    }

    /** `recordSuccessfulLogin`: the same change as the record's `recordLoginSuccess`. */
    method RecordSuccessfulLogin(userId: string, now: Time) returns (count: nat)
      requires Valid()
      modifies this
      ensures Valid()
      ensures count == (if userId in old(rows) then 1 else 0)
      ensures userId in old(rows) ==> rows == old(rows)[userId := RecordLoginSuccess(old(rows)[userId], now)]
      ensures userId !in old(rows) ==> rows == old(rows)
    {
      count := 0;
      if userId in rows {
        rows := rows[userId := RecordLoginSuccess(rows[userId], now)];
        count := 1;
      }
    }

    /** `recordFailedLogin` */
    method RecordFailedLogin(userId: string, now: Time) returns (count: nat)
      requires Valid()
      modifies this
      ensures Valid()
      ensures count == (if userId in old(rows) then 1 else 0)
      ensures userId in old(rows) ==> rows == old(rows)[userId := FailedLoginRow(old(rows)[userId], now)]
      ensures userId !in old(rows) ==> rows == old(rows)
    {
      count := 0;
      if userId in rows {
        rows := rows[userId := FailedLoginRow(rows[userId], now)];
        count := 1;
      }
    }
  }

  /** Every update keeps the emails, so none of them can break their uniqueness. */
  lemma UpdatesKeepEmails(u: User, now: Time, passwordHash: string)
    ensures VerifiedRow(u, now).email == u.email && PasswordRow(u, passwordHash, now).email == u.email
    ensures UnlockedRow(u, now).email == u.email && FailedLoginRow(u, now).email == u.email
    ensures RecordLoginSuccess(u, now).email == u.email
  {
  }

  /** Replacing one row by a row with the same email keeps emails unique. */
  lemma SameEmailKeepsUnique(t: Users, id: string, row: User)
    requires UniqueEmails(t) && id in t && row.email == t[id].email
    ensures UniqueEmails(t[id := row])
  {
  }

  /** Adding a row under a new id with an email no row has keeps emails unique. */
  lemma NewEmailKeepsUnique(t: Users, row: User)
    requires UniqueEmails(t) && row.id !in t && !HasEmail(t, row.email)
    ensures UniqueEmails(t[row.id := row])
  {
    assert forall id :: id in t ==> t[id].email != row.email;
  }
}
