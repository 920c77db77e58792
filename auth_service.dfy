/** The auth service: registration, login with the failed-login lock, single-use refresh
    tokens, logout and password change. The password encoder, the SHA-256 token hash and
    the JWT signer are parameters; so are the random ids and the clock. */
module AuthServiceModel {
  import opened Common
  import opened UserModel
  import opened UserStore
  import opened RefreshTokenModel
  import opened TokenStore

  /** The JWT signer: the tokens it issues at an instant, and the configured lifetimes in
      milliseconds. */
  datatype Jwt = Jwt(
    accessToken: (string, string, seq<string>, Time) -> string,
    refreshToken: (string, Time) -> string,
    accessTokenExpiration: int,
    refreshTokenExpiration: int)

  datatype UserResponse = UserResponse(
    id: string,
    email: string,
    firstName: Option<string>,
    lastName: Option<string>,
    fullName: string,
    avatarUrl: Option<string>,
    emailVerified: bool,
    roles: seq<string>)

  datatype AuthResponse = AuthResponse(
    accessToken: string,
    refreshToken: string,
    expiresIn: int,
    tokenType: string,
    user: UserResponse)

  datatype TokenRefreshResponse = TokenRefreshResponse(accessToken: string, refreshToken: string, expiresIn: int)

  /** Every account gets the one role; there is no roles table yet. */
  const Roles: seq<string> := ["USER"]

  function AuthFailure<T>(message: string): Result<T>
  {
    Fail(Authentication, message)
  }

  /** `mapToUserResponse`: the account's public fields, its full name and the roles;
      never the password hash or the lock state. */
  function MapToUserResponse(u: User): (r: UserResponse)
    ensures r.id == u.id && r.email == u.email && r.firstName == u.firstName && r.lastName == u.lastName
    ensures r.fullName == FullName(u) && r.avatarUrl == u.avatarUrl && r.emailVerified == u.emailVerified
    ensures r.roles == ["USER"]
  {
    UserResponse(u.id, u.email, u.firstName, u.lastName, FullName(u), u.avatarUrl, u.emailVerified, Roles)
  }

  /** The seconds in a configured lifetime, as `expiresIn` reports them. */
  function Seconds(ms: int): int
  {
    JavaDiv(ms, 1000)
  }

  /** The row stored for the refresh token issued to `user` at `now`: only the token's
      hash is kept. */
  function IssuedToken(jwt: Jwt, hashToken: string -> string, user: User, tokenId: string, now: Time): RefreshToken
  {
    RefreshTokenModel.Create(tokenId, user.id, hashToken(jwt.refreshToken(user.id, now)), jwt.refreshTokenExpiration, now)
  }

  /** The reply to a successful registration or login. */
  function AuthResponseFor(jwt: Jwt, user: User, now: Time): AuthResponse
  {
    AuthResponse(jwt.accessToken(user.id, user.email, Roles, now), jwt.refreshToken(user.id, now),
                 Seconds(jwt.accessTokenExpiration), "Bearer", MapToUserResponse(user))
  }

  /** `generateAuthResponse`: issues an access and a refresh token, stores the refresh
      token's hash and replies with both. */
  method GenerateAuthResponse(tokens: RefreshTokenRepository, jwt: Jwt, hashToken: string -> string, user: User,
                              tokenId: string, now: Time) returns (r: AuthResponse)
    requires tokens.Valid()
    modifies tokens
    ensures tokens.Valid()
    ensures tokens.rows == old(tokens.rows)[tokenId := IssuedToken(jwt, hashToken, user, tokenId, now)]
    ensures r == AuthResponseFor(jwt, user, now)
    ensures r.tokenType == "Bearer" && r.user == MapToUserResponse(user)
    ensures hashToken(r.refreshToken) == tokens.rows[tokenId].tokenHash && tokens.rows[tokenId].userId == user.id
  {
    var refresh := jwt.refreshToken(user.id, now);
    var token := RefreshTokenModel.Create(tokenId, user.id, hashToken(refresh), jwt.refreshTokenExpiration, now);
    var saved := tokens.Save(token);
    r := AuthResponse(jwt.accessToken(user.id, user.email, Roles, now), refresh, Seconds(jwt.accessTokenExpiration),
                      "Bearer", MapToUserResponse(user));
  }

  /** `register`: refused when an account already has the lower-cased email; otherwise a
      new account (`passwordHash` is the encoder's output for the password) is stored and
      signed in. */
  method Register(users: UserRepository, tokens: RefreshTokenRepository, jwt: Jwt, hashToken: string -> string,
                  email: string, passwordHash: string, firstName: Option<string>, lastName: Option<string>,
                  userId: string, tokenId: string, now: Time) returns (r: Result<AuthResponse>)
    requires users.Valid() && tokens.Valid()
    modifies users, tokens
    ensures users.Valid() && tokens.Valid()
    ensures HasEmail(old(users.rows), LowerCase(email)) ==>
      r == AuthFailure("Email already registered") && users.rows == old(users.rows) && tokens.rows == old(tokens.rows)
    ensures !HasEmail(old(users.rows), LowerCase(email)) ==>
      var user := CreateNew(userId, email, passwordHash, firstName, lastName, now);
      && users.rows == old(users.rows)[userId := user]
      && tokens.rows == old(tokens.rows)[tokenId := IssuedToken(jwt, hashToken, user, tokenId, now)]
      && r == Ok(AuthResponseFor(jwt, user, now))
    ensures UniqueEmails(old(users.rows)) && userId !in old(users.rows) ==> UniqueEmails(users.rows)
  {
    if users.ExistsByEmail(LowerCase(email)) {
      return AuthFailure("Email already registered");
    }
    var user := CreateNew(userId, email, passwordHash, firstName, lastName, now);
    var saved := users.Save(user);
    var response := GenerateAuthResponse(tokens, jwt, hashToken, saved, tokenId, now);
    r := Ok(response);
    if UniqueEmails(old(users.rows)) && userId !in old(users.rows) {
      NewEmailKeepsUnique(old(users.rows), user);
    }
  }

  /** How a login attempt ends, given the account found for the email. */
  datatype LoginOutcome = UnknownEmail | Locked | WrongPassword | Accepted

  function Decide(found: Option<User>, password: string, matches: (string, string) -> bool): (o: LoginOutcome)
    ensures o == Accepted <==> found.Some? && !found.value.accountLocked && matches(password, found.value.passwordHash)
    ensures o == UnknownEmail <==> found.None?
  {
    match found
    case None => UnknownEmail
    case Some(u) =>
      if u.accountLocked then Locked
      else if !matches(password, u.passwordHash) then WrongPassword
      else Accepted
  }

  /** `login`: the account is looked up by the lower-cased email (`found`). A locked
      account is refused before the password is checked; a wrong password records a
      failure and is refused with the same message as an unknown email; a right one
      records the login and signs in with the account as it was read. */
  method Login(users: UserRepository, tokens: RefreshTokenRepository, jwt: Jwt, hashToken: string -> string,
               matches: (string, string) -> bool, email: string, password: string, tokenId: string, now: Time)
    returns (r: Result<AuthResponse>, ghost found: Option<User>)
    requires users.Valid() && tokens.Valid()
    modifies users, tokens
    ensures users.Valid() && tokens.Valid()
    ensures found.None? <==> !HasEmail(old(users.rows), LowerCase(email))
    ensures found.Some? ==>
      found.value.id in old(users.rows) && old(users.rows)[found.value.id] == found.value
      && found.value.email == LowerCase(email)
    ensures Decide(found, password, matches) == UnknownEmail ==>
      r == AuthFailure("Invalid email or password") && users.rows == old(users.rows) && tokens.rows == old(tokens.rows)
    ensures Decide(found, password, matches) == Locked ==>
      r == AuthFailure("Account is locked. Please contact support.")
      && users.rows == old(users.rows) && tokens.rows == old(tokens.rows)
    ensures Decide(found, password, matches) == WrongPassword ==>
      r == AuthFailure("Invalid email or password")
      && users.rows == old(users.rows)[found.value.id := FailedLoginRow(found.value, now)]
      && tokens.rows == old(tokens.rows)
    ensures Decide(found, password, matches) == Accepted ==>
      r == Ok(AuthResponseFor(jwt, found.value, now))
      && users.rows == old(users.rows)[found.value.id := RecordLoginSuccess(found.value, now)]
      && tokens.rows == old(tokens.rows)[tokenId := IssuedToken(jwt, hashToken, found.value, tokenId, now)]
  {
    var account := users.FindByEmail(LowerCase(email));
    found := account;
    if account.None? {
      return AuthFailure("Invalid email or password"), found;
    }
    var user := account.value;
    if user.accountLocked {
      return AuthFailure("Account is locked. Please contact support."), found;
    }
    if !matches(password, user.passwordHash) {
      var _ := users.RecordFailedLogin(user.id, now);
      return AuthFailure("Invalid email or password"), found;
    }
    var _ := users.RecordSuccessfulLogin(user.id, now);
    var response := GenerateAuthResponse(tokens, jwt, hashToken, user, tokenId, now);
    r := Ok(response);
  }

  /** An account just registered, with an encoder whose hash matches the password, can
      log in with that password: under unique emails it is the account found. */
  lemma RegisteredAccountLogsIn(t: Users, userId: string, email: string, password: string, passwordHash: string,
                                firstName: Option<string>, lastName: Option<string>, now: Time,
                                matches: (string, string) -> bool, found: User)
    requires UniqueEmails(t) && userId !in t && !HasEmail(t, LowerCase(email))
    requires matches(password, passwordHash)
    requires
      var t' := t[userId := CreateNew(userId, email, passwordHash, firstName, lastName, now)];
      found.id in t' && t'[found.id] == found && found.email == LowerCase(email)
    ensures found == CreateNew(userId, email, passwordHash, firstName, lastName, now)
    ensures Decide(Some(found), password, matches) == Accepted
  {
    assert forall id :: id in t ==> t[id].email != LowerCase(email);
  }

  /** From a fresh account, `n` failed-login updates leave the same row as `n` failures
      recorded by the account itself. */
  lemma {:induction false} FailedLoginsAreFailures(u: User, n: nat, now: Time)
    requires u.failedLoginAttempts.Some?
    ensures FailedLogins(u, n, now) == Failures(u, n, now)
    ensures FailedLogins(u, n, now).failedLoginAttempts.Some?
  {
    if n > 0 {
      FailedLoginsAreFailures(u, n - 1, now);
      FailedLoginRowAgrees(FailedLogins(u, n - 1, now), now);
    }
  }

  /** Five wrong passwords in a row lock a new account: from then on every login is
      refused as locked, whatever the password, and four are not enough. */
  lemma FiveWrongPasswordsLockOut(u: User, n: nat, now: Time, password: string, matches: (string, string) -> bool)
    requires u.failedLoginAttempts == Some(0) && !u.accountLocked
    ensures n >= 5 ==> Decide(Some(FailedLogins(u, n, now)), password, matches) == Locked
    ensures n < 5 ==> !FailedLogins(u, n, now).accountLocked
  {
    FailedLoginsAreFailures(u, n, now);
    FailuresLockOnTheFifth(u, n, now);
  }

  /** `refreshToken`: the presented token's hash must match a valid row (`spent`); that
      row is revoked, and when its account still exists a new token pair is issued and
      the new refresh token's hash stored. A vanished account ends with no reply and no
      new token. */
  method Refresh(users: UserRepository, tokens: RefreshTokenRepository, jwt: Jwt, hashToken: string -> string,
                      refreshToken: string, tokenId: string, now: Time)
    returns (r: Result<Option<TokenRefreshResponse>>, ghost spent: Option<RefreshToken>)
    requires users.Valid() && tokens.Valid()
    modifies tokens
    ensures tokens.Valid()
    ensures spent.None? <==> !HasValid(old(tokens.rows), hashToken(refreshToken), now)
    ensures spent.None? ==> r == AuthFailure("Invalid or expired refresh token") && tokens.rows == old(tokens.rows)
    ensures spent.Some? ==>
      spent.value.id in old(tokens.rows) && old(tokens.rows)[spent.value.id] == spent.value
      && spent.value.tokenHash == hashToken(refreshToken) && IsValid(spent.value, now)
    ensures spent.Some? && spent.value.userId !in users.rows ==>
      r == Ok(None) && tokens.rows == Revoke(old(tokens.rows), spent.value.id)
    ensures spent.Some? && spent.value.userId in users.rows ==>
      var user := users.rows[spent.value.userId];
      && tokens.rows == Revoke(old(tokens.rows), spent.value.id)[tokenId := IssuedToken(jwt, hashToken, user, tokenId, now)]
      && r == Ok(Some(TokenRefreshResponse(jwt.accessToken(user.id, user.email, Roles, now),
                                           jwt.refreshToken(user.id, now), Seconds(jwt.accessTokenExpiration))))
  {
    var valid := tokens.FindValidToken(hashToken(refreshToken), now);
    spent := valid;
    if valid.None? {
      return AuthFailure("Invalid or expired refresh token"), spent;
    }
    var _ := tokens.RevokeToken(valid.value.id);
    var account := users.FindById(valid.value.userId);
    if account.None? {
      return Ok(None), spent;
    }
    var user := account.value;
    var refresh := jwt.refreshToken(user.id, now);
    var token := RefreshTokenModel.Create(tokenId, user.id, hashToken(refresh), jwt.refreshTokenExpiration, now);
    var saved := tokens.Save(token);
    r := Ok(Some(TokenRefreshResponse(jwt.accessToken(user.id, user.email, Roles, now), refresh,
                                      Seconds(jwt.accessTokenExpiration))));
  }

  /** `logout`: every refresh token of the user revoked. */
  method Logout(tokens: RefreshTokenRepository, userId: string)
    requires tokens.Valid()
    modifies tokens
    ensures tokens.Valid()
    ensures tokens.rows == RevokeAll(old(tokens.rows), userId)
  {
    var _ := tokens.RevokeAllUserTokens(userId);
  }

  /** `changePassword`: refused, with nothing written, for an unknown account or a wrong
      current password; otherwise the new hash (`newPasswordHash`, the encoder's output)
      is stored and only then every refresh token of the user revoked. */
  method ChangePassword(users: UserRepository, tokens: RefreshTokenRepository, matches: (string, string) -> bool,
                        userId: string, currentPassword: string, newPasswordHash: string, now: Time)
    returns (r: Result<()>)
    requires users.Valid() && tokens.Valid()
    modifies users, tokens
    ensures users.Valid() && tokens.Valid()
    ensures userId !in old(users.rows) ==>
      r == AuthFailure("User not found") && users.rows == old(users.rows) && tokens.rows == old(tokens.rows)
    ensures userId in old(users.rows) && !matches(currentPassword, old(users.rows)[userId].passwordHash) ==>
      r == AuthFailure("Current password is incorrect") && users.rows == old(users.rows) && tokens.rows == old(tokens.rows)
    ensures userId in old(users.rows) && matches(currentPassword, old(users.rows)[userId].passwordHash) ==>
      r == Ok(())
      && users.rows == old(users.rows)[userId := PasswordRow(old(users.rows)[userId], newPasswordHash, now)]
      && tokens.rows == RevokeAll(old(tokens.rows), userId)
  {
    var account := users.FindById(userId);
    if account.None? {
      return AuthFailure("User not found");
    }
    if !matches(currentPassword, account.value.passwordHash) {
      return AuthFailure("Current password is incorrect");
    }
    var _ := users.UpdatePassword(userId, newPasswordHash, now);
    var _ := tokens.RevokeAllUserTokens(userId);
    r := Ok(());
  }

  /** `getCurrentUser`: the account's public view, or nothing for an unknown id. */
  function GetCurrentUser(users: UserRepository, userId: string): (r: Option<UserResponse>)
    reads users
    ensures r.Some? <==> userId in users.rows
    ensures r.Some? ==> r.value == MapToUserResponse(users.rows[userId])
  {
    match users.FindById(userId)
    case None => None
    case Some(u) => Some(MapToUserResponse(u))
  }
}
