/** `AuthService` (src/auth/auth.service.ts), with the `UsersService` updates
    it calls (src/users/users.service.ts): registration, email verification,
    login, and password reset.

    bcrypt, the JWT signer and the random generator are not modelled: a hash,
    a signed token or a random token is a parameter, and `bcrypt.compare` is
    the parameter `matches(plain, hash)`. */
module Auth {
  import opened Common
  import opened Model
  import Query

  /** One hour, in milliseconds: how long a verification or reset token lives. */
  const TokenLifetime: int := 3600000

  function UserHasId(id: Id): User -> bool {
    (u: User) => u.id == id
  }

  /** `user.findUnique({ where: { email } })`. */
  function FindByEmail(users: seq<User>, email: string): (r: Option<User>)
    ensures r.Some? ==> r.value in users && r.value.email == email
    ensures r.None? <==> forall j :: 0 <= j < |users| ==> users[j].email != email
  {
    match Query.FindFirst(users, (u: User) => u.email == email)
    case None => None
    case Some(k) => Some(users[k])
  }

  /** `findFirstByEmailOrUsername`. */
  function FindByEmailOrUsername(users: seq<User>, email: string, username: string): (r: Option<User>)
    ensures r.Some? ==> r.value in users && (r.value.email == email || r.value.username == username)
    ensures r.None? <==> forall j :: 0 <= j < |users| ==> users[j].email != email && users[j].username != username
  {
    match Query.FindFirst(users, (u: User) => u.email == email || u.username == username)
    case None => None
    case Some(k) => Some(users[k])
  }

  /** `user.findFirst({ where: { emailVerificationToken: token } })`, where
      `token` is the unvalidated query parameter. When it is missing, Prisma
      drops the undefined filter and the first account matches. */
  function FindByVerificationToken(users: seq<User>, token: Option<string>): (r: Option<User>)
    ensures token.Some? ==> (r.Some? ==> r.value in users && r.value.emailVerificationToken == token)
    ensures token.Some? ==> (r.None? <==> forall j :: 0 <= j < |users| ==> users[j].emailVerificationToken != token)
    ensures token.None? ==> r == if |users| == 0 then None else Some(users[0])
  {
    match Query.FindFirst(users, (u: User) => token.None? || u.emailVerificationToken == token)
    case None => None
    case Some(k) => Some(users[k])
  }

  /** `findByPasswordResetToken`. */
  function FindByResetToken(users: seq<User>, token: string): (r: Option<User>)
    ensures r.Some? ==> r.value in users && r.value.passwordResetToken == Some(token)
    ensures r.None? <==> forall j :: 0 <= j < |users| ==> users[j].passwordResetToken != Some(token)
  {
    match Query.FindFirst(users, (u: User) => u.passwordResetToken == Some(token))
    case None => None
    case Some(k) => Some(users[k])
  }

  // ---- the account invariants ----

  /** Each token travels with its expiry, and a verified account holds no
      verification token. */
  predicate AccountConsistent(u: User) {
    && (u.emailVerificationToken.Some? <==> u.emailVerificationExpiresAt.Some?)
    && (u.passwordResetToken.Some? <==> u.passwordResetExpiresAt.Some?)
    && (u.isEmailVerified ==> u.emailVerificationToken.None?)
  }

  predicate AccountsConsistent(users: seq<User>) {
    forall j :: 0 <= j < |users| ==> AccountConsistent(users[j])
  }

  /** No two accounts share an id (the primary key). */
  predicate UniqueIds(users: seq<User>) {
    forall i, j :: 0 <= i < j < |users| ==> users[i].id != users[j].id
  }

  /** No two accounts share an email address or a username. */
  predicate UniqueAccounts(users: seq<User>) {
    forall i, j :: 0 <= i < j < |users| ==> users[i].email != users[j].email && users[i].username != users[j].username
  }

  /** Rewriting one account by a change that keeps accounts consistent keeps
      the whole table consistent. */
  lemma UpdateKeepsConsistent(users: seq<User>, id: Id, f: User -> User)
    requires AccountsConsistent(users)
    requires forall u :: AccountConsistent(u) ==> AccountConsistent(f(u))
    ensures AccountsConsistent(Query.UpdateWhere(users, UserHasId(id), f))
  {
    var r := Query.UpdateWhere(users, UserHasId(id), f);
    forall j | 0 <= j < |r| ensures AccountConsistent(r[j]) {
      assert AccountConsistent(users[j]);
    }
  }

  // ---- register ----

  /** The account `register` creates: unverified, with a verification token
      that lives one hour. */
  function NewAccount(userId: Id, email: string, username: string, hashedPassword: string,
                      token: string, now: Time): (u: User)
    ensures AccountConsistent(u) && !u.isEmailVerified
    ensures u.emailVerificationExpiresAt == Some(now + TokenLifetime)
  {
    User(userId, email, username, Some(hashedPassword), false, Some(token), Some(now + TokenLifetime),
         None, None, None, None)
  }

  /** `register`: refused when the email or the username is taken; otherwise
      the account is created. A failed verification email is only logged. */
  method Register(db: Store, email: string, username: string, hashedPassword: string,
                  userId: Id, token: string, now: Time)
    returns (r: Result<User>)
    modifies db
    ensures FindByEmailOrUsername(old(db.users), email, username).Some? ==>
      r == Err(Conflict(EmailOrUsernameInUse)) && db.Snapshot() == old(db.Snapshot())
    ensures FindByEmailOrUsername(old(db.users), email, username).None? ==>
      && r == Ok(NewAccount(userId, email, username, hashedPassword, token, now))
      && db.Snapshot() == old(db.Snapshot()).(users := old(db.users) + [r.value])
  {
    var existingUser := FindByEmailOrUsername(db.users, email, username);
    if existingUser.Some? {
      return Err(Conflict(EmailOrUsernameInUse));
    }
    var user := NewAccount(userId, email, username, hashedPassword, token, now);
    db.users := db.users + [user];
    return Ok(user);
  }

  /** Registration keeps emails and usernames unique, and accounts
      consistent. */
  lemma RegisterKeepsInvariants(users: seq<User>, email: string, username: string, hashedPassword: string,
                                userId: Id, token: string, now: Time)
    requires UniqueAccounts(users) && AccountsConsistent(users)
    requires FindByEmailOrUsername(users, email, username).None?
    ensures var after := users + [NewAccount(userId, email, username, hashedPassword, token, now)];
      UniqueAccounts(after) && AccountsConsistent(after)
  {
  }

  // ---- verify email ----

  /** The checks of `verifyEmail`, in order, and the account they let
      through. */
  function VerifyEmailCheck(users: seq<User>, token: Option<string>, now: Time): (r: Result<User>)
    ensures r.Ok? ==> FindByVerificationToken(users, token) == Some(r.value)
    ensures r == Err(BadRequest(InvalidVerificationToken)) <==> FindByVerificationToken(users, token).None?
    ensures r == Err(BadRequest(InvalidTokenState)) <==>
      var u := FindByVerificationToken(users, token);
      u.Some? && u.value.emailVerificationExpiresAt.None?
    ensures r == Err(BadRequest(VerificationTokenExpired)) <==>
      var u := FindByVerificationToken(users, token);
      u.Some? && u.value.emailVerificationExpiresAt.Some? && now > u.value.emailVerificationExpiresAt.value
    ensures r.Ok? <==>
      var u := FindByVerificationToken(users, token);
      u.Some? && u.value.emailVerificationExpiresAt.Some? && now <= u.value.emailVerificationExpiresAt.value
  {
    match FindByVerificationToken(users, token)
    case None => Err(BadRequest(InvalidVerificationToken))
    case Some(user) =>
      match user.emailVerificationExpiresAt
      case None => Err(BadRequest(InvalidTokenState))
      case Some(expiresAt) =>
        if now > expiresAt then Err(BadRequest(VerificationTokenExpired)) else Ok(user)
  }

  /** The update `verifyEmail` makes. */
  function Verified(): User -> User {
    (u: User) => u.(isEmailVerified := true, emailVerificationToken := None, emailVerificationExpiresAt := None)
  }

  /** `verifyEmail`. */
  method VerifyEmail(db: Store, token: Option<string>, now: Time) returns (r: Result<()>)
    modifies db
    ensures VerifyEmailCheck(old(db.users), token, now).Err? ==>
      r == Err(VerifyEmailCheck(old(db.users), token, now).error) && db.Snapshot() == old(db.Snapshot())
    ensures VerifyEmailCheck(old(db.users), token, now).Ok? ==>
      && r == Ok(())
      && db.Snapshot() == old(db.Snapshot()).(
           users := Query.UpdateWhere(old(db.users), UserHasId(VerifyEmailCheck(old(db.users), token, now).value.id),
                                      Verified()))
  {
    var check := VerifyEmailCheck(db.users, token, now);
    if check.Err? {
      return Err(check.error);
    }
    db.users := Query.UpdateWhere(db.users, UserHasId(check.value.id), Verified());
    return Ok(());
  }

  /** With accounts consistent, a found token always has its expiry: the
      "invalid token state" refusal happens only when the token is missing. */
  lemma InvalidTokenStateNeedsMissingToken(users: seq<User>, token: Option<string>, now: Time)
    requires AccountsConsistent(users)
    ensures VerifyEmailCheck(users, token, now) == Err(BadRequest(InvalidTokenState)) ==> token.None?
  {
  }

  /** Without a token the first account is the one checked: a verified one is
      refused as an invalid token state, and an unverified one within its
      token's lifetime is verified without anyone presenting its token. */
  lemma MissingTokenChecksFirstAccount(users: seq<User>, now: Time)
    requires AccountsConsistent(users) && |users| > 0
    ensures users[0].isEmailVerified ==> VerifyEmailCheck(users, None, now) == Err(BadRequest(InvalidTokenState))
    ensures var e := users[0].emailVerificationExpiresAt;
      !users[0].isEmailVerified && e.Some? && now <= e.value ==> VerifyEmailCheck(users, None, now) == Ok(users[0])
  {
  }

  /** Verification keeps accounts consistent, and afterwards logging in with
      that account's email is no longer refused for want of verification. */
  lemma VerifyEmailEffect(users: seq<User>, token: Option<string>, now: Time, password: string,
                          matches: (string, string) -> bool)
    requires UniqueAccounts(users) && AccountsConsistent(users)
    requires VerifyEmailCheck(users, token, now).Ok?
    ensures var u := VerifyEmailCheck(users, token, now).value;
      var after := Query.UpdateWhere(users, UserHasId(u.id), Verified());
      && AccountsConsistent(after)
      && LoginCheck(after, u.email, password, matches) != Err(Unauthorized(VerifyEmailFirst))
  {
  }

  // ---- resend verification ----

  /** The decision of `resendVerificationEmail`: `None` when it returns
      silently (no such account, or already verified), a refusal while the
      last token is still alive, otherwise the account to send to. */
  function ResendCheck(users: seq<User>, email: string, now: Time): (r: Result<Option<User>>)
    ensures r == Ok(None) <==> FindByEmail(users, email).None? || FindByEmail(users, email).value.isEmailVerified
    ensures r.Err? ==> r.error == BadRequest(VerificationEmailAlreadySent)
    ensures r.Err? <==>
      var u := FindByEmail(users, email);
      && u.Some? && !u.value.isEmailVerified
      && u.value.emailVerificationExpiresAt.Some? && now < u.value.emailVerificationExpiresAt.value
    ensures r.Ok? && r.value.Some? ==> FindByEmail(users, email) == r.value && !r.value.value.isEmailVerified
  {
    match FindByEmail(users, email)
    case None => Ok(None)
    case Some(user) =>
      if user.isEmailVerified then Ok(None)
      else if user.emailVerificationExpiresAt.Some? && now < user.emailVerificationExpiresAt.value then
        Err(BadRequest(VerificationEmailAlreadySent))
      else Ok(Some(user))
  }

  /** `updateVerificationToken`. */
  function NewVerificationToken(token: string, expiresAt: Time): User -> User {
    (u: User) => u.(emailVerificationToken := Some(token), emailVerificationExpiresAt := Some(expiresAt))
  }

  /** `resendVerificationEmail`: a new token good for an hour. */
  method ResendVerificationEmail(db: Store, email: string, token: string, now: Time) returns (r: Result<()>)
    modifies db
    ensures ResendCheck(old(db.users), email, now).Err? ==>
      r == Err(ResendCheck(old(db.users), email, now).error) && db.Snapshot() == old(db.Snapshot())
    ensures ResendCheck(old(db.users), email, now) == Ok(None) ==> r == Ok(()) && db.Snapshot() == old(db.Snapshot())
    ensures ResendCheck(old(db.users), email, now).Ok? && ResendCheck(old(db.users), email, now).value.Some? ==>
      && r == Ok(())
      && db.Snapshot() == old(db.Snapshot()).(
           users := Query.UpdateWhere(old(db.users), UserHasId(ResendCheck(old(db.users), email, now).value.value.id),
                                      NewVerificationToken(token, now + TokenLifetime)))
  {
    var check := ResendCheck(db.users, email, now);
    if check.Err? {
      return Err(check.error);
    }
    if check.value.None? {
      return Ok(());
    }
    db.users := Query.UpdateWhere(db.users, UserHasId(check.value.value.id),
                                  NewVerificationToken(token, now + TokenLifetime));
    return Ok(());
  }

  /** Resending keeps accounts consistent: it only touches an unverified
      account, and sets the token and its expiry together. */
  lemma ResendKeepsConsistent(users: seq<User>, email: string, token: string, now: Time)
    requires AccountsConsistent(users) && UniqueIds(users)
    requires ResendCheck(users, email, now).Ok? && ResendCheck(users, email, now).value.Some?
    ensures AccountsConsistent(Query.UpdateWhere(users, UserHasId(ResendCheck(users, email, now).value.value.id),
                                                 NewVerificationToken(token, now + TokenLifetime)))
  {
  }

  /** At the very instant of expiry a verification token is still accepted,
      and a new one may already be requested. */
  lemma VerificationExpiryBoundary(users: seq<User>, token: Option<string>)
    requires FindByVerificationToken(users, token).Some?
    requires FindByVerificationToken(users, token).value.emailVerificationExpiresAt.Some?
    ensures var u := FindByVerificationToken(users, token).value;
      var at := u.emailVerificationExpiresAt.value;
      VerifyEmailCheck(users, token, at).Ok? && (FindByEmail(users, u.email) == Some(u) ==> ResendCheck(users, u.email, at).Ok?)
  {
  }

  // ---- login ----

  /** The checks of `login`, in order, and the account they let through. */
  function LoginCheck(users: seq<User>, email: string, password: string, matches: (string, string) -> bool)
    : (r: Result<User>)
    ensures r.Ok? ==> FindByEmail(users, email) == Some(r.value)
    ensures r == Err(Unauthorized(VerifyEmailFirst)) <==>
      var u := FindByEmail(users, email);
      u.Some? && u.value.password.Some? && !u.value.isEmailVerified
    ensures r.Ok? <==>
      var u := FindByEmail(users, email);
      u.Some? && u.value.password.Some? && u.value.isEmailVerified && matches(password, u.value.password.value)
    ensures r.Err? && r.error != Unauthorized(VerifyEmailFirst) ==> r.error == Unauthorized(InvalidCredentials)
  {
    match FindByEmail(users, email)
    case None => Err(Unauthorized(InvalidCredentials))
    case Some(user) =>
      match user.password
      case None => Err(Unauthorized(InvalidCredentials))
      case Some(hash) =>
        if !user.isEmailVerified then Err(Unauthorized(VerifyEmailFirst))
        else if !matches(password, hash) then Err(Unauthorized(InvalidCredentials))
        else Ok(user)
  }

  /** What `login` returns. */
  datatype Session = Session(accessToken: string, refreshToken: string, user: User)

  /** `updateLoginData`. */
  function LoggedIn(hashedRefreshToken: string, now: Time): User -> User {
    (u: User) => u.(lastLoginAt := Some(now), hashedRefreshToken := Some(hashedRefreshToken))
  }

  /** `login`: the checks, then `_generateAndSaveTokens`: two signed tokens,
      the refresh token's hash stored with the login time. */
  method Login(db: Store, email: string, password: string, matches: (string, string) -> bool,
               accessToken: string, refreshToken: string, hashedRefreshToken: string, now: Time)
    returns (r: Result<Session>)
    modifies db
    ensures LoginCheck(old(db.users), email, password, matches).Err? ==>
      r == Err(LoginCheck(old(db.users), email, password, matches).error) && db.Snapshot() == old(db.Snapshot())
    ensures LoginCheck(old(db.users), email, password, matches).Ok? ==>
      var u := LoginCheck(old(db.users), email, password, matches).value;
      && r == Ok(Session(accessToken, refreshToken, u))
      && db.Snapshot() == old(db.Snapshot()).(
           users := Query.UpdateWhere(old(db.users), UserHasId(u.id), LoggedIn(hashedRefreshToken, now)))
  {
    var check := LoginCheck(db.users, email, password, matches);
    if check.Err? {
      return Err(check.error);
    }
    db.users := Query.UpdateWhere(db.users, UserHasId(check.value.id), LoggedIn(hashedRefreshToken, now));
    return Ok(Session(accessToken, refreshToken, check.value));
  }

  // ---- forgot and reset password ----

  /** The decision of `forgotPassword`: `None` when it returns silently (no
      such account), a refusal for an unverified one, otherwise the account. */
  function ForgotCheck(users: seq<User>, email: string): (r: Result<Option<User>>)
    ensures r == Ok(None) <==> FindByEmail(users, email).None?
    ensures r == Err(BadRequest(EmailNotVerified)) <==>
      FindByEmail(users, email).Some? && !FindByEmail(users, email).value.isEmailVerified
    ensures r.Ok? && r.value.Some? ==> FindByEmail(users, email) == r.value && r.value.value.isEmailVerified
  {
    match FindByEmail(users, email)
    case None => Ok(None)
    case Some(user) => if !user.isEmailVerified then Err(BadRequest(EmailNotVerified)) else Ok(Some(user))
  }

  /** `setPasswordResetToken`. */
  function NewResetToken(token: string, expiresAt: Time): User -> User {
    (u: User) => u.(passwordResetToken := Some(token), passwordResetExpiresAt := Some(expiresAt))
  }

  /** `forgotPassword`: a reset token good for an hour is stored, then the
      email is sent. A mailer without transport fails the request with the
      token already stored; a failed delivery is only logged. */
  method ForgotPassword(db: Store, email: string, token: string, now: Time, mailerReady: bool)
    returns (r: Result<()>)
    modifies db
    ensures ForgotCheck(old(db.users), email).Err? ==>
      r == Err(ForgotCheck(old(db.users), email).error) && db.Snapshot() == old(db.Snapshot())
    ensures ForgotCheck(old(db.users), email) == Ok(None) ==> r == Ok(()) && db.Snapshot() == old(db.Snapshot())
    ensures ForgotCheck(old(db.users), email).Ok? && ForgotCheck(old(db.users), email).value.Some? ==>
      && r == (if mailerReady then Ok(()) else Err(InternalServerError(EmailTransporterMissing)))
      && db.Snapshot() == old(db.Snapshot()).(
           users := Query.UpdateWhere(old(db.users), UserHasId(ForgotCheck(old(db.users), email).value.value.id),
                                      NewResetToken(token, now + TokenLifetime)))
  {
    var check := ForgotCheck(db.users, email);
    if check.Err? {
      return Err(check.error);
    }
    if check.value.None? {
      return Ok(());
    }
    db.users := Query.UpdateWhere(db.users, UserHasId(check.value.value.id), NewResetToken(token, now + TokenLifetime));
    if !mailerReady {
      return Err(InternalServerError(EmailTransporterMissing));
    }
    return Ok(());
  }

  /** The checks of `resetPassword`, in order, and the account they let
      through: a live token of an account with a password, and a new password
      that does not match the old one. */
  function ResetCheck(users: seq<User>, token: string, password: string, matches: (string, string) -> bool,
                      now: Time): (r: Result<User>)
    ensures r.Ok? ==> FindByResetToken(users, token) == Some(r.value)
    ensures r.Err? ==> r.error in {BadRequest(InvalidResetToken), Unauthorized(SamePassword)}
    ensures r == Err(Unauthorized(SamePassword)) <==>
      var u := FindByResetToken(users, token);
      && u.Some? && u.value.passwordResetExpiresAt.Some? && now <= u.value.passwordResetExpiresAt.value
      && u.value.password.Some? && matches(password, u.value.password.value)
    ensures r.Ok? <==>
      var u := FindByResetToken(users, token);
      && u.Some? && u.value.passwordResetExpiresAt.Some? && now <= u.value.passwordResetExpiresAt.value
      && u.value.password.Some? && !matches(password, u.value.password.value)
  {
    match FindByResetToken(users, token)
    case None => Err(BadRequest(InvalidResetToken))
    case Some(user) =>
      if user.passwordResetExpiresAt.None? || now > user.passwordResetExpiresAt.value || user.password.None? then
        Err(BadRequest(InvalidResetToken))
      else if matches(password, user.password.value) then Err(Unauthorized(SamePassword))
      else Ok(user)
  }

  /** `updateUserPassword`: the new hash, and the reset token spent. */
  function NewPassword(hashedPassword: string): User -> User {
    (u: User) => u.(password := Some(hashedPassword), passwordResetToken := None, passwordResetExpiresAt := None)
  }

  /** `resetPassword`. */
  method ResetPassword(db: Store, token: string, password: string, matches: (string, string) -> bool,
                       hashedPassword: string, now: Time)
    returns (r: Result<()>)
    modifies db
    ensures ResetCheck(old(db.users), token, password, matches, now).Err? ==>
      r == Err(ResetCheck(old(db.users), token, password, matches, now).error) && db.Snapshot() == old(db.Snapshot())
    ensures ResetCheck(old(db.users), token, password, matches, now).Ok? ==>
      && r == Ok(())
      && db.Snapshot() == old(db.Snapshot()).(
           users := Query.UpdateWhere(old(db.users), UserHasId(ResetCheck(old(db.users), token, password, matches, now).value.id),
                                      NewPassword(hashedPassword)))
  {
    var check := ResetCheck(db.users, token, password, matches, now);
    if check.Err? {
      return Err(check.error);
    }
    db.users := Query.UpdateWhere(db.users, UserHasId(check.value.id), NewPassword(hashedPassword));
    return Ok(());
  }

  /** A reset token works once: with account ids unique, after a reset the
      same token is refused whatever the password and the time. */
  lemma ResetTokenSingleUse(users: seq<User>, token: string, password: string, matches: (string, string) -> bool,
                            now: Time, hashedPassword: string, password2: string, later: Time)
    requires UniqueIds(users)
    requires forall i, j :: 0 <= i < j < |users| && users[i].passwordResetToken == Some(token) ==>
               users[j].passwordResetToken != Some(token)
    requires ResetCheck(users, token, password, matches, now).Ok?
    ensures var u := ResetCheck(users, token, password, matches, now).value;
      var after := Query.UpdateWhere(users, UserHasId(u.id), NewPassword(hashedPassword));
      ResetCheck(after, token, password2, matches, later) == Err(BadRequest(InvalidResetToken))
  {
  }

  /** Forgetting and resetting a password keep accounts consistent: the reset
      token and its expiry are set together and cleared together. */
  lemma PasswordUpdatesKeepConsistent(users: seq<User>, id: Id, token: string, expiresAt: Time,
                                      hashedPassword: string, hashedRefreshToken: string, now: Time)
    requires AccountsConsistent(users)
    ensures AccountsConsistent(Query.UpdateWhere(users, UserHasId(id), NewResetToken(token, expiresAt)))
    ensures AccountsConsistent(Query.UpdateWhere(users, UserHasId(id), NewPassword(hashedPassword)))
    ensures AccountsConsistent(Query.UpdateWhere(users, UserHasId(id), LoggedIn(hashedRefreshToken, now)))
  {
  }
}
