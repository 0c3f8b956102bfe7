/**
 * The handlers of the auth controller as guarded transitions over the store.
 * Each takes the request's inputs, the clock (`now`), the hash and any fresh
 * random token as parameters, and returns its reply with the store it leaves
 * behind. A guard that fails answers at once and writes nothing.
 */
module AuthController {
  import opened Wrappers
  import opened JsText
  import opened UserModel
  import opened Store
  import opened AuthErrors
  import opened AuthStrategies
  import opened UserSessions
  import opened EmailPattern
  import Constants

  datatype Outcome<T> = Outcome(reply: Reply<T>, db: Db)

  /** The user as the login response shows it: the secrets are deleted from the JSON. */
  datatype PublicUser = PublicUser(
    id: UserId,
    facebookId: Option<string>,
    displayName: string,
    firstName: Option<string>,
    lastName: Option<string>,
    email: string,
    image: Option<string>,
    isEmailVerified: bool,
    status: int,
    failedLoginAttempts: nat,
    accountLockedUntil: Option<int>,
    lastLogin: Option<int>,
    lastPasswordChange: int,
    loginHistory: seq<LoginEntry>,
    emailNotificationsEnabled: bool)

  /** Drops `password`, both token/expiry pairs and `googleId`. */
  function Sanitize(u: User): PublicUser {
    PublicUser(u.id, u.facebookId, u.displayName, u.firstName, u.lastName, u.email, u.image, u.isEmailVerified,
               u.status, u.failedLoginAttempts, u.accountLockedUntil, u.lastLogin, u.lastPasswordChange,
               u.loginHistory, u.emailNotificationsEnabled)
  }

  /** Two users that differ at most in the fields the login response deletes. */
  predicate SameButSecrets(a: User, b: User) {
    a.(password := b.password, googleId := b.googleId,
       resetPasswordToken := b.resetPasswordToken, resetPasswordTokenExpiry := b.resetPasswordTokenExpiry,
       emailVerificationToken := b.emailVerificationToken,
       emailVerificationTokenExpiry := b.emailVerificationTokenExpiry) == b
  }

  /**
   * The response reveals nothing of the secrets and everything else: two
   * users look the same exactly when they differ only in secret fields.
   */
  lemma SanitizeHidesExactlySecrets(a: User, b: User)
    ensures Sanitize(a) == Sanitize(b) <==> SameButSecrets(a, b)
  {
  }

  /** The request's session is now the user's: `req.logIn` stores `passport.user` in it. */
  function BindSession(sessions: seq<TransportSession>, sid: string, userId: UserId): (r: seq<TransportSession>)
    ensures TransportSession(sid, Some(userId)) in r
    ensures forall t :: t in r && t.id == sid ==> t == TransportSession(sid, Some(userId))
    ensures forall t :: t in sessions && t.id != sid ==> t in r
    ensures forall t :: t in r && t.id != sid ==> t in sessions
  {
    Keep(sessions, (t: TransportSession) => t.id != sid) + [TransportSession(sid, Some(userId))]
  }

  datatype LoginRequest = LoginRequest(
    sessionId: string,
    email: Option<string>,
    password: Option<string>,
    ip: Option<string>,
    userAgent: Option<string>)

  /** The account after a successful login: counter and lock cleared, one successful entry appended. */
  function LoggedIn(u: User, req: LoginRequest, now: nat): (r: User)
    ensures r.failedLoginAttempts == 0 && r.accountLockedUntil.None? && r.lastLogin == Some(now)
    ensures r.loginHistory == AppendHistory(u.loginHistory, LoginEntry(req.ip, req.userAgent, now, true))
    ensures r.(failedLoginAttempts := u.failedLoginAttempts, accountLockedUntil := u.accountLockedUntil,
               lastLogin := u.lastLogin, loginHistory := u.loginHistory) == u
  {
    AddLoginHistory(ResetFailedLogins(u, now), req.ip, req.userAgent, true, now)
  }

  /**
   * `UserLogin`: both fields must be present; the local strategy decides;
   * on success the session is bound to the user, the lockout is reset, the
   * login is recorded in the history and in the session registry, and the
   * sanitized user is returned.
   */
  function UserLogin(db: Db, req: LoginRequest, h: Hasher, now: nat, lookupOk: bool): (o: Outcome<PublicUser>)
    ensures !Truthy(req.email) || !Truthy(req.password) ==> o == Outcome(Fail(MissingFields), db)
    ensures o.reply.Ok? <==>
              Truthy(req.email) && Truthy(req.password) &&
              LocalVerify(db.users, req.email.value, req.password.value, h, now).verdict.Accept?
    ensures o.reply.Fail? ==> o.db.sessions == db.sessions && o.db.registry == db.registry
    ensures o.reply.Fail? && o.reply.code != IncorrectPassword ==> o.db == db
    ensures Truthy(req.email) && Truthy(req.password) && o.reply.Fail? ==>
              var d := LocalVerify(db.users, req.email.value, req.password.value, h, now);
              o == Outcome(Fail(d.verdict.code), db.(users := d.users))
    ensures o.reply.Ok? ==>
              var i := FindByEmail(db.users, req.email.value).value;
              && o.db.users == Put(db.users, i, LoggedIn(db.users[i], req, now))
              && o.reply.value == Sanitize(LoggedIn(db.users[i], req, now))
              && o.db.sessions == BindSession(db.sessions, req.sessionId, db.users[i].id)
              && o.db.registry == CreateUserSession(db.registry, db.users[i].id, req.sessionId, lookupOk)
  {
    if !Truthy(req.email) || !Truthy(req.password) then Outcome(Fail(MissingFields), db)
    else
      var d := LocalVerify(db.users, req.email.value, req.password.value, h, now);
      match d.verdict
      case Reject(c) => Outcome(Fail(c), db.(users := d.users))
      case Accept(i) =>
        var u := LoggedIn(db.users[i], req, now);
        Outcome(Ok(Sanitize(u)),
                Db(Put(db.users, i, u),
                   BindSession(db.sessions, req.sessionId, db.users[i].id),
                   CreateUserSession(db.registry, db.users[i].id, req.sessionId, lookupOk)))
  }

  /**
   * The credential denials of a login: an unknown address and a wrong
   * password get the same message; the unknown address writes nothing, the
   * wrong password counts exactly one failure against the account.
   */
  lemma LoginCredentialDenials(db: Db, req: LoginRequest, h: Hasher, now: nat, lookupOk: bool)
    requires Truthy(req.email) && Truthy(req.password)
    ensures var o := UserLogin(db, req, h, now, lookupOk);
      FindByEmail(db.users, req.email.value).None? ==> o == Outcome(Fail(NonExistentEmail), db)
    ensures var o := UserLogin(db, req, h, now, lookupOk);
      var f := FindByEmail(db.users, req.email.value);
      (f.Some? && !PasswordUnsetAccount(db.users[f.value]) &&
       ComparePassword(db.users[f.value], req.password.value, h) == Some(false)) ==>
        && o.reply == Fail(IncorrectPassword)
        && o.db == db.(users := Put(db.users, f.value, IncrementFailedLogins(db.users[f.value], now)))
    ensures Message(NonExistentEmail) == Message(IncorrectPassword)
  {
    CredentialDenialsLookAlike();
  }

  /** After a successful login the request's session resolves to the logged-in account. */
  lemma LoginEstablishesSession(db: Db, req: LoginRequest, h: Hasher, now: nat, lookupOk: bool)
    requires ValidUsers(db.users)
    requires UserLogin(db, req, h, now, lookupOk).reply.Ok?
    ensures var o := UserLogin(db, req, h, now, lookupOk);
      && SessionUser(o.db, req.sessionId).Some?
      && SessionUser(o.db, req.sessionId).value.email == req.email.value
      && Sanitize(SessionUser(o.db, req.sessionId).value) == o.reply.value
  {
    var i := FindByEmail(db.users, req.email.value).value;
    var u := LoggedIn(db.users[i], req, now);
    LockoutKeepsValid(db.users[i], now, req.ip, req.userAgent, true);
    LockoutKeepsValid(ResetFailedLogins(db.users[i], now), now, req.ip, req.userAgent, true);
    PutKeepsValid(db.users, i, u);
    SessionResolves(UserLogin(db, req, h, now, lookupOk).db, req.sessionId, i);
  }

  /** The login keeps the collection valid. */
  lemma LoginKeepsValid(db: Db, req: LoginRequest, h: Hasher, now: nat, lookupOk: bool)
    requires ValidUsers(db.users)
    ensures ValidUsers(UserLogin(db, req, h, now, lookupOk).db.users)
  {
    if Truthy(req.email) && Truthy(req.password) {
      var d := LocalVerify(db.users, req.email.value, req.password.value, h, now);
      match d.verdict
      case Reject(_) =>
        LocalKeepsValid(db.users, req.email.value, req.password.value, h, now);
      case Accept(i) =>
        var u := db.users[i];
        LockoutKeepsValid(u, now, req.ip, req.userAgent, true);
        LockoutKeepsValid(ResetFailedLogins(u, now), now, req.ip, req.userAgent, true);
        PutKeepsValid(db.users, i, LoggedIn(u, req, now));
    }
  }

  datatype SignupForm = SignupForm(
    firstName: Option<string>,
    lastName: Option<string>,
    email: Option<string>,
    password: Option<string>)

  /**
   * Whether an account already uses this email, ignoring case. The source asks
   * `{ email: { $regex: "^" + email + "$", flags: "i" } }` with the email
   * unescaped, so a `.` in it matches any character there; this model keeps
   * the intended case-insensitive equality.
   */
  predicate EmailTaken(users: seq<User>, email: string) {
    exists i :: 0 <= i < |users| && EqualsIgnoreCase(users[i].email, email)
  }

  /** `${firstName.trim() + " " + lastName.trim()}`. */
  function DisplayName(first: string, last: string): string {
    Trim(first) + " " + Trim(last)
  }

  /** The verification token pair of a new account: none outside production, a one-hour token in it. */
  function SignupToken(isProd: bool, token: string, now: nat): (r: (Option<string>, Option<int>))
    ensures isProd <==> r.0.Some?
    ensures r.0.Some? <==> r.1.Some?
    ensures isProd ==> r == (Some(token), Some(now + TokenLifetime))
  {
    if isProd then (Some(token), Some(now + TokenLifetime)) else (None, None)
  }

  /** The generated avatar image for a display name. */
  function AvatarUrl(name: string): string {
    "https://ui-avatars.com/api/?name=" + name + "&background=random"
  }

  /** The account a valid signup form creates. */
  function SignupAccount(f: SignupForm, isProd: bool, newId: UserId, token: string, h: Hasher, now: nat): (r: User)
    requires f.firstName.Some? && f.lastName.Some? && f.email.Some? && Truthy(f.password)
    ensures r.id == newId && r.email == f.email.value && r.googleId.None?
    ensures r.password == Some(h.hash(f.password.value))
    ensures r.isEmailVerified == !isProd && ValidUser(r)
    ensures r.status == Constants.ACTIVE && r.failedLoginAttempts == 0
  {
    var name := DisplayName(f.firstName.value, f.lastName.value);
    var (token', expiry) := SignupToken(isProd, token, now);
    assert token'.Some? <==> expiry.Some?;
    Create(newId, None, name, f.firstName, f.lastName, f.email.value, Some(AvatarUrl(name)),
           f.password, !isProd, token', expiry, h, now)
  }

  /** All four fields are present and non-empty. */
  predicate FormComplete(f: SignupForm) {
    Truthy(f.firstName) && Truthy(f.lastName) && Truthy(f.email) && Truthy(f.password)
  }

  /** Every guard of the signup passes. */
  predicate SignupAccepted(users: seq<User>, f: SignupForm) {
    && FormComplete(f)
    && ValidEmail(f.email.value)
    && !EmailTaken(users, f.email.value)
    && Utf16Length(f.password.value) >= 6
  }

  /**
   * `UserSignup`: rejects, in order, a missing field, an address failing the
   * pattern and an address already in use; the schema then refuses a
   * plaintext password shorter than six UTF-16 code units (validation runs before
   * the hashing hook), which surfaces as a caught error.
   */
  function UserSignup(db: Db, f: SignupForm, isProd: bool, newId: UserId, token: string, h: Hasher, now: nat): (o: Outcome<User>)
    ensures o.reply.Ok? <==> SignupAccepted(db.users, f)
    ensures o.reply.Fail? ==> o.db == db
    ensures !FormComplete(f) ==> o.reply == Fail(MissingFields)
    ensures FormComplete(f) && !ValidEmail(f.email.value) ==> o.reply == Fail(InvalidEmail)
    ensures FormComplete(f) && ValidEmail(f.email.value) && EmailTaken(db.users, f.email.value) ==> o.reply == Fail(EmailExists)
    ensures o.reply.Ok? ==> o.db == db.(users := db.users + [o.reply.value])
    ensures o.reply.Ok? ==> o.reply.value == SignupAccount(f, isProd, newId, token, h, now)
  {
    if !FormComplete(f) then
      Outcome(Fail(MissingFields), db)
    else if !ValidEmail(f.email.value) then Outcome(Fail(InvalidEmail), db)
    else if FindFirst(db.users, (u: User) => EqualsIgnoreCase(u.email, f.email.value)).Some? then
      Outcome(Fail(EmailExists), db)
    else if Utf16Length(f.password.value) < 6 then Outcome(Fail(Unexpected), db)
    else
      var u := SignupAccount(f, isProd, newId, token, h, now);
      Outcome(Ok(u), db.(users := db.users + [u]))
  }

  /**
   * A new account is verified outside production; in production it carries a
   * one-hour verification token. Either way the token and its expiry are set
   * together.
   */
  lemma SignupVerification(db: Db, f: SignupForm, isProd: bool, newId: UserId, token: string, h: Hasher, now: nat)
    requires SignupAccepted(db.users, f)
    ensures var u := UserSignup(db, f, isProd, newId, token, h, now).reply.value;
      && (u.isEmailVerified <==> !isProd)
      && (u.emailVerificationToken.None? <==> u.emailVerificationTokenExpiry.None?)
      && (isProd ==> u.emailVerificationToken == Some(token) && u.emailVerificationTokenExpiry == Some(now + 3600000))
  {
  }

  /** Signup keeps the collection valid: the new email is not in use under any case. */
  lemma SignupKeepsValid(db: Db, f: SignupForm, isProd: bool, newId: UserId, token: string, h: Hasher, now: nat)
    requires ValidUsers(db.users)
    requires forall i :: 0 <= i < |db.users| ==> db.users[i].id != newId
    ensures ValidUsers(UserSignup(db, f, isProd, newId, token, h, now).db.users)
  {
    if SignupAccepted(db.users, f) {
      var u := SignupAccount(f, isProd, newId, token, h, now);
      forall i | 0 <= i < |db.users|
        ensures db.users[i].email != u.email
      {
        assert !EqualsIgnoreCase(db.users[i].email, f.email.value);
      }
      InsertKeepsValid(db.users, u);
    }
  }

  /** A signed-up user can log in at once with the password they chose. */
  lemma SignupThenLogin(db: Db, f: SignupForm, isProd: bool, newId: UserId, token: string, h: Hasher, now: nat,
                        sid: string, lookupOk: bool)
    requires ValidUsers(db.users)
    requires forall i :: 0 <= i < |db.users| ==> db.users[i].id != newId
    requires SignupAccepted(db.users, f)
    ensures var db' := UserSignup(db, f, isProd, newId, token, h, now).db;
      UserLogin(db', LoginRequest(sid, f.email, f.password, None, None), h, now, lookupOk).reply.Ok?
  {
    var db' := UserSignup(db, f, isProd, newId, token, h, now).db;
    SignupKeepsValid(db, f, isProd, newId, token, h, now);
    EmailFindsTheOwner(db'.users, |db.users|);
  }

  /**
   * `UserLogout`: refuses an unauthenticated request; otherwise deletes the
   * first registry entry of this user and session and destroys the session.
   */
  function UserLogout(db: Db, sid: string): (o: Outcome<string>)
    ensures SessionUser(db, sid).None? <==> o.reply == Fail(NotAuthenticated)
    ensures o.reply.Fail? ==> o.db == db
    ensures o.reply.Ok? ==> o.reply.value == "Logged out successfully"
    ensures o.db.users == db.users
    ensures forall t :: t in o.db.sessions <==> t in db.sessions && (o.reply.Fail? || t.id != sid)
    ensures o.reply.Fail? || SessionRecord(SessionUser(db, sid).value.id, sid) !in db.registry ==>
              o.db.registry == db.registry
    ensures o.reply.Ok? && SessionRecord(SessionUser(db, sid).value.id, sid) in db.registry ==>
              multiset(o.db.registry) == multiset(db.registry) - multiset{SessionRecord(SessionUser(db, sid).value.id, sid)}
    ensures forall e :: e in o.db.registry ==> e in db.registry
  {
    match SessionUser(db, sid)
    case None => Outcome(Fail(NotAuthenticated), db)
    case Some(u) =>
      var registry :=
        match FindFirst(db.registry, (e: SessionRecord) => e == SessionRecord(u.id, sid))
        case None => db.registry
        case Some(k) =>
          assert db.registry == db.registry[..k] + [db.registry[k]] + db.registry[k + 1..];
          db.registry[..k] + db.registry[k + 1..];
      Outcome(Ok("Logged out successfully"),
              Db(db.users, Keep(db.sessions, (t: TransportSession) => t.id != sid), registry))
  }

  /** After logout the session no longer resolves to a user. */
  lemma LogoutEndsSession(db: Db, sid: string)
    ensures SessionUser(UserLogout(db, sid).db, sid).None?
  {
    var d := UserLogout(db, sid).db;
    match FindFirst(d.sessions, (t: TransportSession) => t.id == sid)
    case None =>
    case Some(k) =>
      assert d.sessions[k] in d.sessions;
  }

  /** What `CheckLoginStatus` reports about the session's user. */
  datatype StatusView = StatusView(
    id: UserId,
    displayName: string,
    email: string,
    image: Option<string>,
    isEmailVerified: bool,
    emailVerificationTokenExpiry: Option<int>,
    isPasswordSet: bool,
    isGoogleAccount: bool,
    isFacebookAccount: bool,
    status: int)

  datatype LoginStatus = LoginStatus(success: bool, user: Option<StatusView>, auth: bool)

  /**
   * `CheckLoginStatus`: a projection of the session's user. A Google link
   * counts as a verified email, and only a non-empty password counts as set.
   */
  function CheckLoginStatus(user: Option<User>): (r: LoginStatus)
    ensures r.auth <==> user.Some?
    ensures r.success == r.auth && (r.user.Some? <==> r.auth)
    ensures r.user.Some? ==> r.user.value.id == user.value.id && r.user.value.email == user.value.email
    ensures r.user.Some? ==> (r.user.value.isPasswordSet <==> Truthy(user.value.password))
    ensures r.user.Some? ==> (r.user.value.isEmailVerified <==> Truthy(user.value.googleId) || user.value.isEmailVerified)
  {
    match user
    case None => LoginStatus(false, None, false)
    case Some(u) =>
      LoginStatus(true, Some(StatusView(u.id, u.displayName, u.email, u.image,
                                        Truthy(u.googleId) || u.isEmailVerified,
                                        u.emailVerificationTokenExpiry, Truthy(u.password),
                                        u.googleId.Some?, u.facebookId.Some?, u.status)), true)
  }

  /** An account created through Google reports a verified email and no password. */
  lemma GoogleAccountStatus(p: GoogleProfile, newId: UserId, h: Hasher, now: nat)
    requires GoogleAccount(p, newId, h, now).Some?
    ensures var s := CheckLoginStatus(GoogleAccount(p, newId, h, now)).user.value;
      s.isEmailVerified && !s.isPasswordSet && s.isGoogleAccount
  {
  }

  /** The reply to a reset request, given whether or not the account exists. */
  const ResetLinkSent := "If this email exists, a reset link has been sent."

  /** An account that may receive a reset token: not locked, ACTIVE, with a password. */
  predicate ResetAllowed(u: User, now: nat) {
    !IsAccountLocked(u, now) && u.status == Constants.ACTIVE && Truthy(u.password)
  }

  /** The account holding a fresh one-hour reset token. */
  function WithResetToken(u: User, token: string, now: nat): (r: User)
    ensures Pending(r.resetPasswordToken, r.resetPasswordTokenExpiry, token, now)
    ensures r.(resetPasswordToken := u.resetPasswordToken, resetPasswordTokenExpiry := u.resetPasswordTokenExpiry) == u
  {
    u.(resetPasswordToken := Some(token), resetPasswordTokenExpiry := Some(now + TokenLifetime))
  }

  /**
   * `ForgotPassword`: an unknown address gets the same answer as a
   * successful request; a locked, non-ACTIVE or password-less account gets
   * no token; otherwise a one-hour reset token is stored.
   */
  function ForgotPassword(db: Db, userEmail: Option<string>, token: string, now: nat): (o: Outcome<string>)
    ensures !Truthy(userEmail) ==> o == Outcome(Fail(EmailRequired), db)
    ensures o.reply.Ok? ==> o.reply.value == ResetLinkSent
    ensures o.db != db ==> o.reply.Ok?
    ensures Truthy(userEmail) && FindByEmail(db.users, userEmail.value).None? ==> o == Outcome(Ok(ResetLinkSent), db)
    ensures Truthy(userEmail) && FindByEmail(db.users, userEmail.value).Some? ==>
              var i := FindByEmail(db.users, userEmail.value).value;
              var u := db.users[i];
              && (IsAccountLocked(u, now) ==> o == Outcome(Fail(AccountLocked(u.accountLockedUntil.value)), db))
              && (!IsAccountLocked(u, now) && u.status != Constants.ACTIVE ==> o == Outcome(Fail(StatusDenial(u.status)), db))
              && (o.reply.Ok? <==> ResetAllowed(u, now))
              && (ResetAllowed(u, now) ==> o.db == db.(users := Put(db.users, i, WithResetToken(u, token, now))))
  {
    if !Truthy(userEmail) then Outcome(Fail(EmailRequired), db)
    else
      match FindByEmail(db.users, userEmail.value)
      case None => Outcome(Ok(ResetLinkSent), db)
      case Some(i) =>
        var u := db.users[i];
        if IsAccountLocked(u, now) then Outcome(Fail(AccountLocked(u.accountLockedUntil.value)), db)
        else if u.status != Constants.ACTIVE then Outcome(Fail(StatusDenial(u.status)), db)
        else if !Truthy(u.password) then Outcome(Fail(PasswordNotSet), db)
        else Outcome(Ok(ResetLinkSent), db.(users := Put(db.users, i, WithResetToken(u, token, now))))
  }

  /** The answer does not reveal whether an address has an account. */
  lemma ForgotHidesExistence(db: Db, unknown: string, known: string, token: string, now: nat)
    requires unknown != "" && FindByEmail(db.users, unknown).None?
    requires known != ""
    requires FindByEmail(db.users, known).Some? && ResetAllowed(db.users[FindByEmail(db.users, known).value], now)
    ensures ForgotPassword(db, Some(unknown), token, now).reply == ForgotPassword(db, Some(known), token, now).reply
  {
  }

  /** `logoutOtherSessions === true`: revoke every other session of the user first. */
  function RevokeOthers(db: Db, userId: UserId, sid: string, logoutOthers: bool, fault: Fault): (r: Db)
    ensures r.users == db.users
    ensures !logoutOthers ==> r == db
    ensures logoutOthers ==>
              var v := DeleteUserSessions(db.sessions, db.registry, userId, Some(sid), fault);
              r.sessions == v.sessions && r.registry == v.registry
  {
    if logoutOthers then
      var v := DeleteUserSessions(db.sessions, db.registry, userId, Some(sid), fault);
      db.(sessions := v.sessions, registry := v.registry)
    else db
  }

  datatype ResetRequest = ResetRequest(token: string, newPassword: Option<string>, logoutOtherSessions: bool)

  /** At least six UTF-16 code units, as `length` counts them. */
  predicate LongEnough(p: Option<string>) {
    p.Some? && Utf16Length(p.value) >= 6
  }

  /** The account after a redeemed reset: the new password through the save hook, the token pair cleared. */
  function Redeemed(u: User, p: string, h: Hasher, now: nat): (r: User)
    ensures r.resetPasswordToken.None? && r.resetPasswordTokenExpiry.None?
    ensures r.password == AssignPassword(u, Some(p), h, now).password
  {
    AssignPassword(u.(resetPasswordToken := None, resetPasswordTokenExpiry := None), Some(p), h, now)
  }

  /** Every guard of the reset passes for the account at `i`. */
  predicate ResetAccepted(u: User, p: Option<string>, h: Hasher, now: nat) {
    && !IsAccountLocked(u, now)
    && u.status == Constants.ACTIVE
    && LongEnough(p)
    && ComparePassword(u, p.value, h) == Some(false)
  }

  /**
   * `ResetPassword`: the token must be held and unexpired; then, in order,
   * the lock, the status, the length and the difference from the current
   * password are checked. Comparing against an account without a password
   * throws. On success the other sessions are revoked if asked, the password
   * is replaced and the token is spent.
   */
  function ResetPassword(db: Db, req: ResetRequest, sid: string, fault: Fault, h: Hasher, now: nat): (o: Outcome<string>)
    ensures FindByResetToken(db.users, req.token, now).None? ==> o == Outcome(Fail(InvalidOrExpiredToken), db)
    ensures var f := FindByResetToken(db.users, req.token, now);
      o.reply.Ok? <==> f.Some? && ResetAccepted(db.users[f.value], req.newPassword, h, now)
    ensures var f := FindByResetToken(db.users, req.token, now);
      f.Some? && IsAccountLocked(db.users[f.value], now) ==>
        o.reply == Fail(AccountLocked(db.users[f.value].accountLockedUntil.value))
    ensures var f := FindByResetToken(db.users, req.token, now);
      f.Some? && !IsAccountLocked(db.users[f.value], now) && db.users[f.value].status != Constants.ACTIVE ==>
        o.reply == Fail(StatusDenial(db.users[f.value].status))
    ensures var f := FindByResetToken(db.users, req.token, now);
      (f.Some? && !IsAccountLocked(db.users[f.value], now) && db.users[f.value].status == Constants.ACTIVE &&
       !LongEnough(req.newPassword)) ==> o.reply == Fail(PasswordTooShort)
    ensures var f := FindByResetToken(db.users, req.token, now);
      (f.Some? && !IsAccountLocked(db.users[f.value], now) && db.users[f.value].status == Constants.ACTIVE &&
       LongEnough(req.newPassword) && ComparePassword(db.users[f.value], req.newPassword.value, h) == Some(true)) ==>
        o.reply == Fail(PasswordSame)
    ensures var f := FindByResetToken(db.users, req.token, now);
      (f.Some? && !IsAccountLocked(db.users[f.value], now) && db.users[f.value].status == Constants.ACTIVE &&
       LongEnough(req.newPassword) && ComparePassword(db.users[f.value], req.newPassword.value, h).None?) ==>
        o.reply == Fail(Unexpected)
    ensures o.reply.Fail? ==> o.db == db
    ensures o.reply.Ok? ==>
              var i := FindByResetToken(db.users, req.token, now).value;
              var u := db.users[i];
              o.db == RevokeOthers(db, u.id, sid, req.logoutOtherSessions, fault)
                        .(users := Put(db.users, i, Redeemed(u, req.newPassword.value, h, now)))
  {
    match FindByResetToken(db.users, req.token, now)
    case None => Outcome(Fail(InvalidOrExpiredToken), db)
    case Some(i) =>
      var u := db.users[i];
      if IsAccountLocked(u, now) then Outcome(Fail(AccountLocked(u.accountLockedUntil.value)), db)
      else if u.status != Constants.ACTIVE then Outcome(Fail(StatusDenial(u.status)), db)
      else if !LongEnough(req.newPassword) then Outcome(Fail(PasswordTooShort), db)
      else
        match ComparePassword(u, req.newPassword.value, h)
        case None => Outcome(Fail(Unexpected), db)
        case Some(true) => Outcome(Fail(PasswordSame), db)
        case Some(false) =>
          var revoked := RevokeOthers(db, u.id, sid, req.logoutOtherSessions, fault);
          Outcome(Ok("Password updated successfully"),
                  revoked.(users := Put(db.users, i, Redeemed(u, req.newPassword.value, h, now))))
  }

  /** A redeemed token held by nobody else cannot be redeemed again, at any time. */
  lemma ResetTokenSingleUse(db: Db, req: ResetRequest, sid: string, fault: Fault, h: Hasher, now: nat,
                            again: ResetRequest, sid': string, fault': Fault, later: nat)
    requires ResetPassword(db, req, sid, fault, h, now).reply.Ok?
    requires forall j :: 0 <= j < |db.users| && j != FindByResetToken(db.users, req.token, now).value ==>
               db.users[j].resetPasswordToken != Some(req.token)
    requires again.token == req.token
    ensures ResetPassword(ResetPassword(db, req, sid, fault, h, now).db, again, sid', fault', h, later).reply
            == Fail(InvalidOrExpiredToken)
  {
    var users' := ResetPassword(db, req, sid, fault, h, now).db.users;
    assert forall j :: 0 <= j < |users'| ==> users'[j].resetPasswordToken != Some(req.token);
  }

  /**
   * The recovery round trip: a reset link issued now and redeemed within the
   * hour with a new password of six or more UTF-16 code units replaces the password,
   * and the new password then matches.
   */
  lemma ForgotThenReset(db: Db, email: string, token: string, now: nat, p: string, sid: string, fault: Fault,
                        h: Hasher, later: nat)
    requires FindByEmail(db.users, email).Some?
    requires var i := FindByEmail(db.users, email).value;
      && ResetAllowed(db.users[i], now)
      && (forall j :: 0 <= j < i ==> db.users[j].resetPasswordToken != Some(token))
      && ComparePassword(db.users[i], p, h) == Some(false)
      && Some(p) != db.users[i].password
    requires email != "" && Utf16Length(p) >= 6 && now <= later < now + TokenLifetime
    ensures var db1 := ForgotPassword(db, Some(email), token, now).db;
      var o := ResetPassword(db1, ResetRequest(token, Some(p), false), sid, fault, h, later);
      && o.reply.Ok?
      && ComparePassword(o.db.users[FindByEmail(db.users, email).value], p, h) == Some(true)
  {
    var i := FindByEmail(db.users, email).value;
    var db1 := ForgotPassword(db, Some(email), token, now).db;
    var f := FindByResetToken(db1.users, token, later);
    assert Pending(db1.users[i].resetPasswordToken, db1.users[i].resetPasswordTokenExpiry, token, later);
    assert f == Some(i);
    assert ComparePassword(db1.users[i], p, h) == Some(false);
  }

  /** The redirects of `VerifyEmail`. */
  const VerifiedRedirect := "/groups"
  const ExpiredRedirect := "/groups?tokenExpired=true"

  datatype Verification = Verification(redirect: string, db: Db)

  /** The account with its email verified and the verification token spent. */
  function Verified(u: User): (r: User)
    ensures r.isEmailVerified && r.emailVerificationToken.None? && r.emailVerificationTokenExpiry.None?
    ensures r.(isEmailVerified := u.isEmailVerified, emailVerificationToken := u.emailVerificationToken,
               emailVerificationTokenExpiry := u.emailVerificationTokenExpiry) == u
  {
    u.(isEmailVerified := true, emailVerificationToken := None, emailVerificationTokenExpiry := None)
  }

  /** `VerifyEmail`: a held, unexpired token verifies its account; otherwise nothing changes. */
  function VerifyEmail(db: Db, token: string, now: nat): (v: Verification)
    ensures v.redirect == ExpiredRedirect <==> FindByVerificationToken(db.users, token, now).None?
    ensures v.redirect == ExpiredRedirect || v.redirect == VerifiedRedirect
    ensures v.redirect == ExpiredRedirect ==> v.db == db
    ensures v.redirect == VerifiedRedirect ==>
              var i := FindByVerificationToken(db.users, token, now).value;
              v.db == db.(users := Put(db.users, i, Verified(db.users[i])))
  {
    match FindByVerificationToken(db.users, token, now)
    case None => Verification(ExpiredRedirect, db)
    case Some(i) => Verification(VerifiedRedirect, db.(users := Put(db.users, i, Verified(db.users[i]))))
  }

  /** `ResendVerificationLink`: a fresh one-hour verification token for the session user's unverified account. */
  function ResendVerificationLink(db: Db, me: User, token: string, now: nat): (o: Outcome<string>)
    ensures FindByEmail(db.users, me.email).None? ==> o == Outcome(Fail(UserNotFound), db)
    ensures o.reply.Fail? ==> o.db == db
    ensures var f := FindByEmail(db.users, me.email);
      o.reply.Ok? <==> f.Some? && !db.users[f.value].isEmailVerified
    ensures o.reply.Ok? ==>
              var i := FindByEmail(db.users, me.email).value;
              o.db == db.(users := Put(db.users, i, db.users[i].(emailVerificationToken := Some(token),
                                                                 emailVerificationTokenExpiry := Some(now + TokenLifetime))))
  {
    match FindByEmail(db.users, me.email)
    case None => Outcome(Fail(UserNotFound), db)
    case Some(i) =>
      var u := db.users[i];
      if u.isEmailVerified then Outcome(Fail(AlreadyVerified), db)
      else
        var u' := u.(emailVerificationToken := Some(token), emailVerificationTokenExpiry := Some(now + TokenLifetime));
        Outcome(Ok("A verification link has been sent"), db.(users := Put(db.users, i, u')))
  }

  /**
   * The verification round trip: a link resent now and followed within the
   * hour verifies the account, and following it a second time fails.
   */
  lemma ResendThenVerify(db: Db, me: User, token: string, now: nat, later: nat)
    requires ResendVerificationLink(db, me, token, now).reply.Ok?
    requires forall j :: 0 <= j < |db.users| ==> db.users[j].emailVerificationToken != Some(token)
    requires now <= later < now + TokenLifetime
    ensures var db1 := ResendVerificationLink(db, me, token, now).db;
      var v := VerifyEmail(db1, token, later);
      && v.redirect == VerifiedRedirect
      && v.db.users[FindByEmail(db.users, me.email).value].isEmailVerified
      && VerifyEmail(v.db, token, later).redirect == ExpiredRedirect
  {
    var i := FindByEmail(db.users, me.email).value;
    var db1 := ResendVerificationLink(db, me, token, now).db;
    var f := FindByVerificationToken(db1.users, token, later);
    assert Pending(db1.users[i].emailVerificationToken, db1.users[i].emailVerificationTokenExpiry, token, later);
    assert f == Some(i);
    var users2 := VerifyEmail(db1, token, later).db.users;
    assert forall j :: 0 <= j < |users2| ==> users2[j].emailVerificationToken != Some(token);
  }

  /** Every guard of `SetPassword` passes. */
  predicate SetAccepted(db: Db, me: User, p: Option<string>) {
    && !Blank(p)
    && Utf16Length(p.value) >= 6
    && !Truthy(me.password)
    && Truthy(me.googleId)
    && FindById(db.users, me.id).Some?
  }

  /**
   * `SetPassword`: a Google account without a password may set a non-blank one
   * of six or more UTF-16 code units. The guards read the session's copy of the
   * user; the write goes to the document found by its `_id`.
   */
  function SetPassword(db: Db, me: User, p: Option<string>, h: Hasher, now: nat): (o: Outcome<string>)
    ensures o.reply.Ok? <==> SetAccepted(db, me, p)
    ensures o.reply.Fail? ==> o.db == db
    ensures Blank(p) ==> o.reply == Fail(PasswordRequired)
    ensures !Blank(p) && Utf16Length(p.value) < 6 ==> o.reply == Fail(PasswordTooShort)
    ensures o.reply.Ok? ==>
              var i := FindById(db.users, me.id).value;
              o.db == db.(users := Put(db.users, i, AssignPassword(db.users[i], p, h, now)))
    ensures o.db != db ==> LongEnough(p)
  {
    if Blank(p) then Outcome(Fail(PasswordRequired), db)
    else if Utf16Length(p.value) < 6 then Outcome(Fail(PasswordTooShort), db)
    else if Truthy(me.password) then Outcome(Fail(PasswordAlreadySet), db)
    else if !Truthy(me.googleId) then Outcome(Fail(GoogleOnly), db)
    else
      match FindById(db.users, me.id)
      case None => Outcome(Fail(UserNotFound), db)
      case Some(i) => Outcome(Ok("Password set successfully"), db.(users := Put(db.users, i, AssignPassword(db.users[i], p, h, now))))
  }

  datatype ChangeRequest = ChangeRequest(oldPassword: Option<string>, newPassword: Option<string>, logoutOtherSessions: bool)

  /** Every guard of `ChangePassword` passes for the stored account `u`. */
  predicate ChangeAccepted(u: User, req: ChangeRequest, h: Hasher) {
    && !Blank(req.oldPassword)
    && ComparePassword(u, req.oldPassword.value, h) == Some(true)
    && !Blank(req.newPassword)
    && Utf16Length(req.newPassword.value) >= 6
    && Truthy(u.password)
    && ComparePassword(u, req.newPassword.value, h) == Some(false)
  }

  /**
   * The first `ChangePassword` guard that fails on the stored account `u`, in
   * the handler's order; a comparison against a missing password throws.
   */
  function ChangeGuard(u: User, req: ChangeRequest, h: Hasher): (r: Option<Code>)
    ensures r.None? ==> ChangeAccepted(u, req, h)
    ensures ChangeAccepted(u, req, h) ==> r.None?
    ensures Blank(req.oldPassword) ==> r == Some(OldPasswordRequired)
    ensures !Blank(req.oldPassword) && ComparePassword(u, req.oldPassword.value, h) == Some(false) ==> r == Some(WrongOldPassword)
  {
    if Blank(req.oldPassword) then Some(OldPasswordRequired)
    else
      match ComparePassword(u, req.oldPassword.value, h)
      case None => Some(Unexpected)
      case Some(false) => Some(WrongOldPassword)
      case Some(true) =>
        if Blank(req.newPassword) then Some(PasswordRequired)
        else if Utf16Length(req.newPassword.value) < 6 then Some(PasswordTooShort)
        else if !Truthy(u.password) then Some(PasswordNotSet)
        else
          match ComparePassword(u, req.newPassword.value, h)
          case None => Some(Unexpected)
          case Some(true) => Some(PasswordSame)
          case Some(false) => None
  }

  /**
   * `ChangePassword`: the old password must match and the new one must be
   * non-blank, of six or more UTF-16 code units, and differ from the current one. On
   * success the other sessions are revoked if asked and the password replaced.
   */
  function ChangePassword(db: Db, me: User, req: ChangeRequest, sid: string, fault: Fault, h: Hasher, now: nat): (o: Outcome<string>)
    ensures FindById(db.users, me.id).None? ==> o == Outcome(Fail(UserNotFound), db)
    ensures var f := FindById(db.users, me.id);
      o.reply.Ok? <==> f.Some? && ChangeAccepted(db.users[f.value], req, h)
    ensures o.reply.Fail? ==> o.db == db
    ensures o.reply.Ok? ==>
              var i := FindById(db.users, me.id).value;
              o.db == RevokeOthers(db, me.id, sid, req.logoutOtherSessions, fault)
                        .(users := Put(db.users, i, AssignPassword(db.users[i], req.newPassword, h, now)))
    ensures o.db.users != db.users ==> LongEnough(req.newPassword)
  {
    match FindById(db.users, me.id)
    case None => Outcome(Fail(UserNotFound), db)
    case Some(i) =>
      match ChangeGuard(db.users[i], req, h)
      case Some(c) => Outcome(Fail(c), db)
      case None =>
        Outcome(Ok("Password changed successfully"),
                RevokeOthers(db, me.id, sid, req.logoutOtherSessions, fault)
                  .(users := Put(db.users, i, AssignPassword(db.users[i], req.newPassword, h, now))))
  }

  /** After a change the new password matches and the old one no longer does. */
  lemma ChangeReplacesPassword(db: Db, me: User, req: ChangeRequest, sid: string, fault: Fault, h: Hasher, now: nat)
    requires ChangePassword(db, me, req, sid, fault, h, now).reply.Ok?
    requires req.newPassword != db.users[FindById(db.users, me.id).value].password
    ensures var i := FindById(db.users, me.id).value;
      var u' := ChangePassword(db, me, req, sid, fault, h, now).db.users[i];
      && ComparePassword(u', req.newPassword.value, h) == Some(true)
      && ComparePassword(u', req.oldPassword.value, h) == Some(false)
  {
    var i := FindById(db.users, me.id).value;
    var u := db.users[i];
    var u' := ChangePassword(db, me, req, sid, fault, h, now).db.users[i];
    assert ChangeAccepted(u, req, h);
    assert u' == AssignPassword(u, req.newPassword, h, now);
    assert u'.password == Some(h.hash(req.newPassword.value));
    assert h.hash(req.oldPassword.value) == u.password.value != h.hash(req.newPassword.value);
  }

  /** Issuing a reset token keeps the collection valid: the token is written with its expiry. */
  lemma ForgotKeepsValid(db: Db, email: Option<string>, token: string, now: nat)
    requires ValidUsers(db.users)
    ensures ValidUsers(ForgotPassword(db, email, token, now).db.users)
  {
    if Truthy(email) && FindByEmail(db.users, email.value).Some? {
      var i := FindByEmail(db.users, email.value).value;
      PutKeepsValid(db.users, i, WithResetToken(db.users[i], token, now));
    }
  }

  /** Redeeming a reset token keeps the collection valid: the token is cleared with its expiry. */
  lemma ResetKeepsValid(db: Db, req: ResetRequest, sid: string, fault: Fault, h: Hasher, now: nat)
    requires ValidUsers(db.users)
    ensures ValidUsers(ResetPassword(db, req, sid, fault, h, now).db.users)
  {
    match FindByResetToken(db.users, req.token, now)
    case None =>
    case Some(i) =>
      if req.newPassword.Some? {
        PutKeepsValid(db.users, i, Redeemed(db.users[i], req.newPassword.value, h, now));
      }
  }

  /** Verifying and resending keep the collection valid: the verification pair moves together. */
  lemma VerificationKeepsValid(db: Db, me: User, token: string, now: nat)
    requires ValidUsers(db.users)
    ensures ValidUsers(VerifyEmail(db, token, now).db.users)
    ensures ValidUsers(ResendVerificationLink(db, me, token, now).db.users)
  {
    match FindByVerificationToken(db.users, token, now)
    case None =>
    case Some(i) => PutKeepsValid(db.users, i, Verified(db.users[i]));
    match FindByEmail(db.users, me.email)
    case None =>
    case Some(i) =>
      PutKeepsValid(db.users, i, db.users[i].(emailVerificationToken := Some(token),
                                               emailVerificationTokenExpiry := Some(now + TokenLifetime)));
  }

  /** Setting and changing a password keep the collection valid. */
  lemma PasswordFlowsKeepValid(db: Db, me: User, p: Option<string>, req: ChangeRequest, sid: string, fault: Fault,
                               h: Hasher, now: nat)
    requires ValidUsers(db.users)
    ensures ValidUsers(SetPassword(db, me, p, h, now).db.users)
    ensures ValidUsers(ChangePassword(db, me, req, sid, fault, h, now).db.users)
  {
    match FindById(db.users, me.id)
    case None =>
    case Some(i) =>
      PutKeepsValid(db.users, i, AssignPassword(db.users[i], p, h, now));
      PutKeepsValid(db.users, i, AssignPassword(db.users[i], req.newPassword, h, now));
  }
}
