/**
 * The User document: its schema defaults, the pre-save password hook, the
 * lockout policy (`isAccountLocked`, `incrementFailedLogins`,
 * `resetFailedLogins`) and the bounded login history.
 *
 * Time is the explicit `now` (milliseconds since the epoch, as `Date.now()` returns); the
 * password hash is the `Hasher` parameter standing for bcrypt.
 */
module UserModel {
  import opened Wrappers
  import opened JsText
  import opened MsConverter
  import Constants

  /** A user's `_id`, as the string `toString()` gives. */
  type UserId = string

  datatype LoginEntry = LoginEntry(ip: Option<string>, userAgent: Option<string>, timestamp: int, success: bool)

  datatype User = User(
    id: UserId,
    googleId: Option<string>,
    facebookId: Option<string>,
    displayName: string,
    firstName: Option<string>,
    lastName: Option<string>,
    email: string,
    image: Option<string>,
    /** The stored bcrypt digest; absent for accounts created through Google. */
    password: Option<string>,
    resetPasswordToken: Option<string>,
    resetPasswordTokenExpiry: Option<int>,
    isEmailVerified: bool,
    emailVerificationToken: Option<string>,
    emailVerificationTokenExpiry: Option<int>,
    status: int,
    failedLoginAttempts: nat,
    accountLockedUntil: Option<int>,
    lastLogin: Option<int>,
    lastPasswordChange: int,
    loginHistory: seq<LoginEntry>,
    emailNotificationsEnabled: bool)

  /**
   * bcrypt as seen by the model: `hash` stands for `bcrypt.hash(p, salt)`, and
   * `compare(p, d)` holds when `d` is a hash of `p`. Salts, cost and collisions
   * are not modelled.
   */
  datatype Hasher = Hasher(hash: string -> string)

  /** Failed attempts that lock the account. */
  const LockThreshold: nat := 5

  /** Validity of reset and verification tokens: one hour. */
  const TokenLifetime: int := 3600000

  /** Maximum length of the login history. */
  const HistoryCap: nat := 10

  /** `Utils.millisecondsIn(5, 'minute')!`. */
  function LockDuration(): (d: int)
    ensures d == 300000
  {
    FiveMinutes();
    MillisecondsIn(Num(5), Some("minute")).value
  }

  /** `!!x` for a number field that may be `null`: set and non-zero. */
  predicate Set(x: Option<int>) {
    x.Some? && x.value != 0
  }

  /** `isAccountLocked()`: a lock is set and lies strictly in the future. */
  predicate IsAccountLocked(u: User, now: nat) {
    Set(u.accountLockedUntil) && u.accountLockedUntil.value > now
  }

  /** The lock is set but strictly in the past: the next failure clears it. */
  predicate LockExpired(u: User, now: nat) {
    Set(u.accountLockedUntil) && u.accountLockedUntil.value < now
  }

  /** Two users that differ at most in their lockout fields. */
  predicate SameButLockout(a: User, b: User) {
    a.(failedLoginAttempts := b.failedLoginAttempts, accountLockedUntil := b.accountLockedUntil) == b
  }

  /** `incrementFailedLogins()`: the lockout policy's response to one failed password. */
  function IncrementFailedLogins(u: User, now: nat): (r: User)
    ensures SameButLockout(u, r)
    ensures LockExpired(u, now) ==> r.failedLoginAttempts == 0 && r.accountLockedUntil.None?
    ensures !LockExpired(u, now) ==> r.failedLoginAttempts == u.failedLoginAttempts + 1
    ensures !LockExpired(u, now) && IsAccountLocked(u, now) ==> r.accountLockedUntil == u.accountLockedUntil
    ensures !LockExpired(u, now) && !IsAccountLocked(u, now) && r.failedLoginAttempts >= LockThreshold
            ==> r.accountLockedUntil == Some(now + 300000)
    ensures !LockExpired(u, now) && r.failedLoginAttempts < LockThreshold ==> r.accountLockedUntil == u.accountLockedUntil
    ensures IsAccountLocked(r, now) <==>
              IsAccountLocked(u, now) || (!LockExpired(u, now) && u.failedLoginAttempts + 1 >= LockThreshold)
  {
    if Set(u.accountLockedUntil) && u.accountLockedUntil.value < now then
      u.(accountLockedUntil := None, failedLoginAttempts := 0)
    else
      var v := u.(failedLoginAttempts := u.failedLoginAttempts + 1);
      if v.failedLoginAttempts >= LockThreshold && !IsAccountLocked(v, now) then
        v.(accountLockedUntil := Some(now + LockDuration()))
      else v
  }

  /** `resetFailedLogins()`: a successful login clears the counter and the lock and stamps `lastLogin`. */
  function ResetFailedLogins(u: User, now: nat): (r: User)
    ensures r.failedLoginAttempts == 0 && r.accountLockedUntil.None? && r.lastLogin == Some(now)
    ensures forall t :: !IsAccountLocked(r, t)
    ensures r.(lastLogin := u.lastLogin, failedLoginAttempts := u.failedLoginAttempts, accountLockedUntil := u.accountLockedUntil) == u
  {
    u.(failedLoginAttempts := 0, accountLockedUntil := None, lastLogin := Some(now))
  }

  /** `loginHistory` after `addLoginHistory`: keep the newest nine once ten are held, then append. */
  function AppendHistory(h: seq<LoginEntry>, e: LoginEntry): (r: seq<LoginEntry>)
    ensures |r| == (if |h| < 9 then |h| else 9) + 1
    ensures |r| <= HistoryCap
    ensures r[|r| - 1] == e
    ensures r[..|r| - 1] == h[|h| - (|r| - 1)..]
  {
    var kept := if |h| >= 10 then h[|h| - 9..] else h;
    assert kept == h[|h| - |kept|..];
    var r := kept + [e];
    assert r[..|r| - 1] == kept;
    r
  }

  /** `addLoginHistory(ip, userAgent, success)`, stamped with `now`. */
  function AddLoginHistory(u: User, ip: Option<string>, userAgent: Option<string>, success: bool, now: nat): (r: User)
    ensures r.loginHistory == AppendHistory(u.loginHistory, LoginEntry(ip, userAgent, now, success))
    ensures r.(loginHistory := u.loginHistory) == u
  {
    u.(loginHistory := AppendHistory(u.loginHistory, LoginEntry(ip, userAgent, now, success)))
  }

  /**
   * `user.password = p; await user.save()`: the pre-save hook hashes a
   * modified, non-empty password and stamps `lastPasswordChange`. Assigning the
   * stored value again does not mark the path modified.
   */
  function AssignPassword(u: User, p: Option<string>, h: Hasher, now: nat): (r: User)
    ensures r.(password := u.password, lastPasswordChange := u.lastPasswordChange) == u
    ensures p == u.password ==> r == u
    ensures p != u.password && Truthy(p) ==> r.password == Some(h.hash(p.value)) && r.lastPasswordChange == now
    ensures !Truthy(p) ==> r.password == p && r.lastPasswordChange == u.lastPasswordChange
  {
    if p == u.password then u
    else if Truthy(p) then u.(password := Some(h.hash(p.value)), lastPasswordChange := now)
    else u.(password := p)
  }

  /**
   * `comparePassword(p)`: `bcrypt.compare(p, stored)`. It throws when nothing
   * is stored, which is `None` here.
   */
  function ComparePassword(u: User, p: string, h: Hasher): (r: Option<bool>)
    ensures r.None? <==> u.password.None?
  {
    if u.password.None? then None else Some(h.hash(p) == u.password.value)
  }

  /** Setting a new password and comparing it afterwards succeeds: hashing and comparing agree. */
  lemma PasswordRoundTrip(u: User, p: string, h: Hasher, now: nat)
    requires p != "" && Some(p) != u.password
    ensures ComparePassword(AssignPassword(u, Some(p), h, now), p, h) == Some(true)
  {
  }

  /**
   * A new document: the schema defaults (`status` ACTIVE, no lock, no tokens,
   * empty history, `lastPasswordChange` now) overridden by the given fields,
   * then the pre-save hook, under which every set path of a new document counts
   * as modified.
   */
  function Create(id: UserId, googleId: Option<string>, displayName: string, firstName: Option<string>,
                  lastName: Option<string>, email: string, image: Option<string>, password: Option<string>,
                  isEmailVerified: bool, verificationToken: Option<string>, verificationExpiry: Option<int>,
                  h: Hasher, now: nat): (r: User)
    ensures r.status == Constants.ACTIVE && r.failedLoginAttempts == 0 && r.accountLockedUntil.None?
    ensures r.loginHistory == [] && r.resetPasswordToken.None? && r.resetPasswordTokenExpiry.None?
    ensures r.lastPasswordChange == now && r.lastLogin.None?
    ensures Truthy(password) ==> r.password == Some(h.hash(password.value))
    ensures !Truthy(password) ==> r.password == password
    ensures r.id == id && r.email == email && r.googleId == googleId && r.isEmailVerified == isEmailVerified
    ensures r.emailVerificationToken == verificationToken && r.emailVerificationTokenExpiry == verificationExpiry
    ensures (verificationToken.Some? <==> verificationExpiry.Some?) ==> ValidUser(r)
  {
    User(id, googleId, None, displayName, firstName, lastName, email, image,
         if Truthy(password) then Some(h.hash(password.value)) else password,
         None, None, isEmailVerified, verificationToken, verificationExpiry,
         Constants.ACTIVE, 0, None, None, now, [], true)
  }

  /** The document invariants the flows keep: token pairs are set together, the history is capped. */
  predicate ValidUser(u: User) {
    && (u.resetPasswordToken.Some? <==> u.resetPasswordTokenExpiry.Some?)
    && (u.emailVerificationToken.Some? <==> u.emailVerificationTokenExpiry.Some?)
    && |u.loginHistory| <= HistoryCap
  }

  /** The lockout transitions and the history append keep a valid document valid. */
  lemma LockoutKeepsValid(u: User, now: nat, ip: Option<string>, ua: Option<string>, success: bool)
    requires ValidUser(u)
    ensures ValidUser(IncrementFailedLogins(u, now))
    ensures ValidUser(ResetFailedLogins(u, now))
    ensures ValidUser(AddLoginHistory(u, ip, ua, success, now))
  {
    var a := IncrementFailedLogins(u, now);
    assert a.resetPasswordToken == u.resetPasswordToken && a.resetPasswordTokenExpiry == u.resetPasswordTokenExpiry;
    assert a.emailVerificationToken == u.emailVerificationToken && a.emailVerificationTokenExpiry == u.emailVerificationTokenExpiry;
    assert a.loginHistory == u.loginHistory;
  }

  /** `n` failed passwords in a row at the same instant. */
  function FailTimes(u: User, n: nat, now: nat): User
    decreases n
  {
    if n == 0 then u else IncrementFailedLogins(FailTimes(u, n - 1, now), now)
  }

  /** From a clean record, five failures within one instant lock the account for five minutes. */
  lemma FiveFailuresLock(u: User, now: nat)
    requires u.failedLoginAttempts == 0 && u.accountLockedUntil.None?
    ensures FailTimes(u, 4, now).failedLoginAttempts == 4 && !IsAccountLocked(FailTimes(u, 4, now), now)
    ensures FailTimes(u, 5, now).failedLoginAttempts == 5
    ensures FailTimes(u, 5, now).accountLockedUntil == Some(now + 300000)
    ensures IsAccountLocked(FailTimes(u, 5, now), now)
  {
    var u1 := FailTimes(u, 1, now);
    var u2 := FailTimes(u, 2, now);
    var u3 := FailTimes(u, 3, now);
    var u4 := FailTimes(u, 4, now);
    assert u1.failedLoginAttempts == 1 && u1.accountLockedUntil.None?;
    assert u2.failedLoginAttempts == 2 && u2.accountLockedUntil.None?;
    assert u3.failedLoginAttempts == 3 && u3.accountLockedUntil.None?;
    assert u4.failedLoginAttempts == 4 && u4.accountLockedUntil.None?;
  }

  /**
   * After the lock has expired, a failure resets the counter to zero rather
   * than counting itself; a lock that ends exactly now is neither locked nor
   * expired, so the failure counts and locks again.
   */
  lemma ExpiredLockResets(u: User, now: nat)
    requires Set(u.accountLockedUntil)
    ensures u.accountLockedUntil.value < now ==>
              IncrementFailedLogins(u, now).failedLoginAttempts == 0 && !IsAccountLocked(IncrementFailedLogins(u, now), now)
    ensures u.accountLockedUntil.value == now && u.failedLoginAttempts + 1 >= LockThreshold ==>
              IncrementFailedLogins(u, now).accountLockedUntil == Some(now + 300000)
  {
  }
}
