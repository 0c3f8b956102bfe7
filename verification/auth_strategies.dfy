/**
 * The passport verify callbacks as decision procedures: each looks the
 * account up, runs its guards in a fixed order and yields a verdict together
 * with the `users` collection as the callback leaves it.
 */
module AuthStrategies {
  import opened Wrappers
  import opened JsText
  import opened UserModel
  import opened Store
  import opened AuthErrors
  import Constants

  /** `done(null, user)` for the account at `at`, or `done(null, false, info)`. */
  datatype Verdict = Accept(at: nat) | Reject(code: Code)

  datatype Decision = Decision(verdict: Verdict, users: seq<User>)

  /** An account created through Google that never set a password. */
  predicate PasswordUnsetAccount(u: User) {
    Truthy(u.googleId) && !Truthy(u.password)
  }

  /**
   * The local strategy: look the account up by email, then refuse an unset
   * password, then compare the password (a failure counts against the
   * lockout), then check the status. It never looks at the lock.
   */
  function LocalVerify(users: seq<User>, email: string, password: string, h: Hasher, now: nat): (d: Decision)
    ensures FindByEmail(users, email).None? ==> d == Decision(Reject(NonExistentEmail), users)
    ensures var f := FindByEmail(users, email);
      d.verdict.Accept? <==>
        && f.Some?
        && !PasswordUnsetAccount(users[f.value])
        && ComparePassword(users[f.value], password, h) == Some(true)
        && users[f.value].status == Constants.ACTIVE
    ensures d.verdict.Accept? ==> Some(d.verdict.at) == FindByEmail(users, email) && d.users == users
    ensures var f := FindByEmail(users, email);
      d.verdict == Reject(PasswordUnset(email)) <==> f.Some? && PasswordUnsetAccount(users[f.value])
    ensures var f := FindByEmail(users, email);
      d.verdict == Reject(IncorrectPassword) <==>
        f.Some? && !PasswordUnsetAccount(users[f.value]) && ComparePassword(users[f.value], password, h) == Some(false)
    ensures var f := FindByEmail(users, email);
      d.verdict == Reject(IncorrectPassword) ==> d.users == Put(users, f.value, IncrementFailedLogins(users[f.value], now))
    ensures d.verdict != Reject(IncorrectPassword) ==> d.users == users
  {
    match FindByEmail(users, email)
    case None => Decision(Reject(NonExistentEmail), users)
    case Some(i) =>
      var u := users[i];
      if PasswordUnsetAccount(u) then Decision(Reject(PasswordUnset(email)), users)
      else
        match ComparePassword(u, password, h)
        case None => Decision(Reject(Unexpected), users)
        case Some(false) => Decision(Reject(IncorrectPassword), Put(users, i, IncrementFailedLogins(u, now)))
        case Some(true) =>
          if u.status != Constants.ACTIVE then Decision(Reject(StatusDenial(u.status)), users)
          else Decision(Accept(i), users)
  }

  /**
   * The status check comes after the password check: a wrong password on a
   * disabled account is reported as a wrong password, and counts.
   */
  lemma WrongPasswordHidesStatus(users: seq<User>, email: string, password: string, h: Hasher, now: nat)
    requires FindByEmail(users, email).Some?
    requires var u := users[FindByEmail(users, email).value];
      !PasswordUnsetAccount(u) && u.status != Constants.ACTIVE && ComparePassword(u, password, h) == Some(false)
    ensures LocalVerify(users, email, password, h, now).verdict == Reject(IncorrectPassword)
    ensures LocalVerify(users, email, password, h, now).users != users
  {
    var i := FindByEmail(users, email).value;
    var u := IncrementFailedLogins(users[i], now);
    assert u.failedLoginAttempts != users[i].failedLoginAttempts || u.accountLockedUntil != users[i].accountLockedUntil
      by { if LockExpired(users[i], now) { assert u.accountLockedUntil.None?; } }
    assert Put(users, i, u)[i] != users[i];
  }

  /** A correct password on a non-ACTIVE account is refused without touching the counter. */
  lemma StatusDenialKeepsCounter(users: seq<User>, email: string, password: string, h: Hasher, now: nat)
    requires FindByEmail(users, email).Some?
    requires var u := users[FindByEmail(users, email).value];
      !PasswordUnsetAccount(u) && u.status != Constants.ACTIVE && ComparePassword(u, password, h) == Some(true)
    ensures LocalVerify(users, email, password, h, now).verdict == Reject(StatusDenial(users[FindByEmail(users, email).value].status))
    ensures LocalVerify(users, email, password, h, now).users == users
  {
  }

  /** The local strategy accepts a locked account whose password matches: the lock is the route's job. */
  lemma LocalIgnoresLock(users: seq<User>, email: string, password: string, h: Hasher, now: nat)
    requires FindByEmail(users, email).Some?
    requires var u := users[FindByEmail(users, email).value];
      !PasswordUnsetAccount(u) && u.status == Constants.ACTIVE && ComparePassword(u, password, h) == Some(true)
    ensures LocalVerify(users, email, password, h, now).verdict.Accept?
  {
  }

  /** What the Google profile supplies: `id`, `displayName`, the name parts, the first photo and the first email. */
  datatype GoogleProfile = GoogleProfile(
    id: string,
    displayName: string,
    givenName: Option<string>,
    familyName: Option<string>,
    photo: Option<string>,
    email: Option<string>)

  /** `familyName?.trim() ?? ""`. */
  function LastNameOf(p: GoogleProfile): string {
    if p.familyName.Some? then Trim(p.familyName.value) else ""
  }

  /**
   * The account `User.create` makes for a first Google login: no password,
   * email already verified. `displayName` and `email` are required by the
   * schema, so a missing or empty one fails validation and the create throws.
   */
  function GoogleAccount(p: GoogleProfile, newId: UserId, h: Hasher, now: nat): (r: Option<User>)
    ensures r.Some? <==> Truthy(p.email) && p.displayName != ""
    ensures r.Some? ==> r.value.googleId == Some(p.id) && r.value.password.None? && r.value.isEmailVerified
    ensures r.Some? ==> r.value.id == newId && r.value.email == p.email.value && ValidUser(r.value)
  {
    if !Truthy(p.email) || p.displayName == "" then None
    else Some(Create(newId, Some(p.id), p.displayName, p.givenName, Some(LastNameOf(p)), p.email.value, p.photo,
                     None, true, None, None, h, now))
  }

  /**
   * The Google strategy: an already linked account is checked for status and
   * then for the lock; otherwise an ACTIVE account with the profile's email
   * is linked (no lock check); otherwise a new account is created.
   */
  function GoogleVerify(users: seq<User>, p: GoogleProfile, newId: UserId, h: Hasher, now: nat): (d: Decision)
    ensures var g := FindByGoogleId(users, p.id);
      g.Some? ==> (d.users == users &&
        (d.verdict.Accept? <==> users[g.value].status == Constants.ACTIVE && !IsAccountLocked(users[g.value], now)))
    ensures var g := FindByGoogleId(users, p.id);
      g.Some? && users[g.value].status != Constants.ACTIVE ==> d.verdict == Reject(StatusDenial(users[g.value].status))
    ensures d.verdict.Accept? ==> d.verdict.at < |d.users| && d.users[d.verdict.at].googleId == Some(p.id)
    ensures FindByGoogleId(users, p.id).None? && p.email.Some? && FindByEmail(users, p.email.value).Some? ==>
              var j := FindByEmail(users, p.email.value).value;
              (d.verdict.Accept? <==> users[j].status == Constants.ACTIVE) &&
              (d.verdict.Accept? ==> (d.verdict.at == j &&
                 d.users == Put(users, j, users[j].(googleId := Some(p.id), image := p.photo)))) &&
              (!d.verdict.Accept? ==> d.users == users)
    ensures FindByGoogleId(users, p.id).None? && (p.email.None? || FindByEmail(users, p.email.value).None?) ==>
              (d.verdict.Accept? <==> Truthy(p.email) && p.displayName != "") &&
              (d.verdict.Accept? ==> d.users == users + [GoogleAccount(p, newId, h, now).value]) &&
              (!d.verdict.Accept? ==> d.users == users)
  {
    match FindByGoogleId(users, p.id)
    case Some(i) =>
      var u := users[i];
      if u.status != Constants.ACTIVE then Decision(Reject(StatusDenial(u.status)), users)
      else if IsAccountLocked(u, now) then Decision(Reject(AccountLocked(u.accountLockedUntil.value)), users)
      else Decision(Accept(i), users)
    case None =>
      var byEmail := if p.email.Some? then FindByEmail(users, p.email.value) else None;
      match byEmail
      case Some(j) =>
        var u := users[j];
        if u.status != Constants.ACTIVE then Decision(Reject(StatusDenial(u.status)), users)
        else Decision(Accept(j), Put(users, j, u.(googleId := Some(p.id), image := p.photo)))
      case None =>
        match GoogleAccount(p, newId, h, now)
        case None => Decision(Reject(Unexpected), users)
        case Some(n) => Decision(Accept(|users|), users + [n])
  }

  /** A linked account that is locked or not ACTIVE never signs in through Google. */
  lemma GoogleRefusesLockedOrInactive(users: seq<User>, p: GoogleProfile, newId: UserId, h: Hasher, now: nat)
    requires FindByGoogleId(users, p.id).Some?
    requires var u := users[FindByGoogleId(users, p.id).value];
      IsAccountLocked(u, now) || u.status != Constants.ACTIVE
    ensures GoogleVerify(users, p, newId, h, now).verdict.Reject?
  {
  }

  /** Linking by email skips the lock: a locked, unlinked ACTIVE account is linked and signed in. */
  lemma LinkingIgnoresLock(users: seq<User>, p: GoogleProfile, newId: UserId, h: Hasher, now: nat)
    requires FindByGoogleId(users, p.id).None? && p.email.Some? && FindByEmail(users, p.email.value).Some?
    requires var u := users[FindByEmail(users, p.email.value).value];
      IsAccountLocked(u, now) && u.status == Constants.ACTIVE
    ensures GoogleVerify(users, p, newId, h, now).verdict.Accept?
  {
  }

  /** The local strategy keeps the collection valid. */
  lemma LocalKeepsValid(users: seq<User>, email: string, password: string, h: Hasher, now: nat)
    requires ValidUsers(users)
    ensures ValidUsers(LocalVerify(users, email, password, h, now).users)
  {
    var f := FindByEmail(users, email);
    if f.Some? {
      LockoutKeepsValid(users[f.value], now, None, None, false);
      PutKeepsValid(users, f.value, IncrementFailedLogins(users[f.value], now));
    }
  }

  /** The Google strategy keeps the collection valid, given a fresh id for a created account. */
  lemma GoogleKeepsValid(users: seq<User>, p: GoogleProfile, newId: UserId, h: Hasher, now: nat)
    requires ValidUsers(users)
    requires forall i :: 0 <= i < |users| ==> users[i].id != newId
    ensures ValidUsers(GoogleVerify(users, p, newId, h, now).users)
  {
    if FindByGoogleId(users, p.id).None? && p.email.Some? {
      match FindByEmail(users, p.email.value)
      case Some(j) =>
        PutKeepsValid(users, j, users[j].(googleId := Some(p.id), image := p.photo));
      case None =>
        if GoogleAccount(p, newId, h, now).Some? {
          InsertKeepsValid(users, GoogleAccount(p, newId, h, now).value);
        }
    }
  }
}
