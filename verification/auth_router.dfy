/**
 * The `/login` route: `CheckAccountLocked` runs before `UserLogin`, and is the
 * only lock check on this path, since the local strategy does not look at the
 * lock. Rate limiting and the redirect capture are not modelled.
 */
module AuthRouter {
  import opened Wrappers
  import opened JsText
  import opened UserModel
  import opened Store
  import opened AuthErrors
  import opened AuthStrategies
  import opened AccountLockMiddleware
  import opened UserStatusMiddleware
  import opened AuthMiddleware
  import opened AuthController
  import Constants

  /**
   * The route as written: the lock guard judges the session's user when the
   * request already carries one, and the account in the body otherwise.
   */
  function LoginRouteAsWritten(db: Db, req: LoginRequest, h: Hasher, now: nat, lookupOk: bool): (o: Outcome<PublicUser>)
    ensures var g := CheckAccountLocked(db, SessionUser(db, req.sessionId), req.email, now);
      && (g.Deny? ==> o == Outcome(Fail(g.code), db))
      && (g.Next? ==> o == UserLogin(db, req, h, now, lookupOk))
  {
    match CheckAccountLocked(db, SessionUser(db, req.sessionId), req.email, now)
    case Deny(c) => Outcome(Fail(c), db)
    case Next => UserLogin(db, req, h, now, lookupOk)
  }

  /**
   * From a session already logged in to an unlocked account, the lock of the
   * account named in the body is never checked: a locked account whose
   * password is given correctly logs in.
   */
  lemma LoggedInSessionBypassesLock(db: Db, req: LoginRequest, h: Hasher, now: nat, lookupOk: bool)
    requires SessionUser(db, req.sessionId).Some? && !IsAccountLocked(SessionUser(db, req.sessionId).value, now)
    requires Truthy(req.email) && Truthy(req.password)
    requires FindByEmail(db.users, req.email.value).Some?
    requires var u := db.users[FindByEmail(db.users, req.email.value).value];
      && IsAccountLocked(u, now)
      && !PasswordUnsetAccount(u) && u.status == Constants.ACTIVE
      && ComparePassword(u, req.password.value, h) == Some(true)
    ensures LoginRouteAsWritten(db, req, h, now, lookupOk).reply.Ok?
  {
  }

  /** An identity hash, enough to exhibit the bypass on a concrete store. */
  function PlainHasher(): Hasher {
    Hasher((p: string) => p)
  }

  /** Two ACTIVE accounts; `b` is locked until 1000 and its password is `secret`. */
  function BypassUsers(): seq<User> {
    var a := Create("a", None, "A", None, None, "a@x.io", None, None, false, None, None, PlainHasher(), 0);
    var b := Create("b", None, "B", None, None, "b@x.io", None, Some("secret"), false, None, None, PlainHasher(), 0);
    [a, b.(accountLockedUntil := Some(1000), failedLoginAttempts := 5)]
  }

  /**
   * The bypass on a concrete store: session `s` belongs to `a`; a login
   * request for the locked `b` from that session succeeds at time 10.
   */
  lemma BypassExample()
    ensures var db := Db(BypassUsers(), [TransportSession("s", Some("a"))], []);
      var req := LoginRequest("s", Some("b@x.io"), Some("secret"), None, None);
      && IsAccountLocked(db.users[1], 10)
      && LoginRouteAsWritten(db, req, PlainHasher(), 10, true).reply.Ok?
  {
    var db := Db(BypassUsers(), [TransportSession("s", Some("a"))], []);
    var req := LoginRequest("s", Some("b@x.io"), Some("secret"), None, None);
    assert db.users[0].id == "a" && db.users[1].id == "b";
    assert db.users[0].email == "a@x.io" && db.users[1].email == "b@x.io";
    assert db.users[0].email != "b@x.io";
    assert ValidUsers(db.users);
    SessionResolves(db, "s", 0);
    EmailFindsTheOwner(db.users, 1);
    LoggedInSessionBypassesLock(db, req, PlainHasher(), 10, true);
  }

  /**
   * The route as its lock guard is meant to work: the account judged is the
   * one the body names, the one about to be logged in.
   */
  function LoginRoute(db: Db, req: LoginRequest, h: Hasher, now: nat, lookupOk: bool): (o: Outcome<PublicUser>)
    ensures var f := if Truthy(req.email) then FindByEmail(db.users, req.email.value) else None;
      f.Some? && IsAccountLocked(db.users[f.value], now) ==>
        o == Outcome(Fail(AccountLocked(db.users[f.value].accountLockedUntil.value)), db)
    ensures o.reply.Ok? ==> o == UserLogin(db, req, h, now, lookupOk)
    ensures var f := if Truthy(req.email) then FindByEmail(db.users, req.email.value) else None;
      !(f.Some? && IsAccountLocked(db.users[f.value], now)) ==> o == UserLogin(db, req, h, now, lookupOk)
  {
    match CheckAccountLocked(db, None, req.email, now)
    case Deny(c) => Outcome(Fail(c), db)
    case Next => UserLogin(db, req, h, now, lookupOk)
  }

  /**
   * Through the route, a login succeeds exactly when the account exists, is
   * not locked, has a password that matches, and is ACTIVE.
   */
  lemma LoginRouteSucceedsIff(db: Db, req: LoginRequest, h: Hasher, now: nat, lookupOk: bool)
    ensures LoginRoute(db, req, h, now, lookupOk).reply.Ok? <==>
      && Truthy(req.email) && Truthy(req.password)
      && FindByEmail(db.users, req.email.value).Some?
      && var u := db.users[FindByEmail(db.users, req.email.value).value];
         && !IsAccountLocked(u, now)
         && !PasswordUnsetAccount(u)
         && ComparePassword(u, req.password.value, h) == Some(true)
         && u.status == Constants.ACTIVE
  {
  }

  /** A locked account never logs in through the route, and the attempt changes nothing. */
  lemma LockedAccountNeverLogsIn(db: Db, req: LoginRequest, h: Hasher, now: nat, lookupOk: bool)
    requires Truthy(req.email) && FindByEmail(db.users, req.email.value).Some?
    requires IsAccountLocked(db.users[FindByEmail(db.users, req.email.value).value], now)
    ensures LoginRoute(db, req, h, now, lookupOk).reply.Fail?
    ensures LoginRoute(db, req, h, now, lookupOk).db == db
  {
  }

  /**
   * After a login through the route, the session passes the gates of the
   * protected routes: `ensureAuthenticated` and `CheckUserStatus`.
   */
  lemma LoggedInPassesProtectedGates(db: Db, req: LoginRequest, h: Hasher, now: nat, lookupOk: bool, clientAppURL: string)
    requires ValidUsers(db.users)
    requires LoginRoute(db, req, h, now, lookupOk).reply.Ok?
    requires db.users[FindByEmail(db.users, req.email.value).value].id != ""
    ensures var db' := LoginRoute(db, req, h, now, lookupOk).db;
      var me := SessionUser(db', req.sessionId);
      && EnsureAuthenticated(me.Some?, me, clientAppURL) == Next
      && CheckUserStatus(me) == Next
  {
    LoginEstablishesSession(db, req, h, now, lookupOk);
    var i := FindByEmail(db.users, req.email.value).value;
    var db' := LoginRoute(db, req, h, now, lookupOk).db;
    PutKeepsValid(db.users, i, LoggedIn(db.users[i], req, now)) by {
      LockoutKeepsValid(db.users[i], now, req.ip, req.userAgent, true);
      LockoutKeepsValid(ResetFailedLogins(db.users[i], now), now, req.ip, req.userAgent, true);
    }
    EmailFindsTheOwner(db'.users, i);
  }
}
