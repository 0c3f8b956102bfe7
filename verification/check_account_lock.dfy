/**
 * `CheckAccountLocked`: refuses a request whose account is locked. The
 * account judged is the session's user when there is one, otherwise the
 * account named by the body's `email`.
 */
module AccountLockMiddleware {
  import opened Wrappers
  import opened JsText
  import opened UserModel
  import opened Store
  import opened AuthErrors

  function CheckAccountLocked(db: Db, reqUser: Option<User>, bodyEmail: Option<string>, now: nat): (g: Gate)
    ensures reqUser.None? && !Truthy(bodyEmail) ==> g == Next
    ensures reqUser.None? && Truthy(bodyEmail) && FindByEmail(db.users, bodyEmail.value).None? ==> g == Next
    ensures reqUser.None? && Truthy(bodyEmail) ==>
              var f := FindByEmail(db.users, bodyEmail.value);
              (g.Deny? <==> f.Some? && IsAccountLocked(db.users[f.value], now))
    ensures reqUser.Some? ==> (g.Deny? <==> IsAccountLocked(reqUser.value, now))
    ensures reqUser.Some? && g.Deny? ==> g.code == AccountLocked(reqUser.value.accountLockedUntil.value)
    ensures reqUser.None? && g.Deny? ==>
              && Truthy(bodyEmail) && FindByEmail(db.users, bodyEmail.value).Some?
              && g.code == AccountLocked(db.users[FindByEmail(db.users, bodyEmail.value).value].accountLockedUntil.value)
    ensures g.Deny? ==> g.code.AccountLocked? && g.code.until > now
  {
    var judged :=
      if reqUser.Some? then reqUser
      else if !Truthy(bodyEmail) then None
      else match FindByEmail(db.users, bodyEmail.value)
        case None => None
        case Some(i) => Some(db.users[i]);
    if judged.Some? && IsAccountLocked(judged.value, now) then Deny(AccountLocked(judged.value.accountLockedUntil.value))
    else Next
  }

  /**
   * The session's user takes precedence: with someone logged in, the body's
   * email is never looked at.
   */
  lemma SessionUserTakesPrecedence(db: Db, u: User, e1: Option<string>, e2: Option<string>, now: nat)
    ensures CheckAccountLocked(db, Some(u), e1, now) == CheckAccountLocked(db, Some(u), e2, now)
  {
  }
}
