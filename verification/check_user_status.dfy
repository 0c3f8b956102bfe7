/** `CheckUserStatus`: lets only ACTIVE users through. */
module UserStatusMiddleware {
  import opened Wrappers
  import opened UserModel
  import opened AuthErrors
  import Constants

  /**
   * A missing user or a falsy status (`0`) is unauthenticated; any other
   * non-ACTIVE status is refused with its name, which throws for an
   * unregistered status.
   */
  function CheckUserStatus(user: Option<User>): (g: Gate)
    ensures g == Next <==> user.Some? && user.value.status == Constants.ACTIVE
    ensures user.None? || user.value.status == 0 ==> g == Deny(UserNotAuthenticated)
    ensures user.Some? && user.value.status != 0 && user.value.status != Constants.ACTIVE ==>
              g == Deny(StatusDenial(user.value.status))
  {
    if user.None? || user.value.status == 0 then Deny(UserNotAuthenticated)
    else if user.value.status != Constants.ACTIVE then Deny(StatusDenial(user.value.status))
    else Next
  }

  /** Disabled and banned users are refused with 403 and `ACCOUNT_DISABLED` / `ACCOUNT_BANNED`. */
  lemma StatusGateCodes(u: User)
    ensures u.status == Constants.DISABLED ==>
              var g := CheckUserStatus(Some(u));
              g.Deny? && ActualError(g.code) == Some("ACCOUNT_DISABLED") && StatusCode(g.code) == Some(403)
    ensures u.status == Constants.BANNED ==>
              var g := CheckUserStatus(Some(u));
              g.Deny? && ActualError(g.code) == Some("ACCOUNT_BANNED") && StatusCode(g.code) == Some(403)
    ensures StatusCode(CheckUserStatus(None).code) == Some(401)
  {
    StatusDenials();
    DisabledCode();
    BannedCode();
  }
}
