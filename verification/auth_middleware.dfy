/** `ensureAuthenticated`: the gate in front of the protected routes. */
module AuthMiddleware {
  import opened Wrappers
  import opened UserModel
  import opened AuthErrors

  /** The login page the denial points the client to. */
  function LoginRedirect(clientAppURL: string): string {
    clientAppURL + "/login"
  }

  /** `next()` for an authenticated request whose user has an `_id`; 401 otherwise. */
  function EnsureAuthenticated(isAuthenticated: bool, user: Option<User>, clientAppURL: string): (g: Gate)
    ensures g == Next <==> isAuthenticated && user.Some? && user.value.id != ""
    ensures g.Deny? ==> g.code == Unauthorized(LoginRedirect(clientAppURL))
    ensures g.Deny? ==> StatusCode(g.code) == Some(401) && Message(g.code) == Some("Unauthorized")
  {
    if isAuthenticated && user.Some? && user.value.id != "" then Next
    else Deny(Unauthorized(LoginRedirect(clientAppURL)))
  }
}
