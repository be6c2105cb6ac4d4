/** The `isLoggedIn` middleware. */
module AuthMiddleware {
  import opened Outcomes
  import opened Accounts

  /** Lets the request through exactly when the session holds a user; otherwise
      the request is answered with a redirect to the login page. It only looks
      at the session, so it cannot change it. */
  function IsLoggedIn(user: Option<User>): (d: Decision)
    ensures d == Allow <==> user.Some?
    ensures d.Deny? ==> d.failure == Unauthenticated
  {
    if user.None? then Deny(Unauthenticated) else Allow
  }
}
