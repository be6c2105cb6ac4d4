/** The structured outcomes every controller and middleware produces. The HTTP
    boundary turns them into a JSON body or into a flash message and a redirect;
    the model keeps only the kind. */
module Outcomes {

  datatype Option<+T> = None | Some(value: T)

  /** Why a request did not succeed. */
  datatype Failure =
    | Unauthenticated  // no user in the session: redirect to /users/login
    | Forbidden        // no such idea, or not its author: redirect to /ideas
    | NotFound         // 404
    | Conflict         // the e-mail is already registered
    | Error            // a controller's catch block (500), or an exception

  /** The result of a controller action. */
  datatype Outcome<+T> = Ok(value: T) | Fail(failure: Failure)

  /** What a middleware does with a request: call `next()`, or answer it itself. */
  datatype Decision = Allow | Deny(failure: Failure)
}
