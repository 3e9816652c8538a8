/**
 * The application's `UserError`: an `Error` with a message and two optional
 * user-facing fields, `info` and `suggestion` (server/models/errors/UserError.ts).
 */
module UserErrors {
  import opened Wrappers

  datatype Error = Error(message: string, info: Option<string>, suggestion: Option<string>)

  /** `new UserError(message)` with neither field set. */
  function Plain(message: string): Error
  {
    Error(message, None, None)
  }
}
