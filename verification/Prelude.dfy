/** Shared value types: options, results with the service's HTTP error kinds, and the outcome of a refusable step. */
module Prelude {

  datatype Option<+T> = None | Some(value: T)

  /** The error responses the services raise, by HTTP status, plus the database's own refusals. */
  datatype Error =
    | NotFound          // 404
    | Conflict          // 409
    | Unprocessable     // 422
    | BadRequest        // 400
    | IntegrityError    // a primary-key or unique constraint refused the row
    | MultipleResults   // a scalar query met more than one row
    | Injected          // any other exception raised inside the transaction

  datatype Result<+T> = Ok(value: T) | Err(error: Error)

  /** What a step in place owes its specification: the new state on success; the error and no change otherwise. */
  ghost predicate Outcome<S>(before: S, spec: Result<S>, after: S, error: Option<Error>) {
    match spec
    case Ok(state) => error.None? && after == state
    case Err(e) => error == Some(e) && after == before
  }
}
