/** Optional values, the error kinds the services raise, and the result of a
    service call. A failed call carries no store: whatever the service did
    before it threw is never observable, so "an error leaves the store
    unchanged" holds by construction. */
module Outcomes {

  /** An optional value; `None` stands for JavaScript's `null` or `undefined`. */
  datatype Option<+T> = None | Some(value: T) {

    predicate IsFailure() {
      None?
    }

    function PropagateFailure<U>(): Option<U>
      requires None?
    {
      None
    }

    function Extract(): T
      requires Some?
    {
      value
    }
  }

  /** The four HTTP exceptions the services throw. */
  datatype Error =
    | BadRequest           // malformed id or missing / mistyped field (400)
    | NotFound             // no such entity or favorite (404)
    | UnprocessableEntity  // favorite target does not exist (422)
    | Forbidden            // wrong old password (403)

  /** Either the value a service returns or the exception it throws. */
  datatype Result<+T> = Ok(value: T) | Err(error: Error) {

    predicate IsFailure() {
      Err?
    }

    function PropagateFailure<U>(): Result<U>
      requires Err?
    {
      Err(error)
    }

    function Extract(): T
      requires Ok?
    {
      value
    }
  }
}
