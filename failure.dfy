// Validation failures (lib/fail.js). The source throws a ValidationError that
// carries a message and a rewritten stack trace; here a failure is a value
// carrying the message, and the first failure ends the pass.
module Failure {

  datatype Option<+T> = None | Some(value: T)

  /** The outcome of a validation step: a value, or the message of the first failure. */
  datatype Result<+T> = Ok(value: T) | Err(msg: string) {

    predicate IsFailure() {
      Err?
    }

    function PropagateFailure<U>(): Result<U>
      requires Err?
    {
      Err(msg)
    }

    function Extract(): T
      requires Ok?
    {
      value
    }
  }

  /** A check that either passes or fails; it produces nothing on success. */
  type Outcome = Result<()>

  const Pass: Outcome := Ok(())

  /** Passes when `condition` holds, otherwise fails with `msg`. */
  function Need(condition: bool, msg: string): (r: Outcome)
    ensures r.Ok? <==> condition
  {
    if condition then Pass else Err(msg)
  }
}
