/**
  Error kinds and failure-compatible wrappers shared by the parser model.

  The parser reports three sentinel errors and wraps them with a reason
  text; only the sentinel identity is modelled. A Go run-time panic is the
  fourth outcome: like an error it ends the whole parse at once.
 */
module Outcomes {

  datatype ParseError =
    | InvalidInput                                  // errInvalidInput
    | ObjectMustHaveSingleKey                       // errObjectMustHaveSingleKey
    | UnknownDefinition(group: string, ref: string) // errUnknownDefinition, with its group and name
    | Panic                                         // failed unchecked type assertion

  /** An optional value; `None` plays Go's "not present" and a nil `error`. */
  datatype Option<+T> = None | Some(value: T)

  /** A value or the first error met, usable with `:-`. */
  datatype Result<+T> = Success(value: T) | Failure(error: ParseError) {

    predicate IsFailure() {
      Failure?
    }

    function PropagateFailure<U>(): Result<U>
      requires Failure?
    {
      Failure(error)
    }

    function Extract(): T
      requires Success?
    {
      value
    }
  }
}
