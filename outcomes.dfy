/** Result wrappers shared by the model.

    `Outcome` is what a JavaScript call evaluates to: a value, or an
    exception that unwinds out of it.  Only the exceptions the validator
    can actually raise are named in `Thrown`. */
module Outcomes {

  datatype Option<+T> = None | Some(value: T)

  /** The exceptions the validator raises, named after the failing JavaScript
      expression. */
  datatype Thrown =
    | PropertyOfAbsent        // `obj[key]` or `x.every` with obj/x null or undefined
    | KeysOfAbsent            // `Object.keys(x)` with x null or undefined
    | EveryIsNotAFunction     // `x.every(...)` on a present value that is not an array
    | ValidateIsNotAFunction  // `sub.validate(x)` where `validate` is a schema entry

  /** A JavaScript evaluation: it returns a value or throws. */
  datatype Outcome<+T> = Done(value: T) | Threw(error: Thrown) {

    predicate IsFailure() {
      Threw?
    }

    function PropagateFailure<U>(): Outcome<U>
      requires Threw?
    {
      Threw(error)
    }

    function Extract(): T
      requires Done?
    {
      value
    }
  }

  /** Construction either yields a value or throws an `Error` carrying messages. */
  datatype Result<+T, +E> = Success(value: T) | Failure(error: E)
}
