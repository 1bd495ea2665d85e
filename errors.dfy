/** What an operation of the engine reports instead of aborting on a failed assertion. */
module Errors {

  /** ShapeMismatch: operand dimensions violate an asserted condition.
      InvalidArchitecture: a network description with no layer widths at all. */
  datatype Error = ShapeMismatch | InvalidArchitecture

  datatype Outcome = Pass | Fail(error: Error)

  datatype Result<T> = Ok(value: T) | Err(error: Error)
}
