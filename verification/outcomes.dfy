/** The two failure-carrying wrappers the model uses: an optional value (PHP's `false` or
    `null` sentinel) and the outcome of a builder that may throw. */
module Outcomes {

  datatype Option<+T> = None | Some(value: T)

  /** A builder either produces its value or throws a PDOException with a message. */
  datatype Result<+T> = Ok(value: T) | Thrown(message: string)
}
