/** Failure-carrying values used throughout the model.

    The repository signals every failure by raising a Python exception; the model returns an
    `Err` carrying the kind of exception instead, so that error paths are part of each
    contract rather than excluded by a precondition. */
module Wrappers {

  /** The exception kinds the modelled code raises (or lets escape from a library call). */
  datatype Error =
    | ValueError(message: string)  // raised explicitly by the repository's own checks
    | KeyError                     // a dictionary lookup on a missing key
    | IndexError                   // a list or string index out of range
    | NameError(name: string)      // a name used without being defined or imported
    | OracleError                  // a failure inside the external graph library

  datatype Option<+T> = None | Some(value: T)

  datatype Result<+T> = Ok(value: T) | Err(error: Error) {
    predicate IsFailure() { Err? }

    function PropagateFailure<U>(): Result<U>
      requires Err?
    {
      Err(error)
    }

    function Extract(): T
      requires Ok?
    {
      value
    }
  }
}
