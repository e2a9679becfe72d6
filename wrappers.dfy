/** Failure-compatible result type shared by every part of the model.
    A `Failure` is what the TypeScript code throws or how a JavaScript
    promise rejects. */
module Wrappers {

  datatype Option<+T> = None | Some(value: T)

  /** Why an operation did not return normally. */
  datatype Failure =
    | Thrown(message: string)       // `throw new Error(message)`
    | DeviceError(statusCode: int)  // a transport error carrying a non-success status word
    | Diverges                      // the source would loop forever at this point
    | OutOfPages                    // the finite list of indexer answers given to the model ran out

  datatype Result<+T> = Ok(value: T) | Err(error: Failure) {
    predicate IsFailure() { Err? }

    function PropagateFailure<U>(): Result<U>
      requires Err?
    {
      Err(error)
    }

    function Extract(): T
      requires Ok?
    {
      value
    }
  }
}
