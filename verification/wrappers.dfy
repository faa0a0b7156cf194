/** Failure-carrying result types shared by the decoders of the model. */
module Wrappers {

  datatype Option<+T> = None | Some(value: T)

  /** Why a checkpoint stream could not be read back. */
  datatype Error =
    | Truncated            // the stream ended before the field was complete
    | UnexpectedToken      // a token of the wrong kind stood where a field was expected

  datatype Result<+T> = Success(value: T) | Failure(error: Error) {
    predicate IsFailure() {
      Failure?
    }

    function PropagateFailure<U>(): Result<U>
      requires Failure?
    {
      Failure(error)
    }

    function Extract(): T
      requires Success?
    {
      value
    }
  }
}
