/** Failure-carrying results for the Python exceptions the pipeline raises. */
module Wrappers {

  /** The kinds of exception the modelled code can raise. */
  datatype Error =
    | InvalidChunkSize   // `raise Exception('Invalid chunk size...')`
    | AssertionFailed    // a failing `assert`
    | IndexError         // list indexing past the end, `[][0]`
    | TypeError          // a call with the wrong arguments, an unhashable key
    | ValueError         // `max()` of an empty sequence, `int()` of a non-number
    | ZeroDivision       // `1 / 0`
    | NotImplemented     // `raise Exception('Not implemented ...')`
    | TaggerUnavailable  // the tagging server could not be reached

  datatype Result<+T> = Success(value: T) | Failure(error: Error) {
    predicate IsFailure() {
      Failure?
    }

    function PropagateFailure<U>(): Result<U>
      requires Failure?
    {
      Failure(error)
    }

    function Extract(): T
      requires Success?
    {
      value
    }
  }

  datatype Option<+T> = None | Some(value: T)
}
