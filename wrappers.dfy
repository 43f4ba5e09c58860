/** Optional values, error kinds and results shared by every module of the model. */
module Wrappers {

  datatype Option<+T> = None | Some(value: T)

  /** The kinds of failure the modelled code raises (thrown errors in TypeScript,
      `bail!` in Rust); the message texts are not modelled. */
  datatype Error =
    | InvalidVersion(version: int)  // a codec asked for a version it does not know
    | TooShort                      // an embedded-version frame shorter than its 2-byte header
    | Malformed                     // a codec could not decode the payload
    | NotLatest                     // `into_latest` on a value that is not the latest version
    | Mistyped                      // a value of one version handed to code written for another
    | MissingConverters             // a handler configured without the converter lists it calls

  datatype Result<+T> = Success(value: T) | Failure(error: Error) {
    predicate IsFailure() { Failure? }
    function PropagateFailure<U>(): Result<U>
      requires Failure?
    {
      Failure(error)
    }
    function Extract(): T
      requires Success?
    {
      value
    }
  }
}
