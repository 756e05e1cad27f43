/** Results of operations that the program ends by throwing. */
module Outcomes {

  datatype Option<+T> = None | Some(value: T)

  datatype Failure =
    | MalformedBucket         // old non-DEAD + new INIT
    | IllegalEntry            // INIT in a bucket older than protocol 11
    | VersionTooHigh          // a bucket is newer than the protocol of the merge
    | ShadowsNotSupported     // shadows given to a protocol 12 merge
    | InvalidRestart          // clear future bucket above an old, non-empty snap
    | DivisionByZero          // 128-bit division or modulus by zero
    | BaseOutOfRange          // a number written in a base outside 2 to 16

  datatype Outcome<+T> = Ok(value: T) | Error(why: Failure) {
    predicate IsFailure() { Error? }
    function PropagateFailure<U>(): Outcome<U>
      requires Error?
    {
      Error(why)
    }
    function Extract(): T
      requires Ok?
    {
      value
    }
  }
}
