/** The engine's error codes (Sources/Quay/Errors.swift) and the outcome types every operation returns. */
module Errors {

  /** `Quay.ErrorCode`; the codes become the `code` of an NSError in the "QuayError" domain. */
  datatype ErrorCode =
    | InvalidMagicNumber
    | InvalidHeader
    | DecompressionFailed
    | CompressionFailed
    | DecodeFailed
    | Unimplemented
    | Unknown

  function RawValue(e: ErrorCode): int
  {
    match e
    case InvalidMagicNumber => 0
    case InvalidHeader => 1
    case DecompressionFailed => 2
    case CompressionFailed => 3
    case DecodeFailed => 4
    case Unimplemented => 69
    case Unknown => 70
  }

  /** How an operation can fail.
      Thrown: a Quay error is thrown.
      Trap: the Swift runtime stops the program (force-unwrap of nil, index out of range,
            unsigned underflow, a `UInt8(_)` conversion of a value over 255, an empty range).
      IoError: a filesystem call fails.
      ProtobufError: the message codec rejects its bytes.
      OutOfFuel: the model's step bound ran out before a loop of the source finished. */
  datatype Failure = Thrown(code: ErrorCode) | Trap | IoError | ProtobufError | OutOfFuel

  datatype Option<+T> = None | Some(value: T)

  datatype Result<+T> = Ok(value: T) | Err(failure: Failure) {
    predicate IsFailure() { Err? }
    function PropagateFailure<U>(): Result<U>
      requires Err?
    {
      Err(failure)
    }
    function Extract(): T
      requires Ok?
    {
      value
    }
  }

  datatype Outcome = Pass | Fail(failure: Failure) {
    predicate IsFailure() { Fail? }
    function PropagateFailure(): Outcome
      requires Fail?
    {
      this
    }
  }
}
