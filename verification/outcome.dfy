/** The errors the decoding pipeline can raise, and the failure-compatible
    Result type that carries them through the stages. */
module Outcome {

  /** The source raises a ValueError (or a ZeroDivisionError) for each of these. */
  datatype Error =
    | NoValidPair        // no pair of segment durations is at least 2:1 apart
    | UnresolvableRatio  // the first such pair matches no Morse timing band
    | SegmentOutOfRange  // a mark is neither dot-sized nor dash-sized
    | DivisionByZero     // a nonempty segment list measured against dot length 0

  datatype Result<T> = Ok(value: T) | Err(error: Error) {

    predicate IsFailure() {
      Err?
    }

    function PropagateFailure<U>(): Result<U>
      requires Err?
    {
      Err(error)
    }

    function Extract(): T
      requires Ok?
    {
      value
    }
  }
}
