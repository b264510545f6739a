/** Failure-compatible result type shared by every operation of the model,
    together with the failures of the Python module that the model makes
    explicit instead of raising or looping. */
module Wrappers {

  /** The ways an operation of `soundprep.py` can fail. */
  datatype Error =
    | UnboundLocal         // a local variable is returned before it was ever assigned
    | IndexOutOfRange      // a NumPy write past the end of a buffer
    | LengthMismatch       // elementwise addition of buffers of different lengths
    | AssertionFailed      // an `assert` statement of the module does not hold
    | NonTermination       // a `while` loop that never exits
    | MissingExtension     // neither file name carries an extension
    | UnsupportedBitdepth  // a bit depth other than 16 or 32

  /** Either the value an operation returns or the failure it stops with. */
  datatype Result<+T> = Ok(value: T) | Err(error: Error) {

    predicate IsFailure() {
      Err?
    }

    function PropagateFailure<U>(): Result<U>
      requires Err?
    {
      Err(error)
    }

    function Extract(): T
      requires Ok?
    {
      value
    }
  }
}
