/** Failure-carrying results for the operations of the tuner core.
    The source signals these conditions with .NET exceptions; the model
    returns them as values so that every error path is part of a contract. */
module Results {

  /** The exceptions the modelled code can raise. */
  datatype Error =
    | InvalidLength      // ArgumentException("Incorrect data length.") of ReorderData / FFT2
    | BitsOutOfRange     // ArgumentOutOfRangeException of GetReversedBits
    | IndexOutOfRange    // IndexOutOfRangeException from an array access
    | EmptySequence      // InvalidOperationException of Enumerable.First on an empty list
    | NegativeArraySize  // OverflowException of an array created with a negative size

  datatype Result<+T> = Ok(value: T) | Fail(error: Error)

  datatype Option<+T> = None | Some(value: T)
}
