/** Failure-carrying results for the places where the experiment script
    would raise an exception instead of returning a value. */
module Outcomes {

  /** The exceptions the modelled code can raise. */
  datatype Error =
    | ZeroDivision      // `correct / len(loader.dataset)` on an empty split
    | IndexOutOfRange   // `dataset[perm]` with an index past the end

  /** Either a computed value or the exception raised instead. */
  datatype Result<+T> = Ok(value: T) | Err(error: Error)
}
