/** Option and Result: absent values and the pipeline's explicit error checks. */
module Wrappers {

  datatype Option<+T> = None | Some(value: T)

  /** `Failure` stands for an `assert` or `raise` in the pipeline that stops the script. */
  datatype Result<+T, +E> = Success(value: T) | Failure(error: E)
}
