/** Option and Result, used for the generator's null references and for the
    exceptions that abort a run. */
module Wrappers {

  datatype Option<+T> = None | Some(value: T)

  datatype Result<+R, +E> = Success(value: R) | Failure(error: E)
}
