/** Option and Result, the shapes the cluster layer's `Option<T>` and
    `Result<T, E>` values take in the model. */
module Wrappers {

  datatype Option<+T> = None | Some(value: T)

  datatype Result<+T, +E> = Success(value: T) | Failure(error: E)
}
