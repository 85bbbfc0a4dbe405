/** Option and Result values shared by the day modules. A `None` or a
    `Failure` returned by a model operation stands for the error return or the
    panic of the Rust code it models; each operation says which. */
module Wrappers {
  datatype Option<+T> = None | Some(value: T)

  datatype Result<+T, +E> = Success(value: T) | Failure(error: E)
}
