/** Option and Result: nil pointers, Python `None` and the crash or error paths of the model. */
module Wrappers {

  datatype Option<+T> = None | Some(value: T)

  /** The ways the modelled code stops without a value: a Python IndexError or a Go panic from
      an out-of-range index, and a Go panic from reading through a nil pointer. */
  datatype Error = IndexOutOfRange | NilDereference

  datatype Result<+T> = Success(value: T) | Failure(error: Error)
}
