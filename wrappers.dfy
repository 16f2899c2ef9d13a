// Optional values and results, standing in for TypeScript's `T | null`,
// `undefined` and thrown errors.
module Wrappers {

  datatype Option<+T> = None | Some(value: T)

  datatype Result<+R, +E> = Success(value: R) | Failure(error: E)
}
