/** The two shapes JavaScript values take at the model's boundary. */
module Results {

  /** A value that may be missing: an `undefined` argument is `None`. */
  datatype Option<T> = None | Some(value: T)

  /** The outcome of a call that may throw: a thrown `Error` is a `Failure`
      carrying its reason. */
  datatype Result<T, E> = Success(value: T) | Failure(error: E)
}
