/** Optional values and success-or-error results, in place of `undefined`/`null`
    and of thrown exceptions. */
module Results {

  datatype Option<+T> = None | Some(value: T)

  datatype Result<+T, +E> = Success(value: T) | Failure(error: E)
}
