/** Optional values and error-or-value results, used for Python's `None` and for
    the assertion failures the utilities raise. */
module Wrappers {

  datatype Option<+T> = None | Some(value: T)

  datatype Result<+T, +E> = Ok(value: T) | Err(error: E)
}
