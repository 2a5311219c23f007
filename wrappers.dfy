/** Optional values and error-or-value results, as the pipeline's functions
    return `None` for a failed download and raise `ValueError` for bad input. */
module Wrappers {

  datatype Option<+T> = None | Some(value: T)

  datatype Result<+T, +E> = Ok(value: T) | Err(error: E)
}
