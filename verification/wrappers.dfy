/** Optional values and results with an error, used wherever the bots
    either have no value (a regex group that did not take part, a missing
    file) or raise. */
module Wrappers {

  datatype Option<+T> = None | Some(value: T)

  datatype Result<+R, +E> = Success(value: R) | Failure(error: E)
}
