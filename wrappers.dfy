/** Optional values and fallible results, used for TypeScript's optional
    properties (`x?: string`, an attribute that may be `undefined`) and for
    operations that throw. */
module Wrappers {

  datatype Option<+T> = None | Some(value: T)

  datatype Result<+R, +E> = Success(value: R) | Failure(error: E)
}
