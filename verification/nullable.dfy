/** A value of type `T | null`: either absent or present. */
module Nullable {

  datatype Option<T> = None | Some(value: T)
}
