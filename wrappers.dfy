/** Optional values, as used throughout the model for Java's `Optional` and for operations where the source throws. */
module Wrappers {

  datatype Option<T> = None | Some(value: T)
}
