/** Nullable values of the host language (`T?` in Kotlin) as an explicit option. */
module Wrappers {

  datatype Option<+T> = None | Some(value: T)
}
