/** Small helper datatypes shared by the engines. */
module Wrappers {

  /** An optional value: the engines' `null` / `undefined`. */
  datatype Option<T> = None | Some(value: T)
}
