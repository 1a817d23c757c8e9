/** An optional value: a Map lookup that may miss, an override that may be unset. */
module Wrappers {
  datatype Option<T> = None | Some(value: T)
}
