/** The "value or undefined" results of the list's lookups and removals. */
module Wrappers {

  datatype Option<T> = None | Some(value: T)
}
