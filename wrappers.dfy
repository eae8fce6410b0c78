/** The Option type stands in for the `null` that the formatter returns for nodes it drops. */
module Wrappers {
  datatype Option<+T> = None | Some(value: T)
}
