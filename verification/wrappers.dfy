/** The Some/None datatype used where the source produces `undefined`, `null`
    or "no match" instead of a value. */
module Wrappers {

  datatype Option<+T> = None | Some(value: T)
}
