/** The Option type used for lookups that can miss and
    computations that raise in the original program. */
module Wrappers {

  datatype Option<+T> = None | Some(value: T)
}
