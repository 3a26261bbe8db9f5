/** An optional value, used where the source signals failure by an early return. */
module Wrappers {

  datatype Option<+T> = None | Some(value: T)
}
