/** The optional value used where the inspector code relies on a `null` result. */
module Wrappers {

  datatype Option<+T> = None | Some(value: T)
}
