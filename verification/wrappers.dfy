/** An optional value: a parent who may be absent, a trait that may be unknown. */
module Wrappers {

  datatype Option<+T> = None | Some(value: T)
}
