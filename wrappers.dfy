/** The optional values the worker gets from `undefined`-able fields and failed calls. */
module Wrappers {

  datatype Option<+T> = None | Some(value: T)
}
