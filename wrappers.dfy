/** PHP's "no value" (null, false, an unset key) on the client's fields and on decoded responses. */
module Wrappers {
  datatype Option<+T> = None | Some(value: T)
}
