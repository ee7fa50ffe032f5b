/** A value that may be absent: a quote the provider did not find, a form field that did not parse. */
module Wrappers {
  datatype Option<+T> = None | Some(value: T)
}
