/** The optional value used wherever the service's parsers can fail. */
module Wrappers {

  datatype Option<+T> = None | Some(value: T)
}
