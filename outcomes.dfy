/** Option, used for parses and lookups that can fail. */
module Outcomes {

  datatype Option<+T> = None | Some(value: T)
}
