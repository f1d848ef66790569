/** The optional value the original takes from its `effect` dependency. */
module Wrappers {

  datatype Option<+T> = None | Some(value: T)
}
