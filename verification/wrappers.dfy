/** The optional value the program returns where Python returns `None`. */
module Wrappers {

  datatype Option<+T> = None | Some(value: T)
}
