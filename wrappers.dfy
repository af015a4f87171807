/** The optional value the engine returns where Python returns `None`. */
module Wrappers {

  datatype Option<T> = None | Some(value: T)
}
