/** The optional value used wherever the chat script keeps something that may be absent. */
module Wrappers {

  datatype Option<+T> = None | Some(value: T)
}
