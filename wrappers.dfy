/** The optional value used wherever Python returns `None` or a lookup may miss. */
module Wrappers {

  datatype Option<+T> = None | Some(value: T)

}
