/** The optional value used wherever the editor holds a pointer that may be null
    or calls a collaborator that may fail. */
module Wrappers {

  datatype Option<+T> = None | Some(value: T)
}
