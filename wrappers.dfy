/** The optional value used for a byte limit that may be absent and for
    a pause stack that may be popped when empty. */
module Wrappers {

  datatype Option<+T> = None | Some(value: T)
}
