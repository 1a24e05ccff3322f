/** The optional value used wherever the program passes a pointer or an enumerator that may be absent. */
module Wrappers {
  datatype Option<+T> = None | Some(value: T)
}
