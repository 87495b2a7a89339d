/** The optional value used wherever the program either produces a value
    or stops with an exception (an index out of range, an unparsable number). */
module Wrappers {

  datatype Option<+T> = None | Some(value: T)

}
