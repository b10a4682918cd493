/** The Some/None datatype used for "maybe absent" results: a missing tower index, a
    rejected move, an exhausted hint list. */
module Wrappers {

  datatype Option<+T> = None | Some(value: T)
}
