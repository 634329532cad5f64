/** The option type used wherever the program can raise or return "nothing". */
module Wrappers {

  datatype Option<+T> = None | Some(value: T)
}
