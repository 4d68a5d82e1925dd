/** The optional value that stands for pandas' NaN and Python's `None` results. */
module Wrappers {

  datatype Option<+T> = None | Some(value: T)
}
