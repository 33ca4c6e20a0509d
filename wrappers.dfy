/** The optional value used wherever the C++ code returns a null pointer,
    `std::optional` or a boolean "found" flag beside an out-parameter. */
module Wrappers {

  datatype Option<+T> = None | Some(value: T)
}
