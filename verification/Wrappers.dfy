/** The optional values that the C++ sources spell `std::optional`. */
module Wrappers {
  datatype Option<+T> = None | Some(value: T)
}
