/** The optional value used where the source returns `std::optional`. */
module Wrappers {

  datatype Option<+T> = None | Some(value: T)
}
