/** The optional-value type used for `std::optional<T>` results. */
module Wrappers {

  /** `None` is the empty optional; `Some(value)` holds one value. */
  datatype Option<+T> = None | Some(value: T)
}
