/** The optional value the model uses for Swift's `Optional` and for day counts
    that the calendar could not compute. */
module Wrappers {
  datatype Option<+T> = None | Some(value: T)
}
