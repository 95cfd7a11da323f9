/** The optional value shared by the models: a missing row, an absent claim, an unset deadline. */
module Wrappers {
  datatype Option<+T> = None | Some(value: T)
}
