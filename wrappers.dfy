/** The optional value used across the model, standing for a JavaScript value
    that may be null or missing. */
module Wrappers {
  datatype Option<+T> = None | Some(value: T)
}
