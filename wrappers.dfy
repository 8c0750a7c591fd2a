/** Java references that may be null are modelled as Option values: None stands for null. */
module Wrappers {
  datatype Option<+T> = None | Some(value: T)
}
