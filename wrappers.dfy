/** An optional value: a nullable foreign key, an absent form field. */
module Wrappers {
  datatype Option<+T> = None | Some(value: T)
}
