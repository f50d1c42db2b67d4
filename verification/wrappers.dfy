/** The optional value used where the reporter has nothing finite to show. */
module Wrappers {

  datatype Option<+T> = None | Some(value: T)
}
