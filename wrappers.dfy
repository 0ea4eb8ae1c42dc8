/** The optional value used wherever the source holds a nullable reference or an absent prop. */
module Wrappers {

  datatype Option<+T> = None | Some(value: T)

}
