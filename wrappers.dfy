/** The optional value used where the Java code returns or stores `null`. */
module Wrappers {

  datatype Option<+T> = None | Some(value: T)

}
