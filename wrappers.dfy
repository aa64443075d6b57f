/** The optional value used where the Objective-C code returns or passes `nil`. */
module Wrappers {

  datatype Option<+T> = None | Some(value: T)
}
