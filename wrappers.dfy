/** The optional value returned by a hash lookup (Ruby's `nil` when the key is absent). */
module Wrappers {

  datatype Option<+T> = None | Some(value: T)

}
