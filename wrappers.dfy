/** Stock optional value, used where the script reads a value that may be absent. */
module Wrappers {

  datatype Option<T> = None | Some(value: T)

}
