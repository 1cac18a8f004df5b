/** Option, standing for the `null` / `undefined` results of the providers. */
module Wrappers {
  datatype Option<+T> = None | Some(value: T)
}
