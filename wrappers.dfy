/** The optional value used for the edit target, which the app stores as `null` or an id. */
module Wrappers {

  datatype Option<+T> = None | Some(value: T)
}
