/** The optional value used for a selection that may be absent (`null` in the page's script). */
module Wrappers {
  datatype Option<+T> = None | Some(value: T)
}
