/** The optional result Python expresses with `Optional[...]` and `None`. */
module Wrappers {
  datatype Option<+T> = None | Some(value: T)
}
