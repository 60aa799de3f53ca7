/** Small shared datatypes. */
module Wrappers {

  /** An optional value: the source's "nothing happened / nothing to show". */
  datatype Option<+T> = None | Some(value: T)
}
