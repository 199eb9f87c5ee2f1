/** The optional value used for lookups that can miss. */
module Wrappers {

  /** `None` stands for JavaScript's `undefined` returned by a search that finds nothing. */
  datatype Option<+T> = None | Some(value: T)
}
