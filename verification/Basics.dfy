/** What several of the other modules use. */
module Basics {

  datatype Option<T> = None | Some(value: T)

  /** A condition as a count. */
  ghost function One(b: bool): nat { if b then 1 else 0 }
}
