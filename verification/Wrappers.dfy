/** Option and Result, used for Python's `None` and for its raised errors, and what is asked of some hashes. */
module Wrappers {

  datatype Option<+T> = None | Some(value: T)

  datatype Result<+T, +E> = Ok(value: T) | Err(error: E)

  /** A hash without collisions. */
  ghost predicate Injective<A(!new), B>(h: A -> B) { forall a, b :: h(a) == h(b) ==> a == b }
}
