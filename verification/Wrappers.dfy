/** Option and result types for the values JavaScript spells `null`, `undefined` or a thrown error. */
module Wrappers {
  datatype Option<+T> = None | Some(value: T) {
    predicate IsFailure() {
      None?
    }

    function PropagateFailure<U>(): Option<U>
      requires None?
    {
      None
    }

    function Extract(): T
      requires Some?
    {
      value
    }
  }

  /** A byte of a wire format or buffer. */
  type byte = x: int | 0 <= x < 256
}
