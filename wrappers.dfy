/** Python semantics shared by the model: `None`, and list indexing with negative indices. */
module Wrappers {

  /** A value that may be absent (`None` in the source). */
  datatype Option<+T> = None | Some(value: T)

  /** The position Python reads for list index `i` of a list of length `n`. */
  function Slot(i: int, n: int): int {
    if i < 0 then i + n else i
  }

  /** A list index Python accepts for a list of length `n`. */
  predicate InRange(i: int, n: int) {
    -n <= i < n
  }

  lemma SlotInRange(i: int, n: int)
    requires InRange(i, n)
    ensures 0 <= Slot(i, n) < n
  {
  }
}
