/** Shared value types. */
module Common {

  datatype Option<+T> = None | Some(value: T)

  /** `b` as a number, for counters that count how often a condition holds. */
  function Bit(b: bool): nat {
    if b then 1 else 0
  }
}
