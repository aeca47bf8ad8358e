/** Small definitions shared by every component. */
module Common {

  datatype Option<+T> = None | Some(value: T)

  /** One more than the largest 32-bit value: where unsigned counters start over. */
  const WRAP := 0x1_0000_0000

  /** A condition as a count. */
  function Flag(b: bool): nat { if b then 1 else 0 }
}
