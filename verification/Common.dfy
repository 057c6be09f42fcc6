/** Notions that several modules share. */
module Common {

  /** Where unsigned 32-bit arithmetic wraps. */
  const WRAP: nat := 0x1_0000_0000

  type U32 = x: nat | x < WRAP

  datatype Option<+T> = None | Some(value: T)
}
