/** Types and conversions that several modules share. */
module Basics {
  datatype Option<+T> = None | Some(value: T)

  type byte = x: int | 0 <= x < 0x100

  type uint32 = x: int | 0 <= x < 0x1_0000_0000

  type int32 = x: int | -0x8000_0000 <= x < 0x8000_0000

  const SECOND := 1_000_000_000  // in nanoseconds

  /** Conversion to a signed 32-bit integer. */
  function ToInt32(i: int): (r: int32)
    ensures (i - r) % 0x1_0000_0000 == 0
  {
    var m := i % 0x1_0000_0000;
    if m < 0x8000_0000 then m else m - 0x1_0000_0000
  }
}
