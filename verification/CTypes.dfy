/** What the C program's types come down to in every model: pointers that may be NULL, and the
    ranges of its unsigned words. */
module CTypes {
  /** A pointer: NULL or what it points to. */
  datatype Option<+T> = None | Some(value: T)

  const U32: nat := 0x1_0000_0000
  const U64: nat := 0x1_0000_0000_0000_0000

  /** A value converted to a 32-bit int. */
  function ToInt(x: int): int {
    var low := x % U32;
    if low < U32 / 2 then low else low - U32
  }
}
