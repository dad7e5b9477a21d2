/** Bytes and 32-bit words as integers in range, and optional values. */
module Words {
  const WORD := 0x1_0000_0000

  type byte = x: int | 0 <= x < 256
  type word = x: int | 0 <= x < WORD

  datatype Option<+T> = None | Some(value: T)
}
