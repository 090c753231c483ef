/** Types shared by every layer: bytes, blocks and the optional value. */
module Base {

  type byte = bv8

  /** The contents of one disk block or register. */
  type Block = seq<byte>

  datatype Option<+T> = None | Some(value: T)

  /** A zero-filled buffer, as `memset(.., 0, n)` leaves it. */
  function Zeros(n: nat): Block {
    seq(n, _ => 0)
  }

  function Min(a: int, b: int): int {
    if a <= b then a else b
  }

  function Max(a: int, b: int): int {
    if a >= b then a else b
  }
}
