// Bytes and the C integer operators whose meaning differs from Dafny's.

module Bits {

  type byte = b: int | 0 <= b < 0x100

  function Min(a: int, b: int): int {
    if a <= b then a else b
  }

  function Max(a: int, b: int): int {
    if a >= b then a else b
  }

  function Abs(a: int): int {
    if a < 0 then -a else a
  }

  /** C's `/`, which truncates toward zero. */
  function TruncDiv(a: int, b: int): int
    requires b != 0
  {
    if a >= 0 then a / b else -((-a) / b)
  }
}
