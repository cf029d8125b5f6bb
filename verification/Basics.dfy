/** Small definitions shared by several components. */
module Basics {
  datatype Option<+T> = None | Some(value: T)

  newtype i32 = x: int | -0x8000_0000 <= x < 0x8000_0000

  function Min(a: int, b: int): int { if a <= b then a else b }
  function Max(a: int, b: int): int { if a >= b then a else b }
}
