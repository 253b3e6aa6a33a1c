/** What all models share. */
module Wrappers {
  /** An optional value, e.g. for AV_NOPTS_VALUE and for NULL pointers. */
  datatype Option<+T> = None | Some(value: T)

  newtype Byte = x: int | 0 <= x < 256

  function Min(a: int, b: int): int { if a < b then a else b }

  function Max(a: int, b: int): int { if a < b then b else a }
}
