/** Small definitions that several modules share. */
module Common {
  datatype Option<T> = None | Some(value: T)

  function Min(a: int, b: int): int { if a < b then a else b }

  const INT32_MAX: int := 0x7fff_ffff
  /** The number of values of a 32-bit word. */
  const WORD: nat := 0x1_0000_0000

  predicate InInt32(v: int) {
    -0x8000_0000 <= v <= INT32_MAX
  }
}
