/** Integers of the machine, and results that may be missing. */
module Machine {

  const TWO_32: nat := 0x1_0000_0000
  const TWO_63: nat := 0x8000_0000_0000_0000
  const TWO_64: nat := 0x1_0000_0000_0000_0000
  const INT_MAX: nat := 0x7fff_ffff
  const SIZE_MAX: nat := 0xffff_ffff_ffff_ffff
  const SSIZE_MAX: nat := 0x7fff_ffff_ffff_ffff
  const SSIZE_MIN: int := -0x8000_0000_0000_0000

  type byte = b: int | 0 <= b < 0x100
  type u32 = n: int | 0 <= n < 0x1_0000_0000
  type u64 = n: int | 0 <= n < 0x1_0000_0000_0000_0000
  type ssize = n: int | -0x8000_0000_0000_0000 <= n <= 0x7fff_ffff_ffff_ffff

  datatype Option<T> = None | Some(value: T)

  function Min(a: int, b: int): int {
    if a <= b then a else b
  }

  function Max(a: int, b: int): int {
    if a <= b then b else a
  }
}
