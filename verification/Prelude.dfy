/** Datatypes shared by every module. */
module Prelude {
  datatype Option<+T> = None | Some(value: T)

  datatype Result<+T> = Ok(value: T) | Err(error: string)

  /** Go's `uint64` arithmetic is modulo this value. */
  const TWO64: int := 0x1_0000_0000_0000_0000

  const MAX_INT64: int := 0x7FFF_FFFF_FFFF_FFFF
  const MIN_INT64: int := -0x8000_0000_0000_0000

  /** Two's-complement truncation of an integer to Go's 64-bit `int`. */
  function Wrap64(x: int): (r: int)
    ensures MIN_INT64 <= r <= MAX_INT64
    ensures MIN_INT64 <= x <= MAX_INT64 ==> r == x
    ensures (r - x) % TWO64 == 0
  {
    (x - MIN_INT64) % TWO64 + MIN_INT64
  }

  function Max(a: int, b: int): int { if a < b then b else a }

  /** The elements of a list of lists, in order. */
  ghost function Flatten<T>(ss: seq<seq<T>>): seq<T> {
    if ss == [] then [] else ss[0] + Flatten(ss[1..])
  }
}
