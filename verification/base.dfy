/** Failure-carrying result types shared by every component of the model. */
module Base {

  /** An optional value; `None` stands for Go's nil / "not found" / "failed to parse". */
  datatype Option<+T> = None | Some(value: T)

  /** A Go `(value, error)` pair: exactly one of the two is meaningful. */
  datatype Result<+T, +E> = Ok(value: T) | Err(error: E)

  /** A Go `byte`. */
  newtype Byte = b: int | 0 <= b < 256

  /** The Go `int`/`int64` range. */
  const Int64Min: int := -0x8000_0000_0000_0000
  const Int64Max: int := 0x7FFF_FFFF_FFFF_FFFF

  predicate InInt64(x: int) {
    Int64Min <= x <= Int64Max
  }

  /** Two's-complement wrap-around of a Go 64-bit integer operation whose
      mathematical result is `x`. */
  function Wrap64(x: int): (r: int)
    ensures InInt64(r)
    ensures (r - x) % 0x1_0000_0000_0000_0000 == 0
    ensures InInt64(x) ==> r == x
  {
    (x - Int64Min) % 0x1_0000_0000_0000_0000 + Int64Min
  }
}
