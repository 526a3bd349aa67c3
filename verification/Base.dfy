/** Result types and the integer width shared by every module of the model. */
module Base {

  datatype Option<+T> = None | Some(value: T)

  datatype Result<+T, +E> = Ok(value: T) | Err(error: E)

  const MaxInt64: int := 0x7fff_ffff_ffff_ffff
  const MinInt64: int := -0x8000_0000_0000_0000
  const Two64: int := 0x1_0000_0000_0000_0000

  predicate FitsInt64(x: int) {
    MinInt64 <= x <= MaxInt64
  }

  /** Two's complement truncation: what Go's int64 arithmetic leaves of an exact result. */
  function Wrap64(x: int): (r: int)
    ensures FitsInt64(r)
    ensures FitsInt64(x) ==> r == x
    ensures (x - r) % Two64 == 0
  {
    var m := x % Two64;
    if m > MaxInt64 then m - Two64 else m
  }
}
