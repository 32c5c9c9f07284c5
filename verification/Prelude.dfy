/** Small shared datatypes: optional values, fallible results and the source's integer widths. */
module Prelude {
  datatype Option<+T> = None | Some(value: T)

  datatype Result<+T, +E> = Ok(value: T) | Err(error: E)

  const U32_MAX: int := 0xFFFF_FFFF

  /** The source's `u32`. */
  type U32 = x: int | 0 <= x <= 0xFFFF_FFFF

  /** One octet of an image or a device. */
  type Byte = b: int | 0 <= b < 256

  /** `u32::saturating_mul`. */
  function SaturatingMul(a: U32, b: U32): (r: U32)
    ensures a * b <= U32_MAX ==> r == a * b
    ensures a * b > U32_MAX ==> r == U32_MAX
  {
    Product(a, b);
    if a * b > U32_MAX then U32_MAX else a * b
  }

  /** `u32::saturating_sub`. */
  function SaturatingSub(a: U32, b: U32): U32 {
    if a < b then 0 else a - b
  }

  lemma Product(a: U32, b: U32)
    ensures 0 <= a * b
  {
  }

  /** A signing request or a floor this many cycles away from the head is out of the ordinary. */
  const LARGE_GAP_CYCLES: U32 := 4

  predicate StartsWith(s: string, prefix: string) {
    |prefix| <= |s| && s[..|prefix|] == prefix
  }
}
