/** Java's 32-bit `int` and its two's-complement wrap-around. */
module JavaInt {
  const INT_MIN: int := -0x8000_0000
  const INT_MAX: int := 0x7fff_ffff
  const TWO_POW_32: int := 0x1_0000_0000

  /** Values a Java `int` can hold. */
  type Int32 = x: int | INT_MIN <= x <= INT_MAX

  /** The `int` that Java arithmetic yields for the mathematical value `x`. */
  function Wrap(x: int): (r: Int32)
    ensures INT_MIN <= x <= INT_MAX ==> r == x
    ensures (x - r) % TWO_POW_32 == 0
  {
    (x - INT_MIN) % TWO_POW_32 + INT_MIN
  }
}
