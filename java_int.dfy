/** Java's 32-bit `int`: its range and the wrap-around of its arithmetic. */
module JavaInt {

  const INT_MIN: int := -0x8000_0000
  const INT_MAX: int := 0x7fff_ffff
  const TWO_32: int := 0x1_0000_0000

  /** A value a Java `int` can hold. */
  type Int32 = x: int | -0x8000_0000 <= x <= 0x7fff_ffff

  /** The value Java stores when an exact result `x` is assigned to an `int`:
      the unique representable value congruent to `x` modulo 2^32. */
  function WrapInt32(x: int): (r: Int32)
    ensures (x - r) % TWO_32 == 0
    ensures INT_MIN <= x <= INT_MAX ==> r == x
  {
    var a := x - INT_MIN;
    assert a == TWO_32 * (a / TWO_32) + a % TWO_32;
    a % TWO_32 + INT_MIN
  }
}
